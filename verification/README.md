# A verified model of Canvas

Canvas is a framework for applications whose peers exchange signed actions and compute the
same database from them.  This project models, in Dafny, the parts of it that carry that
promise, and proves what they are for:

* **The causal log** (`packages/gossiplog`): message keys and their order, the mempool and the
  recursive drain, heads, the logarithmic ancestor index, reachability queries, and Merkle sync.
* **The runtime** (`packages/core/src/runtime`): actions that read only their causal past,
  last-writer-wins on message identifiers in both storage modes, and convergence of all peers.
* **Queries** (`packages/modeldb`): the compilation of a `where` clause to SQL under
  three-valued logic against the filter that gives its meaning, and the tables it is asked of.
* **The chess contract** (`examples/chess-server`): move generation, table-driven attack
  detection, making and undoing moves, and the text in which the contract stores a game.

## How to read it

Code that changes state is a class or a method with loops, proved against functions of values;
what the code is for is then proved of those functions.  Files follow the order of the system:

| files | content |
|---|---|
| `Positional`, `Options`, `Strings` | numerals and lexicographic order; absent values; splitting and decimal numbers |
| `Clock`, `MessageKeys` | the key format: encoding, order, printing, ancestor clocks |
| `CausalHistory` | the graph of messages and first ancestors |
| `AncestorIndex`, `AncestorSearch`, `IsAncestor`, `DroppedLinks`, `UnsharedLinks`, `AlikeLinks`, `SkippingSearch` | the skip index: what is stored, what is found, where a search loses an ancestor and when it does not |
| `Mempool`, `Delivery`, `GossipLog`, `Sync` | parking, draining, delivery order, heads, inserting, sync |
| `EffectKeys`, `Runtime`, `Consumer`, `MissedRead`, `PeerConvergence`, `Versions` | the runtime, what its reads find, and its convergence |
| `PropertyOrders`, `Placeholders`, `Where`, `WhereMeaning`, `ModelTable` | queries and tables |
| `ChessBoard` to `ChessAction` | the chess contract |

A message identifier is the pair of its clock and the number its hash bytes denote.  The
lemmas about keys show that such a pair stands for exactly one key and one printed identifier,
and that the three forms have the same order.  Messages live in one graph (`Dag`): identifiers
are content hashes, so an identifier means the same message and the same parents on every peer.

## Where the code differs from its intent

* `#getAncestors` returns at an already visited link where `isAncestor` continues
  (packages/gossiplog/src/AbstractGossipLog.ts:369-371 and 409-410).  The stored rows are sound
  but can lose ancestors: in every log that stores the 26 messages of `DroppedLinks`, a row lacks
  a first ancestor and `isAncestor` denies an ancestor (`StoredRowLosesAnAncestor`), and an
  action reads null from a record that only this ancestor wrote (`ReadMissesAncestor`).
  Over any index the answer of `isAncestor` is whether stored links lead to the ancestor
  (`QueryHops`), so every answer about an ancestor is right if and only if every row that a search
  for it reads leads to it (`AnswersRightIff`), and a read finds the last write among the
  ancestors if and only if stored links lead from some parent to it (`ReadsLastWriterIff`).
  A search of `#getAncestors` drops nothing if and only if the rows it reads are clear
  (`DropsNothingIff`); it is exact, whatever it drops, if wherever a link stands in these rows
  the same links follow it (`AlikeIsExact`), and so is a whole log (`AlikeBuiltIsExact`), in
  particular one without merges (`OneParentEachIsExact`).  An index built with the link skipped
  is always exact (`SkimBuiltIsExact`).  Convergence does not depend on it: rows are a function of
  the causal history either way (`BuiltIndexesAgree`).
* `insert` does not look whether the message is stored already.  Inserting a stored message
  again puts it back among the heads: `HeadsAreChildlessIff` says for every sequence when that
  leaves a head with a child, and `RepeatedRootIsHead` gives one.  `InsertAll` says exactly which
  sequences of inserts do that; appending and syncing never do.
* Keys sort by clock only below 2^14 (`ByteOrderFollowsClock`, `OrderBreaksAt16384`), and
  `encodingLength` is right only below 2^28 (`EncodingLengthExact`).  Sync walks the source in
  key order, so it can meet a message before its parent: it succeeds exactly if all ancestors of
  each key have been received or come before it (`Sync`), and so not with a child of clock 16384
  whose parent of clock 16383 has not been received (`LateParentStops`).
* The runtime stores null for a recorded delete (packages/core/src/runtime/AbstractRuntime.ts:160)
  and decodes it as bytes when reading (line 250).  The model reads it as null.
* SQL and filter disagree on `lte: null` and on `neq` of a string over a null reference
  (packages/modeldb/src/sqlite/api.ts:410-411 and 447-450); `ConditionExact` states exactly where,
  and `LteNullDiffers` and `NeqNullDiffers` give one record each.
* A side without a king is tested for an attack on the place to the left of A8, whose number is
  that of a missing king (examples/chess-server/contract.canvas.js:838-887), so that some of its
  moves are refused (`Attacked`, `LegalMoves`).
* A captured king stays recorded (`MakeKeepsConsistent`, `KingTakenStaysRecorded`); in games from
  the starting position none is captured (`NoKingTaken`).

## Model

| member | source | states |
|---|---|---|
| Clock.EncodeClock | packages/gossiplog/src/clock.ts:24-46 | writes exactly the clock's encoding into the front of the key, leaves the rest of the key alone, and returns the encoding's length |
| Clock.DecodeClock | packages/gossiplog/src/clock.ts:48-66 | returns the sum of the 7-bit sets up to the first byte without a continuation bit, with 32-bit shifts, and how many bytes that took |
| Clock.ClockRoundTrip | packages/gossiplog/src/clock.ts:24-66 | for every clock below 2^31, decoding its encoding followed by any bytes gives back the clock and the length |
| Clock.EncodingLengthExact | packages/gossiplog/src/clock.ts:1-22 | `encodingLength` agrees with the number of bytes written exactly for clocks below 2^28; from there on it says 10, because its bounds overflow |
| Clock.ByteOrderFollowsClock | packages/gossiplog/src/schema.ts:58-60 | for clocks c1 < c2, keys sort in clock order whatever the hashes are, if and only if c1 without its last set is at most the number formed by equally many leading sets of c2 |
| Clock.SmallClocksSort | packages/gossiplog/src/schema.ts:58-69 | below 2^14 keys always sort by clock |
| Clock.OrderBreaksAt16384 | packages/gossiplog/src/clock.ts:24-46 | 16383 encodes as ff 7f and 16384 as 81 80 00, which sorts first |
| MessageKeys.GetKey | packages/gossiplog/src/schema.ts:63-69 | a key is 20 bytes: the encoded clock, and behind it as many of the first bytes of the digest as fit; it decodes to the clock |
| MessageKeys.SameKeyIff | packages/gossiplog/src/schema.ts:63-69 | two keys are equal if and only if the clocks are and the digests agree on the bytes that fit behind the clock |
| MessageKeys.GetNextClock | packages/gossiplog/src/schema.ts:43-54 | one more than the largest clock the keys start with, 1 for no keys |
| MessageKeys.NextClock | packages/gossiplog/src/schema.ts:43-54 | the new clock is above every given clock and one above some of them |
| MessageKeys.IdOfKey | packages/gossiplog/src/schema.ts:63-69 | the pair of clock and hash number that this project uses for a message identifier stands for exactly one key, and the number is that of the digest bytes in the key |
| MessageKeys.KeyOfIdInjective | packages/gossiplog/src/schema.ts:63-69 | different pairs have different keys |
| MessageKeys.IdRoundTrip | packages/gossiplog/src/schema.ts:72-73 | printing a key in base32hex (section 7 of RFC 4648) and parsing it, and parsing and printing, are inverse to each other |
| MessageKeys.IdOrderIsStringOrder | packages/gossiplog/src/schema.ts:72-73 | printed identifiers compare exactly as keys compare byte by byte |
| MessageKeys.IdOrderTotal | packages/gossiplog/src/schema.ts:56-69 | two different identifiers compare in exactly one direction, and none precedes itself |
| MessageKeys.IdOrderTransitive | packages/gossiplog/src/schema.ts:56-69 | key order is transitive |
| MessageKeys.IdOrderFollowsClock | packages/gossiplog/src/schema.ts:56-69 | below clock 2^14 the earlier clock sorts first |
| MessageKeys.IdOrderExact | packages/gossiplog/src/schema.ts:56-69 | for identifiers of any two clocks below 2^31, the exact condition under which the earlier clock sorts first |
| MessageKeys.IdOrderBreaksAt16384 | packages/gossiplog/src/schema.ts:56-69 | every message with clock 16384 sorts before every message with clock 16383, its possible parent |
| AncestorClocks.GetAncestorClocks | packages/gossiplog/src/utils.ts:17-27 | for clocks from 1 to 2^30 the loop ends and lists clock - 2^i for exactly the i with a positive result |
| AncestorClocks.ListingEnds | packages/gossiplog/src/utils.ts:17-27 | the listing loop ends if and only if the clock is at most 2^30; above, 1 << 31 is negative and the loop never ends |
| AncestorClocks.LookupInRange | packages/gossiplog/src/AbstractGossipLog.ts:361-366 | row floor(log2(clock - bound)) always exists and looks back no further than the bound |
| CausalHistory.FirstAtIsPathEnds | packages/gossiplog/src/AbstractGossipLog.ts:383-416 | the first ancestors of a message at or before a clock are exactly the ends of the parent paths that stop at the first message at or before it |
| CausalHistory.FirstAtCovers | packages/gossiplog/src/AbstractGossipLog.ts:383-416 | every ancestor at or before a clock is reached through one of the first ancestors at that clock |
| CausalHistory.FirstAtInStages | packages/gossiplog/src/AbstractGossipLog.ts:443-468 | looking back in stages, from row to row, gives the same first ancestors as looking back directly |
| CausalHistory.ClosedHoldsAncestors | packages/gossiplog/src/AbstractGossipLog.ts:277-313 | a set that has the parents of its members has all their ancestors |
| AncestorIndex.GetAncestors | packages/gossiplog/src/AbstractGossipLog.ts:383-416 | the recursive search over the index, with its return at a visited link, adds exactly what the specification `Explore` adds to both sets |
| AncestorIndex.BuildEntry | packages/gossiplog/src/AbstractGossipLog.ts:443-468 | the loop nest that builds a message's rows computes the entry the specification gives |
| AncestorIndex.BuildRow | packages/gossiplog/src/AbstractGossipLog.ts:451-465 | one row from the row before it |
| AncestorSearch.NewRowSound | packages/gossiplog/src/AbstractGossipLog.ts:443-468 | as the code stands, every stored link is a first ancestor within its row's bound, whatever the search dropped |
| AncestorSearch.SearchConserves | packages/gossiplog/src/AbstractGossipLog.ts:383-416 | over exact rows, what a search finds together with what its dropped links lead to is exactly the set of first ancestors |
| AncestorSearch.ExtendSound | packages/gossiplog/src/AbstractGossipLog.ts:436-468 | storing a message keeps the index well shaped and sound |
| UnsharedLinks.DropsNothingIff | packages/gossiplog/src/AbstractGossipLog.ts:383-416 | from the stored rows alone: a search drops nothing if and only if each link in them that was visited before, or that an earlier link of its row leads to, is the last of its row |
| UnsharedLinks.UnsharedIsExact | packages/gossiplog/src/AbstractGossipLog.ts:383-416 | from the stored rows alone, whatever their order: if no link above the bound stands at two places of the rows the search can come to and is followed by another at one of them, the search drops nothing and finds exactly the first ancestors |
| AlikeLinks.AlikeIsExact | packages/gossiplog/src/AbstractGossipLog.ts:383-416 | from the stored rows alone: if wherever a link above the bound stands in the rows the search can come to the same links follow it, the search finds exactly the first ancestors, whatever it drops |
| AlikeLinks.UnsharedIsAlike | packages/gossiplog/src/AbstractGossipLog.ts:383-416 | rows without such shared links are of that kind |
| AlikeLinks.ExtendAlike | packages/gossiplog/src/AbstractGossipLog.ts:443-468 | if this holds for the searches of a new message, storing it keeps every row exact |
| AlikeLinks.AlikeBuiltIsExact | packages/gossiplog/src/AbstractGossipLog.ts:443-468 | if it holds for the searches of all stored messages, every row of the log is exact, with nothing assumed about any row |
| AlikeLinks.OneParentEachIsExact | packages/gossiplog/src/AbstractGossipLog.ts:443-468 | in a history without merges every row is exact |
| DroppedLinks.ReturnLosesAnAncestor | packages/gossiplog/src/AbstractGossipLog.ts:409-410 | in every log that stores the 26 messages of this history, the search from one of them returns one of its two roots and loses the other |
| DroppedLinks.StoredRowLosesAnAncestor | packages/gossiplog/src/AbstractGossipLog.ts:443-468 | in every such log the index the code builds has a row without one of the message's first ancestors, and `isAncestor` answers false about an ancestor |
| DroppedLinks.SomeLogStoresIt | packages/gossiplog/src/AbstractGossipLog.ts:436-468 | there is such a log, with an index built message by message |
| SkippingSearch.SkimExact | packages/gossiplog/src/AbstractGossipLog.ts:383-416 | with a visited link skipped instead of returned on, the search finds exactly the first ancestors |
| SkippingSearch.SkimBuiltIsExact | packages/gossiplog/src/AbstractGossipLog.ts:443-468 | every index built with that search from the first message on is exact: row i holds exactly the first ancestors with clock at or below clock - 2^i along every path |
| SkippingSearch.SkimStore | packages/gossiplog/src/AbstractGossipLog.ts:443-468 | storing a message with the rows that search computes keeps the index well shaped and so built |
| SkippingSearch.SkimIndexExists | packages/gossiplog/src/AbstractGossipLog.ts:436-468 | every parent-closed set of messages has such an index |
| IsAncestor.SearchAncestor | packages/gossiplog/src/AbstractGossipLog.ts:337-381 | the recursive query computes the specification `Query`, including the visited set it leaves; the clock falls on every call |
| IsAncestor.AskAncestor | packages/gossiplog/src/AbstractGossipLog.ts:332-381 | the public query: true for the ancestor itself, false for any other message that is not later, an error exactly for an unindexed message later than the ancestor; otherwise, over any index, the answer is whether stored links lead from the message to the ancestor; a positive answer is always right; over exact rows the answer is reachability or equality |
| IsAncestor.QuerySound | packages/gossiplog/src/AbstractGossipLog.ts:337-381 | over sound rows a positive answer means the ancestor is reached through parent links |
| IsAncestor.QueryHops | packages/gossiplog/src/AbstractGossipLog.ts:337-381 | over any index, whatever its rows lack: the answer is whether stored links lead to the ancestor, and nothing visited on the way to a negative answer leads to it |
| IsAncestor.QueryMarks | packages/gossiplog/src/AbstractGossipLog.ts:368-379 | the visited set only grows, and a negative answer has put every link of the row it read into it |
| IsAncestor.QueryRightIff | packages/gossiplog/src/AbstractGossipLog.ts:337-381 | over sound rows an answer is right if and only if stored links lead to the ancestor in case it is one |
| IsAncestor.AnswersRightIff | packages/gossiplog/src/AbstractGossipLog.ts:337-381 | over sound rows every answer about an ancestor is right if and only if in every message that descends from it the row a search for it reads has a link that descends from it or is it |
| IsAncestor.ExactHops | packages/gossiplog/src/AbstractGossipLog.ts:337-381 | over exact rows stored links lead to exactly the ancestors, so that every answer is reachability |
| IsAncestor.AnyParentReaches | packages/core/src/runtime/AbstractRuntime.ts:243-252 | the loop over the parents with one shared visited set computes the specification |
| IsAncestor.QueryParentsHops | packages/core/src/runtime/AbstractRuntime.ts:243-252 | over any index, sharing the visited set among the parents loses nothing: the answer is whether stored links lead from some parent to the ancestor |
| IndexAgreement.BuiltIndexesAgree | packages/gossiplog/src/AbstractGossipLog.ts:443-468 | stored rows are a function of the causal history: any two peers have equal entries for the messages both hold |
| IndexAgreement.QueryParentsAgrees | packages/gossiplog/src/AbstractGossipLog.ts:337-381 | searches in two such indexes give the same answers |
| Mempool.Mempool.Add | packages/gossiplog/src/Mempool.ts:27-39 | the three maps after `add` |
| Mempool.Mempool.Observe | packages/gossiplog/src/Mempool.ts:45-53 | starting the generator removes the entry of the observed message and fixes the children to visit |
| Mempool.Mempool.Release | packages/gossiplog/src/Mempool.ts:55-69 | one turn of the generator: the parent is struck off, and the child is removed and yielded exactly if nothing is missing |
| Mempool.StartDrain | packages/gossiplog/src/AbstractGossipLog.ts:438-470 | storing a message and starting its generator keeps the mempool invariant with the new generator open |
| Mempool.VisitChild | packages/gossiplog/src/Mempool.ts:55-69 | while outer generators are suspended, each visited child is still parked (both assertions hold), `missingParents` and `waitingChildren` stay mirror images apart from the open generators, and a child is yielded if and only if all its parents are stored and no other open generator has still to visit it |
| Mempool.EndDrain | packages/gossiplog/src/AbstractGossipLog.ts:470-472 | an exhausted generator leaves the invariant as it was before the message |
| Mempool.ParkMessage | packages/gossiplog/src/AbstractGossipLog.ts:299-301 | parking a message, again or for the first time, keeps the invariant |
| Delivery.HeadsCover | packages/gossiplog/src/AbstractGossipLog.ts:229-264 | every stored message is an ancestor of some head, or a head |
| Delivery.HeadsStep | packages/gossiplog/src/AbstractGossipLog.ts:436-441 | a first insertion keeps the heads equal to the childless messages; inserting a stored message again keeps them equal if and only if that message is childless |
| Delivery.HeadsAreChildless | packages/gossiplog/src/AbstractGossipLog.ts:436-441 | without repeated insertions the heads are exactly the childless messages |
| Delivery.HeadExactly | packages/gossiplog/src/AbstractGossipLog.ts:436-441 | for every sequence of insertions, a message is a head if and only if some insertion of it comes after all insertions of its children |
| Delivery.HeadsAreChildlessIff | packages/gossiplog/src/AbstractGossipLog.ts:436-441 | for every sequence, repeats included, the heads are the childless messages if and only if every insertion of a message with children is followed by one of a child |
| Delivery.RepeatedRootIsHead | packages/gossiplog/src/AbstractGossipLog.ts:436-441 | a root, its child and the root again leave both as heads |
| Delivery.StoredIsLargestClosed | packages/gossiplog/src/AbstractGossipLog.ts:277-313 | what a peer stores is exactly the largest parent-closed part of what it received, and every other received message waits for exactly its parents that are not stored, of which there are some |
| Delivery.StoredIffArrived | packages/gossiplog/src/AbstractGossipLog.ts:277-313 | a message is stored exactly if it and all its ancestors have been received |
| Delivery.SameReceivedSamePeer | packages/gossiplog/src/AbstractGossipLog.ts:277-313 | peers that received the same messages in any orders, repeats included, have the same messages, the same ancestor index and the same mempool, and the same heads if `apply` was called once for each message; `InsertAll` says exactly when it was |
| Delivery.StoreMessage | packages/gossiplog/src/AbstractGossipLog.ts:436-468 | storing a message whose parents are stored keeps store, heads and index invariants |
| GossipLog.GossipLog.Insert | packages/gossiplog/src/AbstractGossipLog.ts:277-313 | rejects exactly messages with the wrong clock and changes nothing; parks exactly if a parent is missing, changing only the mempool; otherwise applies; afterwards the log is the largest parent-closed part of what was received; `apply` is called twice for some message exactly if it was before or a stored message is inserted, and as long as it is not the heads are the childless messages |
| GossipLog.GossipLog.InsertAll | packages/gossiplog/src/AbstractGossipLog.ts:277-313 | for every sequence of inserts: the log is the largest parent-closed part of what was received; `apply` is called once for each message if and only if it was before and no message is inserted after it and all its ancestors have been received; then the heads are the childless messages |
| GossipLog.GossipLog.InsertMessage | packages/gossiplog/src/AbstractGossipLog.ts:418-475 | `#insert` with its recursive drain: delivers the message first, then exactly the messages that leave the mempool, each once |
| GossipLog.GossipLog.Drain | packages/gossiplog/src/AbstractGossipLog.ts:470-472 | the loop over one generator, with nested drains in between; it ends because the mempool shrinks |
| GossipLog.GossipLog.Visit | packages/gossiplog/src/AbstractGossipLog.ts:470-472 | one turn of that loop |
| GossipLog.GossipLog.Store | packages/gossiplog/src/AbstractGossipLog.ts:433-468 | stores message, head and index entry and removes the parents from the heads |
| GossipLog.GossipLog.Append | packages/gossiplog/src/AbstractGossipLog.ts:246-270 | a message on top of the heads gets a clock above every stored clock, descends from every stored message, and is not a second call of `apply` for any message |
| GossipLog.HeadsAreAbove | packages/gossiplog/src/AbstractGossipLog.ts:246-252 | any message whose parents are the heads is new, and later than everything stored |
| Sync.Sync | packages/gossiplog/src/sync/driver.ts:14-92 | for every source in key order and every log, whatever its mempool holds: the walk ends; the yielded keys are a subsequence of the source's, in ascending key order; a key is yielded if and only if the target lacks it when the walk passes it (always, for an empty target), and a key not yielded is there with the same message; at each key the target is the largest parent-closed part of what had been received and the keys before; the walk succeeds if and only if all ancestors of each key's parents, and the parents, have been received or come before it; it does for a parent-closed source with clocks below 2^14; otherwise it stops at a message without a parent; on success every source key is stored, and nothing stored is applied again |
| Sync.LateParentStops | packages/gossiplog/src/AbstractGossipLog.ts:483-507 | a source with a parent of clock 16383 and its child of clock 16384 ends the sync of a log that has not received the parent with the missing-parent error |
| Sync.SyncRoot | packages/gossiplog/src/sync/driver.ts:33-54 | the descent to the target's level: what it yields key by key, blindly exactly for an empty target |
| Sync.SyncNode | packages/gossiplog/src/sync/driver.ts:56-92 | one subtree, while the target grows between yields: every key is yielded if and only if it is absent when it is passed, and an equal subtree is passed over because all its keys are stored |
| Sync.SyncLeaf | packages/gossiplog/src/sync/driver.ts:68-90 | one leaf: yielded if and only if it is absent; present, it is the same message |
| Sync.Receive | packages/gossiplog/src/AbstractGossipLog.ts:483-507 | the consumer: a stored message is skipped; a missing parent is an error exactly if some parent is not stored, and it names one |
| Sync.SourceOrder | packages/gossiplog/src/AbstractGossipLog.ts:483-512 | in a parent-closed source with clocks below 2^14, key order is parent-before-child |
| Sync.DeliveryIsFillable | packages/gossiplog/src/AbstractGossipLog.ts:483-512 | from a source in parent-before-child key order every log can be filled, whatever it has received |
| EffectKeys.PrintedInRange | packages/core/src/runtime/AbstractRuntime.ts:226-227 | every printed identifier of a real key lies from the smallest printed identifier up to, but not at, the largest |
| EffectKeys.SplitRendered | packages/core/src/runtime/AbstractRuntime.ts:242 | splitting an effect key at slashes recovers model, key hash and message identifier |
| EffectKeys.RenderedInjective | packages/core/src/runtime/AbstractRuntime.ts:150 | different effects have different keys |
| EffectKeys.ScanBelow | packages/core/src/runtime/AbstractRuntime.ts:231-235 | the descending string-range scan of a record below an effect key sees exactly that record's earlier effects |
| EffectKeys.ScanAll | packages/core/src/runtime/AbstractRuntime.ts:226-235 | the full scan sees exactly that record's effects |
| EffectKeys.ScanAbove | packages/core/src/runtime/AbstractRuntime.ts:151-155 | the supersession query sees exactly that record's later effects |
| Runtime.PastIsAncestors | packages/core/src/runtime/AbstractRuntime.ts:243-252 | what an action can see are strict ancestors of its message |
| Runtime.PastIsAllAncestors | packages/core/src/runtime/AbstractRuntime.ts:243-252 | over exact rows it can see exactly its strict ancestors |
| Runtime.ReadsAgree | packages/core/src/runtime/AbstractRuntime.ts:211-256 | once its parents are delivered, a read through the database finds what the causal past alone determines, whatever concurrent effects are stored |
| Runtime.SeesIffHops | packages/core/src/runtime/AbstractRuntime.ts:243-252 | what an action can see is exactly what stored links lead to from some parent |
| Runtime.ReadsLastWriterIff | packages/core/src/runtime/AbstractRuntime.ts:211-256 | a read finds the greatest effect among the message's ancestors if and only if there is none or stored links lead from some parent to that one |
| Runtime.ExactRowsReadLastWriter | packages/core/src/runtime/AbstractRuntime.ts:211-256 | over exact rows every read returns the greatest effect among the message's ancestors, or null if they have none |
| MissedRead.ReadMissesAncestor | packages/core/src/runtime/AbstractRuntime.ts:211-256 | on the index the code builds for the history of `DroppedLinks`, after every message is delivered, the last one reads null from a record that its ancestor wrote |
| Runtime.RunIsExecuted | packages/core/src/runtime/FunctionRuntime.ts:78-126 | the specified run of an action is an execution: every `get` is answered with the last `set` or `delete` of the record before it, or from outside if there is none, and what is written is the last write to each record |
| Runtime.WritesAreExecuted | packages/core/src/runtime/FunctionRuntime.ts:78-126 | so a message's writes are what its action's commands leave when its reads find its causal past |
| Runtime.StepWrites | packages/core/src/runtime/AbstractRuntime.ts:139-200 | an action's writes are a function of its causal history |
| Runtime.WinningNext | packages/core/src/runtime/AbstractRuntime.ts:151-170 | how one more write changes the winning write of a record |
| Runtime.StepKeeps | packages/core/src/runtime/AbstractRuntime.ts:139-200 | delivering a message, again or for the first time, keeps effects and tables a function of the set of delivered messages |
| Runtime.RunAllMatches | packages/core/src/runtime/AbstractRuntime.ts:139-200 | after any delivery sequence the effects are exactly the writes of its messages and each record has its greatest write |
| Runtime.Converges | README.md:13 | any two parent-before-child deliveries of the same messages, repeats allowed, leave identical effects and identical model tables |
| PeerConvergence.PeersConverge | README.md:13 | two logs that received the same messages in any orders determine the same world, and the specified runs over their own delivery sequences end equal |
| PeerConvergence.Replay | packages/core/src/runtime/AbstractRuntime.ts:99-200 | consuming a log's messages in their order, each against the ancestor index as it is then, leaves the database of the specified run |
| PeerConvergence.RuntimesConverge | README.md:13 | two runtimes that have consumed the messages of two such logs store the same effect rows and the same model tables |
| PeerConvergence.EarlierIndexServes | packages/gossiplog/src/AbstractGossipLog.ts:337-381 | the index a log had while a message was applied answers its reads as the final index would |
| Consumer.FunctionRuntime.GetModelValue | packages/core/src/runtime/AbstractRuntime.ts:211-256 | returns the pending write if there is one, else the value of the greatest effect among those the ancestor check confirms, else null; over exact rows these are all effects of the message's ancestors; the loop ends because the upper bound falls through finitely many effects |
| Consumer.FunctionRuntime.QueryLast | packages/core/src/runtime/AbstractRuntime.ts:231-235 | the database query for the last key of a range |
| Consumer.FunctionRuntime.Execute | packages/core/src/runtime/FunctionRuntime.ts:78-126 | runs an action against the API with the context set, and clears the context; there is a trace of commands and replies, the next command being the action's answer to the replies so far, in which every `get` gets the last `set` or `delete` of the record before it, or the database's value if there is none, and a record is returned as written exactly if some command sets or deletes it, with its last write |
| Consumer.FunctionRuntime.Perform | packages/core/src/runtime/FunctionRuntime.ts:80-96 | `get` answers the pending write if there is one and the database's value otherwise, and writes nothing; `set` notes the value and `delete` null |
| Consumer.FunctionRuntime.Collect | packages/core/src/runtime/AbstractRuntime.ts:141-194 | the effect loop: its batch turns the stored rows into those of the specification |
| Consumer.FunctionRuntime.EffectsOf | packages/core/src/runtime/AbstractRuntime.ts:149-192 | one record: the effect is always recorded, and the table changes exactly if no greater effect supersedes it |
| Consumer.FunctionRuntime.Apply | packages/core/src/runtime/AbstractRuntime.ts:196-199 | applies a batch in order |
| Consumer.FunctionRuntime.Consume | packages/core/src/runtime/AbstractRuntime.ts:99-200 | consuming a message takes the database exactly one step of the specification |
| Consumer.AppliedOneMore | packages/core/src/runtime/AbstractRuntime.ts:145-194 | an action's writes can be applied record by record, in any order |
| Consumer.KeyOrderIsTotal | packages/core/src/runtime/AbstractRuntime.ts:151-155 | the order of identifiers that decides between writes is a strict total order |
| PropertyOrders.LessThan | packages/modeldb/src/query.ts:17-33 | the byte loop computes lexicographic order, with null first |
| Versions.VersionedRuntime.Execute | packages/core/src/runtime/FunctionRuntime.ts:78-126 | an action that only writes returns the last write to every record it sets or deletes |
| Versions.VersionedRuntime.Consume | packages/core/src/runtime/AbstractRuntime.ts:171-193 | the version register mode: each written record is replaced exactly if the message's key is not below the recorded version |
| Versions.RunHoldsBest | packages/core/src/runtime/AbstractRuntime.ts:171-193 | after any sequence of messages, children before parents and repeats included, every record holds its greatest write and that write's version |
| Versions.VersionsConverge | packages/core/src/runtime/AbstractRuntime.ts:171-193 | any two sequences of the same messages leave the same versions and tables |
| Versions.Replay | packages/core/src/runtime/AbstractRuntime.ts:99-200 | running the actions of a sequence of messages and consuming their writes, one message after the other, is such a sequence |
| Versions.RuntimesAgree | packages/core/src/runtime/AbstractRuntime.ts:171-193 | two runtimes of this mode that have consumed the same messages in any orders hold the same versions and tables |
| Versions.ModesAgree | packages/core/src/runtime/AbstractRuntime.ts:145-193 | both modes compute the same tables from the same messages |
| Versions.RuntimesOfBothModesAgree | packages/core/src/runtime/AbstractRuntime.ts:145-193 | a runtime of either mode that has consumed the same messages holds the same tables |
| Versions.OwnPastNeverWins | packages/core/src/runtime/AbstractRuntime.ts:145-193 | below clock 2^14 a write never loses to a write by one of its own ancestors |
| Versions.OwnWriteWinsExactly | packages/core/src/runtime/AbstractRuntime.ts:145-193 | for clocks of any size, the exact condition on the two clocks under which a write wins against an ancestor's |
| Placeholders.NamesDiffer | packages/modeldb/src/sqlite/api.ts:335-336 | `p{i}` and `p{i}q{j}` name different places differently |
| Where.GetWhereExpression | packages/modeldb/src/sqlite/api.ts:319-502 | the loop over the conditions computes filters and parameters, or fails exactly where some condition fails |
| WhereMeaning.PlaceholdersKeep | packages/modeldb/src/sqlite/api.ts:322-490 | every placeholder keeps its own value: no later condition rebinds it |
| WhereMeaning.BoundTruth | packages/modeldb/src/sqlite/api.ts:399-427 | a compiled bound is true or false, never unknown, and null is below every value |
| WhereMeaning.ConditionExact | packages/modeldb/src/sqlite/api.ts:323-490 | the compiled condition and the filter agree on a value if and only if it is not one of two cases: `lte: null` on a non-null value within the other bounds, or `neq` of a string on a null reference |
| WhereMeaning.LteNullDiffers | packages/modeldb/src/sqlite/api.ts:410-411 | `lte: null` selects a number the filter rejects |
| WhereMeaning.NeqNullDiffers | packages/modeldb/src/sqlite/api.ts:447-450 | `neq` of a string leaves out a null reference the filter accepts |
| WhereMeaning.LinkMeaning | packages/modeldb/src/sqlite/api.ts:459-490 | relation tests hold exactly if every target is (or none is) linked |
| WhereMeaning.CompilerSucceeds | packages/modeldb/src/sqlite/api.ts:319-502 | where a filter can be built over supported properties, the compiler does not throw |
| WhereMeaning.ClauseExact | packages/modeldb/src/query.ts:213-221 | for every clause the filter can be built for, the compiled expression is true of a record if and only if each condition either accepts its value or is in one of the two cases of `ConditionExact` there, not both |
| WhereMeaning.ClauseMeaning | packages/modeldb/src/query.ts:213-221 | for plain clauses the compiled expression is true under three-valued logic exactly of the records the filter accepts |
| WhereMeaning.SelectedIsAsked | packages/modeldb/src/sqlite/api.ts:323-490 | what a compiled condition selects, written out by type: numbers by size, texts by character codes, byte strings by bytes, null below all, and the two cases in which SQL parts from the filter |
| WhereMeaning.NumbersBetween | packages/modeldb/src/sqlite/api.ts:399-427 | two bounds on a number ask for the open or closed interval between them |
| WhereMeaning.ScoresAboveFive | packages/modeldb/src/sqlite/api.ts:417-419 | `gt: 5` on a number asks for the numbers above five |
| ModelTable.ModelApi.Set | packages/modeldb/src/sqlite/api.ts:158-178 | a value is rejected, and nothing changed, exactly if it lacks a property or has one its type does not take; otherwise its own record, and no other, is replaced, and then has exactly the properties of the model with the given values |
| ModelTable.ValidIsTaken | packages/modeldb/src/utils.ts:48-103 | validation accepts exactly the values of the property's type: null where optional, safe integers for integers, text, bytes and lists of keys |
| ModelTable.ModelApi.Get | packages/modeldb/src/sqlite/api.ts:146-156 | returns exactly what was last set under the key |
| ModelTable.ModelApi.Delete | packages/modeldb/src/sqlite/api.ts:180-190 | removes exactly one record and its relation rows |
| ModelTable.ModelApi.Query | packages/modeldb/src/sqlite/api.ts:210-260 | throws exactly if the clause does not compile, which never happens where the filter can be built; there it selects exactly the records that have what every condition asks for, with the comparison written out by type; for plain clauses these are the records whose values the filter accepts |
| ModelTable.RelationApi.Add | packages/modeldb/src/sqlite/api.ts:544-550 | adds a source's targets in order and touches no other source |
| ModelTable.RelationApi.Delete | packages/modeldb/src/sqlite/api.ts:552-554 | removes a source's targets and touches no other source |
| ChessBoard.OffBoardExact | examples/chess-server/contract.canvas.js:84-93 | the test `i & 0x88` recognises exactly the squares beside the board |
| ChessTables.AttacksTable | examples/chess-server/contract.canvas.js:25-41 | every entry of ATTACKS says exactly which pieces are aligned at that distance |
| ChessTables.RaysTable | examples/chess-server/contract.canvas.js:44-60 | every entry of RAYS for aligned sliders is the step towards the square |
| ChessAttacks.SliderReaches | examples/chess-server/contract.canvas.js:862-877 | a slider walks to a square exactly if it is aligned with it and the ray of the table is clear |
| ChessAttacks.RayIsClear | examples/chess-server/contract.canvas.js:862-875 | the inner loop ends and reports exactly whether the ray is clear |
| ChessAttacks.Attacked | examples/chess-server/contract.canvas.js:838-883 | for every board and square, the table-driven test is true if and only if some piece of the colour makes moves to the square by the generator's own walk or pawn capture; for a missing king, if and only if some piece is aimed, from at most seven files away, at the place to the left of A8 and nothing stands between |
| ChessGenerate.DirectionMoves | examples/chess-server/contract.canvas.js:704-725 | the walk in one direction yields exactly the moves over empty squares and the capture at their end |
| ChessGenerate.PawnMoves | examples/chess-server/contract.canvas.js:680-703 | exactly the steps, double steps, captures and en passant captures of a pawn, with all promotions |
| ChessGenerate.CastleMoves | examples/chess-server/contract.canvas.js:728-765 | exactly the castling moves the rights, the empty squares and the attacked squares allow |
| ChessGenerate.PseudoLegalMoves | examples/chess-server/contract.canvas.js:627-769 | the generator finds exactly the pseudo-legal moves, which are defined without it |
| ChessRules.PseudoLegalIsAllowed | examples/chess-server/contract.canvas.js:627-769 | in every consistent position these are exactly the moves that the rules allow, stated in ranks and files without offsets, tables or the generator's tests: pawn steps, captures and promotions to four pieces, the lines of the other pieces with nothing between, and castling |
| ChessRules.PawnByRules | examples/chess-server/contract.canvas.js:680-703 | a pawn's moves are those of the rules |
| ChessRules.CastleByRules | examples/chess-server/contract.canvas.js:728-765 | castling needs the right, empty squares all the way from the king to the rook, and a king that does not stand on, pass or reach an attacked square |
| ChessRules.AttackedIsUnderAttack | examples/chess-server/contract.canvas.js:838-883 | a square is attacked exactly if by the rules some piece could take on it |
| ChessPlay.UndoMake | examples/chess-server/contract.canvas.js:996-1133 | undoing a made move restores the position whenever the move records the moving and the captured piece truly |
| ChessPlay.UndoRestores | examples/chess-server/contract.canvas.js:996-1133 | so it does for every pseudo-legal move from every consistent position |
| ChessConsistency.MakeAt | examples/chess-server/contract.canvas.js:996-1040 | square by square, what a move does to the board |
| ChessRules.MadeByRules | examples/chess-server/contract.canvas.js:996-1040 | the same for allowed moves in terms of the rules: where the piece, a pawn taken in passing and the castling rook have gone |
| ChessConsistency.MakeKeepsConsistent | examples/chess-server/contract.canvas.js:996-1083 | a generated move keeps the position consistent if and only if it captures no king |
| ChessConsistency.KingTakenStaysRecorded | examples/chess-server/contract.canvas.js:996-1057 | a rook that takes a lone king: the king stays recorded on the square where the rook stands |
| ChessConsistency.RightsOutlast | examples/chess-server/contract.canvas.js:1035-1057 | a castling right outlasts a generated move exactly if its king does not leave home and its rook's home square is neither left nor entered; it even outlasts the capture of its king |
| ChessConsistency.EpIsSkipped | examples/chess-server/contract.canvas.js:1059-1068 | after a pawn moves two ranks the en passant square is the one between; after any other move there is none |
| ChessConsistency.HalfMovesCount | examples/chess-server/contract.canvas.js:1070-1077 | moves that take nothing and move no pawn are counted, the others start the count anew |
| ChessAction.QuietMovesCount | examples/chess-server/contract.canvas.js:1070-1077 | in every game the half-move counter is the number of moves since the last pawn move or capture |
| ChessAction.TurnsAlternate | examples/chess-server/contract.canvas.js:1079-1083 | in every game the sides alternate and the move number rises after every move of Black |
| ChessGame.Game.MakeMove | examples/chess-server/contract.canvas.js:996-1083 | the game object after a move is the specified position, with the old state on the history |
| ChessGame.Game.UndoMove | examples/chess-server/contract.canvas.js:1085-1133 | the game object after undoing, and null exactly for an empty history |
| ChessGame.Game.LegalMoves | examples/chess-server/contract.canvas.js:775-786 | finds exactly the moves the rules allow after which the own king is not under attack, a missing king counting as the place beside A8, and leaves the game and its history as they were |
| ChessLegal.LegalIsByRules | examples/chess-server/contract.canvas.js:775-786 | the pseudo-legal moves that leave the king safe are those moves |
| ChessLegal.CastlingLegalIff | examples/chess-server/contract.canvas.js:728-786 | a castling move is legal exactly if castling is allowed: the squares it opens cannot expose the king |
| ChessLegal.PromotionChoices | examples/chess-server/contract.canvas.js:627-640 | where a pawn can be promoted to one piece, it can be promoted to exactly queen, rook, bishop and knight |
| ChessGame.Game.InThreefoldRepetition | examples/chess-server/contract.canvas.js:948-982 | undoes and makes the whole game again, leaves it unchanged, and is true if and only if some key was counted three times; from a consistent position, if and only if three positions of the game agree in board, side to move, castling rights and en passant square |
| ChessRepetition.KeyIsPosition | examples/chess-server/contract.canvas.js:964-967 | for consistent positions the first four fields of the text are equal if and only if board, side to move, castling rights and en passant square are |
| ChessRepetition.RepeatsAreAlike | examples/chess-server/contract.canvas.js:964-973 | a key counted three times means three positions that are the same |
| ChessGame.RecordNext | examples/chess-server/contract.canvas.js:984-997 | a pseudo-legal move from a consistent position extends a recorded game |
| ChessFen.PrintRanks | examples/chess-server/contract.canvas.js:475-503 | the printing loop gives the ranks from the eighth down, separated by slashes |
| ChessText.AlgebraicNames | examples/chess-server/contract.canvas.js:192-196 | every square prints as the letter of its file, from a, and the number of its rank, the eighth being the first |
| ChessText.NameReads | examples/chess-server/contract.canvas.js:84-93 | reading that name gives the square |
| Strings.DecimalPlaces | examples/chess-server/contract.canvas.js:475-526 | numbers print in decimal notation, most significant digit first and without leading zeros |
| ChessGame.Game.GenerateFen | examples/chess-server/contract.canvas.js:475-526 | the text of the game object's position |
| ChessGame.Game.LoadFen | examples/chess-server/contract.canvas.js:330-381 | rejects exactly the texts that are not well formed and changes nothing; otherwise the position is the one the text describes and the history is empty |
| ChessText.AcceptedExactly | examples/chess-server/contract.canvas.js:388-473 | `validate_fen` passes exactly the texts of six fields with eight rows of letters and digits, no digit after a digit, for eight squares each, w or b, one of the sixteen castling texts, a dash or a square a pawn of the other side skipped, and two counters |
| ChessText.LoadDescribes | examples/chess-server/contract.canvas.js:358-376 | side to move, castling rights, en passant square and counters are what the fields say |
| ChessGame.Game.Put | examples/chess-server/contract.canvas.js:560-591 | returns false and changes nothing exactly for squares beside the board and for a second king; otherwise the square, and no other, gets the piece, and a king is recorded there |
| ChessRoundTrip.FenIsValid | examples/chess-server/contract.canvas.js:388-473 | the text of every consistent position passes `validate_fen` |
| ChessRoundTrip.FenRoundTrip | examples/chess-server/contract.canvas.js:330-526 | loading the text of a consistent position (section 16.1 of the PGN standard) gives back board, kings, turn, rights, en passant square and counters |
| ChessAction.NoKingTaken | examples/chess-server/contract.canvas.js:775-783 | no move takes a king if the side that just moved is not in check |
| ChessAction.LegalKeepsInPlay | examples/chess-server/contract.canvas.js:1905-1910 | legal moves lead from playable positions to playable positions, and storing the text loses nothing |
| ChessAction.StoredGame | examples/chess-server/contract.canvas.js:1905-1910 | in every game from a playable position, each stored text carries the whole position |
| ChessAction.DefaultIsStart | examples/chess-server/contract.canvas.js:7 | the default text is the starting position's and loads as it |
| ChessAction.MoveAction | examples/chess-server/contract.canvas.js:1905-1910 | starts from the stored position, or the starting position if none is stored; throws exactly if no move the rules allow goes between the squares with these names; otherwise stores the text of the position after such a move, in which a promoted pawn is a queen |
| ChessAction.AskedMeans | examples/chess-server/contract.canvas.js:1907 | the move asked for is one between the named squares that leaves a queen for a promoted pawn |
| ChessOpening.OpenGame | examples/chess-server/contract.canvas.js:1905-1910 | e2 to e4 in a new game stores `rnbqkbnr/pppppppp/8/8/4P3/8/PPPP1PPP/RNBQKBNR b KQkq e3 0 1` |

## Left out

- Networking, streams, timers, peer scheduling and the storage backends: input and output around libraries.
- Signatures, sessions, CBOR and IPLD schemas: signatures are taken as valid, sessions as present, and hashing as injective, so that an identifier determines its message.
- Actions that fail, and the rollback of their transaction: `apply` is taken not to throw, and the calls of `apply` are recorded in `delivered`.
- The body of an action: any deterministic sequence of at most `limit` commands, each a function of the replies so far.
- The identifier of an appended message: it is the hash of the signed message, so the model takes it as given, with the heads as parents and the next clock.
- `indexAncestors = false`: out-of-order storing there breaks parent-closure.
- The final sorting of `getAncestors`, the sorting of parents in `encode`, and the check of sorted parents in `decode`.
- Messages with clock 0 or above 2^30: no message the clock check admits has clock 0, and above 2^30 the listing of ancestor clocks does not end (`ListingEnds`).
- The Okra tree: a tree with sorted children whose equal hashes mean equal subtrees.
- The relation between the two heaps of two peers: `SameReceivedSamePeer` and `PeersConverge` speak of the values of two logs.
- The call of `apply` from within `#insert`: a log records its calls in `delivered`, and `Replay` consumes them with the index as it was at each call.
- Records are identified by model and key hash; the primary key itself is only hashed by the runtime.
- Column encodings (booleans as numbers, json as text), NaN, and UTF-16 against UTF-8 order of strings: values are compared as they are, strings by character code.
- Booleans and json in where clauses: json is not compiled, and a boolean cannot be bound to a placeholder.
- SELECT lists, ORDER BY, LIMIT and OFFSET, and the text of the SQL itself: the compiled form is a syntax tree.
- Sharing of piece objects between squares of the chess board: at most one square holds each object, so pieces are values.
- Chess notation (SAN, PGN), comments, headers, and single-square and single-piece move generation.
- Sync.SyncLeaf: the conflict of equal keys with different hashes, which is only logged, cannot arise between logs that share one graph of messages.
- Sync.Sync: the rollback of the transaction when it throws; the log is left as it was then.
- AlikeLinks.AlikeIsExact: goes one way.  Rows that are not alike may still lose nothing; whether they do depends on the whole order of the walk, which `SearchExactIff` tells by its result and `DropsNothingIff` by the rows as long as nothing is dropped.
- AncestorSearch.SearchExactIff: states its condition, as `ExtendExactIff` does, with the links dropped on the way and what was found; the conditions on stored rows alone are those of `UnsharedLinks` and `AlikeLinks`.
