/** Merkle sync (driver.ts and AbstractGossipLog.sync): walking the source tree, skipping
    what the target has, and inserting what it lacks while the walk goes on. */
module Sync {
  import opened Positional
  import opened MessageKeys
  import opened CausalHistory
  import opened Options
  import opened Delivery
  import opened GossipLog

  type Message = seq<Id>

  /** A node of the source's tree.  Leaves are at level 0; the first leaf has no key. */
  datatype Node = Node(level: nat, key: Option<Id>, hash: int, value: Option<Message>, children: seq<Node>)

  /** The hash of the target's node at a level and key, if there is one. */
  type Lookup = (map<Id, Message>, nat, Option<Id>) -> Option<int>

  /** The keys of a node's leaves, from left to right. */
  ghost function Keys(node: Node): seq<Id>
    decreases node, 1
  {
    if node.level == 0 then (if node.key.Some? then [node.key.value] else []) else KeysOf(node.children)
  }

  ghost function KeysOf(nodes: seq<Node>): seq<Id>
    decreases nodes, 0
  {
    if nodes == [] then [] else Keys(nodes[0]) + KeysOf(nodes[1..])
  }

  /** Levels fall by one from a node to its children, and leaves with keys hold messages. */
  ghost predicate Levelled(dag: Dag, node: Node)
    decreases node, 1
  {
    if node.level == 0 then
      node.key.Some? ==> node.value.Some? && node.key.value in dag && node.value.value == dag[node.key.value]
    else AllLevelled(dag, node.children, node.level - 1)
  }

  ghost predicate AllLevelled(dag: Dag, nodes: seq<Node>, level: nat)
    decreases nodes, 0
  {
    nodes == [] || (nodes[0].level == level && Levelled(dag, nodes[0]) && AllLevelled(dag, nodes[1..], level))
  }

  /** Equal hashes mean equal subtrees: where the target has a node with the source node's
      level, key and hash, it holds all of that node's leaves. */
  ghost predicate Faithful(lookup: Lookup, node: Node)
    decreases node, 1
  {
    (forall store: map<Id, Message> :: lookup(store, node.level, node.key) == Some(node.hash) ==>
       Elements(Keys(node)) <= store.Keys)
    && (node.level == 0 && node.key.Some? && node.value.Some? ==>
          forall store: map<Id, Message> ::
            if node.key.value !in store then lookup(store, 0, node.key) == None
            else if store[node.key.value] == node.value.value then lookup(store, 0, node.key) == Some(node.hash)
            else lookup(store, 0, node.key).Some?)
    && AllFaithful(lookup, node.children)
  }

  ghost predicate AllFaithful(lookup: Lookup, nodes: seq<Node>)
    decreases nodes, 0
  {
    nodes == [] || (Faithful(lookup, nodes[0]) && AllFaithful(lookup, nodes[1..]))
  }

  datatype Status = Ok | MissingParent(id: Id)

  // ----- the run of a walk -----

  /** The walk passes a source key: what the target stores then, and whether it is yielded. */
  datatype Pass = Pass(key: Id, store: map<Id, Message>, yielded: bool)

  /** The keys a walk yields, in order. */
  ghost function Yields(walk: seq<Pass>): seq<Id> {
    if walk == [] then []
    else (if walk[0].yielded then [walk[0].key] else []) + Yields(walk[1..])
  }

  /** What is known of a walk over `keys` from the store `before`, when its key number i is
      passed: the earlier keys are stored, and all in all the largest parent-closed part of them
      and what had been received.  The key is yielded exactly if it is not stored; a blind walk yields it
      anyway.  A key not yielded is stored with the same message. */
  ghost predicate Fits(
    dag: Dag, walk: seq<Pass>, keys: seq<Id>, before: map<Id, Message>, received: set<Id>, after: map<Id, Message>,
    blind: bool, i: nat)
    requires i < |walk| <= |keys|
  {
    var p := walk[i];
    p.key == keys[i] && p.key in dag && (p.yielded <==> blind || p.key !in p.store)
    && (p.key in p.store ==> p.store[p.key] == dag[p.key])
    && before.Keys + Elements(keys[..i]) <= p.store.Keys
    && LargestClosed(dag, received + Elements(keys[..i]), p.store.Keys)
    && p.store.Keys <= after.Keys
  }

  /** The consumer keeps what is yielded: it is stored already, or its parents are. */
  ghost predicate Accepted(dag: Dag, p: Pass) {
    p.key in dag && (p.key in p.store || forall q :: q in dag[p.key] ==> q in p.store)
  }

  /** The consumer throws: the message is new and lacks a parent. */
  ghost predicate Stuck(dag: Dag, p: Pass, status: Status) {
    status.MissingParent? && p.yielded && p.key !in p.store
    && p.key in dag && status.id in dag[p.key] && status.id !in p.store
  }

  /** A walk over `keys` took the store from `before` to `after`, over all keys or up to the
      first that was not accepted. */
  ghost predicate Walked(
    dag: Dag, walk: seq<Pass>, keys: seq<Id>, before: map<Id, Message>, received: set<Id>, after: map<Id, Message>,
    blind: bool, status: Status)
  {
    |walk| <= |keys|
    && (forall i: nat {:trigger Fits(dag, walk, keys, before, received, after, blind, i)} ::
          i < |walk| ==> Fits(dag, walk, keys, before, received, after, blind, i))
    && (forall i: nat {:trigger Accepted(dag, walk[i])} ::
          i < |walk| && (status.Ok? || i + 1 < |walk|) ==> Accepted(dag, walk[i]))
    && before.Keys <= after.Keys
    && (if status.Ok? then |walk| == |keys| && Elements(keys) <= after.Keys
        else walk != [] && Stuck(dag, walk[|walk| - 1], status))
  }

  lemma WalkedNothing(dag: Dag, store: map<Id, Message>, received: set<Id>, blind: bool)
    ensures Walked(dag, [], [], store, received, store, blind, Ok)
  {
  }

  /** A walk goes on where another ended. */
  lemma WalkedOn(
    dag: Dag, one: seq<Pass>, two: seq<Pass>, k1: seq<Id>, k2: seq<Id>, before: map<Id, Message>, r1: set<Id>,
    between: map<Id, Message>, r2: set<Id>, after: map<Id, Message>, blind: bool, status: Status)
    requires Walked(dag, one, k1, before, r1, between, blind, Ok)
    requires Walked(dag, two, k2, between, r2, after, blind, status) && r2 == r1 + Elements(k1)
    ensures Walked(dag, one + two, k1 + k2, before, r1, after, blind, status)
  {
    var walk, keys := one + two, k1 + k2;
    forall i: nat | i < |walk| ensures Fits(dag, walk, keys, before, r1, after, blind, i) {
      if i < |one| {
        assert Fits(dag, one, k1, before, r1, between, blind, i);
        assert keys[..i] == k1[..i];
      } else {
        var j := i - |one|;
        assert Fits(dag, two, k2, between, r2, after, blind, j);
        assert keys[..i] == k1 + k2[..j];
        ElementsOfSum(k1, k2[..j]);
        assert r1 + Elements(keys[..i]) == r2 + Elements(k2[..j]);
      }
    }
    forall i: nat | i < |walk| && (status.Ok? || i + 1 < |walk|) ensures Accepted(dag, walk[i]) {
      if i < |one| {
        assert Accepted(dag, one[i]);
      } else {
        assert Accepted(dag, two[i - |one|]);
      }
    }
    ElementsOfSum(k1, k2);
  }

  lemma ElementsOfSum(a: seq<Id>, b: seq<Id>)
    ensures Elements(a + b) == Elements(a) + Elements(b)
  {
  }

  lemma ReceivedBoth(received: set<Id>, a: seq<Id>, b: seq<Id>)
    ensures received + Elements(a + b) == received + Elements(a) + Elements(b)
    ensures received + Elements(a) <= received + Elements(a + b)
  {
    ElementsOfSum(a, b);
  }

  /** A walk that has stopped stays where it is. */
  lemma WalkedShort(
    dag: Dag, one: seq<Pass>, k1: seq<Id>, k2: seq<Id>, before: map<Id, Message>, received: set<Id>,
    after: map<Id, Message>, blind: bool, status: Status)
    requires Walked(dag, one, k1, before, received, after, blind, status) && !status.Ok?
    ensures Walked(dag, one, k1 + k2, before, received, after, blind, status)
  {
    forall i: nat | i < |one| ensures Fits(dag, one, k1 + k2, before, received, after, blind, i) {
      assert Fits(dag, one, k1, before, received, after, blind, i);
      assert (k1 + k2)[..i] == k1[..i];
    }
  }

  // ----- the consumer -----

  /** The log received no more than the walk brought it, and all of it if nothing stopped it;
      nothing stored was applied again. */
  ghost predicate Grown(log: GossipLog, received: set<Id>, once: bool, keys: seq<Id>, status: Status)
    reads log, log.mempool
  {
    log.Valid() && (NoRepeats(log.delivered) <==> once) && log.received <= received + Elements(keys)
    && (status.Ok? ==> log.received == received + Elements(keys))
  }

  /** The consumer's side of a yield. */
  method Receive(log: GossipLog, id: Id, parents: Message) returns (status: Status)
    requires log.Valid() && id in log.dag && log.dag[id] == parents
    modifies log, log.mempool
    ensures Grown(log, old(log.received), NoRepeats(old(log.delivered)), [id], status)
    ensures old(log.messages.Keys) <= log.messages.Keys
    ensures status.Ok? <==> id in old(log.messages) || forall p :: p in parents ==> p in old(log.messages)
    ensures status.Ok? ==> id in log.messages
    ensures status.MissingParent? ==> status.id in parents && status.id !in old(log.messages)
  {
    if id in log.messages {
      StoredAsAuthored(log, id);
      return Ok;
    }
    for i := 0 to |parents|
      invariant forall p :: p in parents[..i] ==> p in log.messages
    {
      if parents[i] !in log.messages {
        return MissingParent(parents[i]);
      }
      assert parents[..i + 1] == parents[..i] + [parents[i]];
    }
    assert parents[..|parents|] == parents;
    log.Admit(id, parents);
    status := Ok;
  }

  lemma StoresLargest(log: GossipLog)
    requires log.Valid()
    ensures LargestClosed(log.dag, log.received, log.messages.Keys)
  {
    StoredIsLargestClosed(log.dag, log.View());
  }

  lemma StoredAsAuthored(log: GossipLog, key: Id)
    requires log.Valid() && key in log.messages
    ensures key in log.dag && log.messages[key] == log.dag[key]
    ensures log.messages.Keys <= log.received
  {
    assert HasParents(log.dag, log.messages.Keys, key);
  }

  lemma OnePass(
    dag: Dag, p: Pass, before: map<Id, Message>, received: set<Id>, after: map<Id, Message>,
    blind: bool, status: Status)
    requires p.store == before && LargestClosed(dag, received, before.Keys) && before.Keys <= after.Keys
    requires p.key in dag && (p.yielded <==> blind || p.key !in before)
    requires p.key in before ==> before[p.key] == dag[p.key]
    requires if status.Ok? then Accepted(dag, p) && p.key in after else Stuck(dag, p, status)
    ensures Walked(dag, [p], [p.key], before, received, after, blind, status)
  {
    var walk, keys := [p], [p.key];
    forall i: nat | i < |walk| ensures Fits(dag, walk, keys, before, received, after, blind, i) {
      assert i == 0 && keys[..0] == [];
      assert received + Elements(keys[..0]) == received;
    }
  }

  /** Yielding one leaf. */
  method YieldLeaf(log: GossipLog, leaf: Node, ghost blind: bool)
    returns (status: Status, ghost walk: seq<Pass>)
    requires log.Valid() && leaf.level == 0 && leaf.key.Some? && Levelled(log.dag, leaf)
    requires blind || leaf.key.value !in log.messages
    modifies log, log.mempool
    ensures Grown(log, old(log.received), NoRepeats(old(log.delivered)), Keys(leaf), status)
    ensures Walked(log.dag, walk, Keys(leaf), old(log.messages), old(log.received), log.messages, blind, status)
  {
    var key := leaf.key.value;
    ghost var before, received := log.messages, log.received;
    if key in log.messages {
      StoredAsAuthored(log, key);
    }
    StoresLargest(log);
    walk := [Pass(key, log.messages, true)];
    status := Receive(log, key, leaf.value.value);
    OnePass(log.dag, walk[0], before, received, log.messages, blind, status);
  }

  // ----- the walk -----

  /** The target's leaf at a source key is absent or has the source's hash. */
  lemma LeafLookup(log: GossipLog, lookup: Lookup, leaf: Node)
    requires log.Valid() && leaf.level == 0 && leaf.key.Some?
    requires Levelled(log.dag, leaf) && Faithful(lookup, leaf)
    ensures lookup(log.messages, 0, leaf.key)
         == if leaf.key.value in log.messages then Some(leaf.hash) else None
  {
    if leaf.key.value in log.messages {
      StoredAsAuthored(log, leaf.key.value);
    }
  }

  /** One leaf of a level-1 node in `syncNode`.  A leaf with another hash would be logged as a
      conflict and passed over; LeafLookup rules that out. */
  method SyncLeaf(log: GossipLog, lookup: Lookup, leaf: Node) returns (status: Status, ghost walk: seq<Pass>)
    requires log.Valid() && leaf.level == 0 && Levelled(log.dag, leaf) && Faithful(lookup, leaf)
    modifies log, log.mempool
    ensures Grown(log, old(log.received), NoRepeats(old(log.delivered)), Keys(leaf), status)
    ensures Walked(log.dag, walk, Keys(leaf), old(log.messages), old(log.received), log.messages, false, status)
  {
    if leaf.key.None? {
      WalkedNothing(log.dag, log.messages, log.received, false);
      return Ok, [];
    }
    LeafLookup(log, lookup, leaf);
    if lookup(log.messages, 0, leaf.key).None? {
      status, walk := YieldLeaf(log, leaf, false);
    } else {
      status, walk := Ok, [Pass(leaf.key.value, log.messages, false)];
      StoredAsAuthored(log, leaf.key.value);
      StoresLargest(log);
      OnePass(log.dag, walk[0], log.messages, log.received, log.messages, false, Ok);
    }
  }

  /** A subtree the target has: its keys are passed without a look, all stored. */
  ghost function PassedOver(keys: seq<Id>, store: map<Id, Message>): (walk: seq<Pass>)
    ensures |walk| == |keys|
  {
    seq(|keys|, i requires 0 <= i < |keys| => Pass(keys[i], store, false))
  }

  lemma PassedOverIsWalked(log: GossipLog, keys: seq<Id>)
    requires log.Valid() && Elements(keys) <= log.messages.Keys
    ensures Walked(log.dag, PassedOver(keys, log.messages), keys, log.messages, log.received, log.messages, false, Ok)
  {
    var walk := PassedOver(keys, log.messages);
    StoresLargest(log);
    forall i: nat | i < |walk| ensures Fits(log.dag, walk, keys, log.messages, log.received, log.messages, false, i)
      ensures Accepted(log.dag, walk[i])
    {
      assert keys[i] in Elements(keys);
      StoredAsAuthored(log, keys[i]);
      assert log.received + Elements(keys[..i]) == log.received;
    }
  }

  method SyncNode(log: GossipLog, lookup: Lookup, node: Node) returns (status: Status, ghost walk: seq<Pass>)
    requires log.Valid() && node.level >= 1 && Levelled(log.dag, node) && Faithful(lookup, node)
    modifies log, log.mempool
    ensures Grown(log, old(log.received), NoRepeats(old(log.delivered)), Keys(node), status)
    ensures Walked(log.dag, walk, Keys(node), old(log.messages), old(log.received), log.messages, false, status)
    decreases node.level, 1
  {
    if lookup(log.messages, node.level, node.key) == Some(node.hash) {
      PassedOverIsWalked(log, Keys(node));
      return Ok, PassedOver(Keys(node), log.messages);
    }
    status, walk := SyncChildren(log, lookup, node.level - 1, node.children);
  }

  /** The loop over a node's children. */
  method SyncChildren(log: GossipLog, lookup: Lookup, level: nat, nodes: seq<Node>)
    returns (status: Status, ghost walk: seq<Pass>)
    requires log.Valid() && AllLevelled(log.dag, nodes, level) && AllFaithful(lookup, nodes)
    modifies log, log.mempool
    ensures Grown(log, old(log.received), NoRepeats(old(log.delivered)), KeysOf(nodes), status)
    ensures Walked(log.dag, walk, KeysOf(nodes), old(log.messages), old(log.received), log.messages, false, status)
    decreases level, 3, |nodes|
  {
    if nodes == [] {
      WalkedNothing(log.dag, log.messages, log.received, false);
      return Ok, [];
    }
    ghost var first, rest := Keys(nodes[0]), KeysOf(nodes[1..]);
    ghost var before, r1, more := log.messages, log.received, [];
    ReceivedBoth(r1, first, rest);
    status, walk := SyncChild(log, lookup, nodes[0]);
    if !status.Ok? {
      WalkedShort(log.dag, walk, first, rest, before, r1, log.messages, false, status);
      return;
    }
    ghost var between, r2 := log.messages, log.received;
    status, more := SyncChildren(log, lookup, level, nodes[1..]);
    WalkedOn(log.dag, walk, more, first, rest, before, r1, between, r2, log.messages, false, status);
    walk := walk + more;
  }

  /** A child in `syncNode`: an inner node is walked, a leaf is looked up. */
  method SyncChild(log: GossipLog, lookup: Lookup, child: Node) returns (status: Status, ghost walk: seq<Pass>)
    requires log.Valid() && Levelled(log.dag, child) && Faithful(lookup, child)
    modifies log, log.mempool
    ensures Grown(log, old(log.received), NoRepeats(old(log.delivered)), Keys(child), status)
    ensures Walked(log.dag, walk, Keys(child), old(log.messages), old(log.received), log.messages, false, status)
    decreases child.level, 2
  {
    if child.level > 0 {
      status, walk := SyncNode(log, lookup, child);
    } else {
      status, walk := SyncLeaf(log, lookup, child);
    }
  }

  /** Above the target's root the walk only descends; with an empty target it yields the
      leaves of level 1 without looking them up. */
  method SyncRoot(log: GossipLog, lookup: Lookup, targetLevel: nat, node: Node)
    returns (status: Status, ghost walk: seq<Pass>)
    requires log.Valid() && node.level >= 1 && Levelled(log.dag, node) && Faithful(lookup, node)
    modifies log, log.mempool
    ensures Grown(log, old(log.received), NoRepeats(old(log.delivered)), Keys(node), status)
    ensures Walked(log.dag, walk, Keys(node), old(log.messages), old(log.received), log.messages,
              targetLevel == 0, status)
    decreases node.level, 1
  {
    if node.level <= targetLevel {
      status, walk := SyncNode(log, lookup, node);
      return;
    }
    status, walk := DescendAll(log, lookup, targetLevel, node.level - 1, node.children);
  }

  method DescendAll(log: GossipLog, lookup: Lookup, targetLevel: nat, level: nat, nodes: seq<Node>)
    returns (status: Status, ghost walk: seq<Pass>)
    requires log.Valid() && (level == 0 ==> targetLevel == 0)
    requires AllLevelled(log.dag, nodes, level) && AllFaithful(lookup, nodes)
    modifies log, log.mempool
    ensures Grown(log, old(log.received), NoRepeats(old(log.delivered)), KeysOf(nodes), status)
    ensures Walked(log.dag, walk, KeysOf(nodes), old(log.messages), old(log.received), log.messages,
              targetLevel == 0, status)
    decreases level, 3, |nodes|
  {
    if nodes == [] {
      WalkedNothing(log.dag, log.messages, log.received, targetLevel == 0);
      return Ok, [];
    }
    ghost var first, rest := Keys(nodes[0]), KeysOf(nodes[1..]);
    ghost var before, r1, more := log.messages, log.received, [];
    ReceivedBoth(r1, first, rest);
    status, walk := DescendTo(log, lookup, targetLevel, nodes[0]);
    if !status.Ok? {
      WalkedShort(log.dag, walk, first, rest, before, r1, log.messages, targetLevel == 0, status);
      return;
    }
    ghost var between, r2 := log.messages, log.received;
    status, more := DescendAll(log, lookup, targetLevel, level, nodes[1..]);
    WalkedOn(log.dag, walk, more, first, rest, before, r1, between, r2, log.messages, targetLevel == 0, status);
    walk := walk + more;
  }

  /** A child in `syncRoot`: a leaf is reached only when the target is empty. */
  method DescendTo(log: GossipLog, lookup: Lookup, targetLevel: nat, child: Node)
    returns (status: Status, ghost walk: seq<Pass>)
    requires log.Valid() && Levelled(log.dag, child) && Faithful(lookup, child)
    requires child.level == 0 ==> targetLevel == 0
    modifies log, log.mempool
    ensures Grown(log, old(log.received), NoRepeats(old(log.delivered)), Keys(child), status)
    ensures Walked(log.dag, walk, Keys(child), old(log.messages), old(log.received), log.messages,
              targetLevel == 0, status)
    decreases child.level, 2
  {
    if child.level > 0 {
      status, walk := SyncRoot(log, lookup, targetLevel, child);
    } else if child.key.Some? {
      status, walk := YieldLeaf(log, child, true);
    } else {
      WalkedNothing(log.dag, log.messages, log.received, true);
      status, walk := Ok, [];
    }
  }

  /** `sync`: pulls what the source has into the log, or stops at a message without its
      parents.  The target's root is at level 0 exactly if the target is empty. */
  method Sync(log: GossipLog, lookup: Lookup, targetLevel: nat, targetRoot: int, source: Node)
    returns (status: Status, ghost walk: seq<Pass>)
    requires log.Valid() && Levelled(log.dag, source) && Faithful(lookup, source)
    requires Ascending(Keys(source)) && (source.level == 0 ==> Keys(source) == [])
    requires targetLevel == 0 <==> log.messages == map[]
    requires targetLevel == source.level && targetRoot == source.hash ==>
               lookup(log.messages, source.level, source.key) == Some(source.hash)
    modifies log, log.mempool
    ensures Grown(log, old(log.received), NoRepeats(old(log.delivered)), Keys(source), status)
    ensures Walked(log.dag, walk, Keys(source), old(log.messages), old(log.received), log.messages,
              old(log.messages) == map[], status)
    ensures Ascending(Yields(walk)) && Subsequence(Yields(walk), Keys(source))
    ensures forall i: nat {:trigger RightlyYielded(log.dag, walk, Keys(source), old(log.messages) == map[], i)} ::
              i < |walk| ==> RightlyYielded(log.dag, walk, Keys(source), old(log.messages) == map[], i)
    ensures status.Ok? <==> Fillable(log.dag, old(log.received), Keys(source))
    ensures SourceOk(log.dag, Keys(source)) ==> status.Ok?
    ensures status.Ok? ==> old(log.messages.Keys) + Elements(Keys(source)) <= log.messages.Keys
  {
    ghost var keys, before, received := Keys(source), log.messages, log.received;
    if source.level == 0 {
      WalkedNothing(log.dag, log.messages, received, targetLevel == 0);
      status, walk := Ok, [];
    } else if targetLevel == source.level && targetRoot == source.hash {
      PassedOverIsWalked(log, keys);
      status, walk := Ok, PassedOver(keys, log.messages);
    } else {
      status, walk := SyncRoot(log, lookup, targetLevel, source);
    }
    WalkDecides(log.dag, walk, keys, before, received, log.messages, targetLevel == 0, status);
    if SourceOk(log.dag, keys) {
      SourceIsFillable(log.dag, received, keys);
    }
  }

  /** What a finished walk comes to. */
  lemma WalkDecides(
    dag: Dag, walk: seq<Pass>, keys: seq<Id>, before: map<Id, Message>, received: set<Id>, after: map<Id, Message>,
    blind: bool, status: Status)
    requires WellClocked(dag) && Walked(dag, walk, keys, before, received, after, blind, status) && Ascending(keys)
    ensures Ascending(Yields(walk)) && Subsequence(Yields(walk), keys)
    ensures forall i: nat {:trigger RightlyYielded(dag, walk, keys, blind, i)} ::
              i < |walk| ==> RightlyYielded(dag, walk, keys, blind, i)
    ensures status.Ok? <==> Fillable(dag, received, keys)
    ensures status.Ok? ==> before.Keys + Elements(keys) <= after.Keys
  {
    forall i: nat | i < |walk| ensures RightlyYielded(dag, walk, keys, blind, i) {
      YieldedExactly(dag, walk, keys, before, received, after, blind, status, i);
    }
    YieldsInOrder(dag, walk, keys, before, received, after, blind, status);
    SubsequenceAscends(Yields(walk), keys);
    OkIffFillable(dag, walk, keys, before, received, after, blind, status);
  }

  // ----- what is yielded -----

  /** `part` is `whole` with some elements left out. */
  ghost predicate Subsequence(part: seq<Id>, whole: seq<Id>) {
    if part == [] then true
    else if whole == [] then false
    else if part[0] == whole[0] then Subsequence(part[1..], whole[1..])
    else Subsequence(part, whole[1..])
  }

  ghost predicate Ascending(keys: seq<Id>) {
    forall i, j :: 0 <= i < j < |keys| ==> IdLess(keys[i], keys[j])
  }

  lemma {:induction false} SubsequenceWider(a: seq<Id>, z: Id, x: seq<Id>)
    requires Subsequence(a, x)
    ensures Subsequence(a, [z] + x)
    decreases |x|, 1
  {
    assert ([z] + x)[1..] == x;
    if a != [] && a[0] == z {
      SubsequenceTail(a, x);
    }
  }

  lemma {:induction false} SubsequenceTail(a: seq<Id>, x: seq<Id>)
    requires a != [] && Subsequence(a, x)
    ensures Subsequence(a[1..], x)
    decreases |x|, 0
  {
    if a[0] == x[0] {
      assert x == [x[0]] + x[1..];
      SubsequenceWider(a[1..], x[0], x[1..]);
    } else {
      SubsequenceTail(a, x[1..]);
      SubsequenceWider(a[1..], x[0], x[1..]);
      assert x == [x[0]] + x[1..];
    }
  }

  lemma {:induction false} YieldsOfPrefix(walk: seq<Pass>, keys: seq<Id>)
    requires |walk| <= |keys| && forall i :: 0 <= i < |walk| ==> walk[i].key == keys[i]
    ensures Subsequence(Yields(walk), keys)
  {
    if walk != [] {
      YieldsOfPrefix(walk[1..], keys[1..]);
      assert keys == [keys[0]] + keys[1..];
      if walk[0].yielded {
        assert Yields(walk)[1..] == Yields(walk[1..]);
      } else {
        assert Yields(walk) == Yields(walk[1..]);
        SubsequenceWider(Yields(walk), keys[0], keys[1..]);
      }
    }
  }

  /** The yielded keys come in the order of the source. */
  lemma YieldsInOrder(
    dag: Dag, walk: seq<Pass>, keys: seq<Id>, before: map<Id, Message>, received: set<Id>, after: map<Id, Message>,
    blind: bool, status: Status)
    requires Walked(dag, walk, keys, before, received, after, blind, status)
    ensures Subsequence(Yields(walk), keys)
  {
    forall i | 0 <= i < |walk| ensures walk[i].key == keys[i] {
      assert Fits(dag, walk, keys, before, received, after, blind, i);
    }
    YieldsOfPrefix(walk, keys);
  }

  lemma {:induction false} YieldedAt(walk: seq<Pass>, k: Id)
    ensures k in Yields(walk) <==> exists i :: 0 <= i < |walk| && walk[i].key == k && walk[i].yielded
  {
    if walk != [] {
      YieldedAt(walk[1..], k);
      assert forall i :: 0 < i < |walk| ==> walk[i] == walk[1..][i - 1];
      assert forall i :: 0 <= i < |walk| - 1 ==> walk[1..][i] == walk[i + 1];
    }
  }

  /** Key number i is among the yielded keys exactly if the target lacked it when the walk
      passed it; otherwise the target had it, with the same message. */
  ghost predicate RightlyYielded(dag: Dag, walk: seq<Pass>, keys: seq<Id>, blind: bool, i: nat)
    requires i < |walk| <= |keys|
  {
    var store := walk[i].store;
    (keys[i] in Yields(walk) <==> blind || keys[i] !in store)
    && (keys[i] !in Yields(walk) ==> keys[i] in dag && keys[i] in store && store[keys[i]] == dag[keys[i]])
  }

  lemma YieldedExactly(
    dag: Dag, walk: seq<Pass>, keys: seq<Id>, before: map<Id, Message>, received: set<Id>, after: map<Id, Message>,
    blind: bool, status: Status, i: nat)
    requires Walked(dag, walk, keys, before, received, after, blind, status) && Ascending(keys) && i < |walk|
    ensures RightlyYielded(dag, walk, keys, blind, i)
  {
    YieldedAt(walk, keys[i]);
    assert Fits(dag, walk, keys, before, received, after, blind, i);
    forall j: nat | j < |walk| && walk[j].key == keys[i] ensures j == i {
      assert Fits(dag, walk, keys, before, received, after, blind, j);
      if j != i {
        IdOrderTotal(keys[i], keys[j]);
      }
    }
  }

  lemma {:induction false} SubsequenceWithin(part: seq<Id>, whole: seq<Id>)
    requires Subsequence(part, whole)
    ensures forall x :: x in part ==> x in whole
  {
    if part != [] {
      assert forall x :: x in part <==> x == part[0] || x in part[1..];
      SubsequenceWithin(if part[0] == whole[0] then part[1..] else part, whole[1..]);
    }
  }

  lemma {:induction false} SubsequenceAscends(part: seq<Id>, whole: seq<Id>)
    requires Subsequence(part, whole) && Ascending(whole)
    ensures Ascending(part)
  {
    if part != [] {
      if part[0] == whole[0] {
        SubsequenceAscends(part[1..], whole[1..]);
        SubsequenceWithin(part[1..], whole[1..]);
        forall i, j | 0 <= i < j < |part| ensures IdLess(part[i], part[j]) {
          if i > 0 {
            assert part[i] == part[1..][i - 1] && part[j] == part[1..][j - 1];
          } else {
            assert part[j] == part[1..][j - 1] && part[j] in whole[1..];
          }
        }
      } else {
        SubsequenceAscends(part, whole[1..]);
      }
    }
  }

  // ----- when it succeeds -----

  /** Every parent of each key has arrived with all its ancestors when the key is passed. */
  ghost predicate Fillable(dag: Dag, received: set<Id>, keys: seq<Id>)
    requires WellClocked(dag)
  {
    forall i: nat {:trigger FillableAt(dag, received, keys, i)} :: i < |keys| ==> FillableAt(dag, received, keys, i)
  }

  ghost predicate FillableAt(dag: Dag, received: set<Id>, keys: seq<Id>, i: nat)
    requires WellClocked(dag) && i < |keys|
  {
    keys[i] in dag && forall p :: p in dag[keys[i]] ==> Grounded(dag, received + Elements(keys[..i]), p)
  }

  /** What is accepted at a pass, told from what had been received and the keys before. */
  lemma AcceptedIffFillable(
    dag: Dag, walk: seq<Pass>, keys: seq<Id>, before: map<Id, Message>, received: set<Id>, after: map<Id, Message>,
    blind: bool, i: nat)
    requires WellClocked(dag) && i < |walk| <= |keys| && Fits(dag, walk, keys, before, received, after, blind, i)
    ensures Accepted(dag, walk[i]) <==> FillableAt(dag, received, keys, i)
  {
    var p, ids := walk[i], received + Elements(keys[..i]);
    if p.key in p.store {
      assert HasParents(dag, p.store.Keys, p.key);
    }
    forall q ensures q in p.store <==> Grounded(dag, ids, q) {
      LargestIsGrounded(dag, ids, p.store.Keys, q);
    }
  }

  lemma OkIffFillable(
    dag: Dag, walk: seq<Pass>, keys: seq<Id>, before: map<Id, Message>, received: set<Id>, after: map<Id, Message>,
    blind: bool, status: Status)
    requires WellClocked(dag) && Walked(dag, walk, keys, before, received, after, blind, status)
    ensures status.Ok? <==> Fillable(dag, received, keys)
  {
    if status.Ok? {
      forall i: nat | i < |keys| ensures FillableAt(dag, received, keys, i) {
        assert Fits(dag, walk, keys, before, received, after, blind, i);
        assert Accepted(dag, walk[i]);
        AcceptedIffFillable(dag, walk, keys, before, received, after, blind, i);
      }
    } else {
      var i := |walk| - 1;
      assert Fits(dag, walk, keys, before, received, after, blind, i);
      AcceptedIffFillable(dag, walk, keys, before, received, after, blind, i);
      assert !FillableAt(dag, received, keys, i);
    }
  }

  /** Keys that can be delivered in their order can be filled in, whatever had been received. */
  lemma DeliveryIsFillable(dag: Dag, received: set<Id>, keys: seq<Id>)
    requires WellClocked(dag) && IsDelivery(dag, keys)
    ensures Fillable(dag, received, keys)
  {
    forall i: nat | i < |keys| ensures FillableAt(dag, received, keys, i) {
      var front := keys[..i];
      assert DeliveredAt(dag, keys, i);
      forall m | m in Elements(front) ensures HasParents(dag, Elements(front), m) {
        var j :| 0 <= j < i && keys[j] == m;
        assert DeliveredAt(dag, keys, j);
        assert forall p :: p in keys[..j] ==> p in front;
      }
      forall p | p in dag[keys[i]] ensures Grounded(dag, received + Elements(front), p) {
        ClosedIsGrounded(dag, received + Elements(front), Elements(front), p);
      }
    }
  }

  /** A message with clock 16384 comes before its parent with clock 16383, so a log that has
      not received the parent cannot be filled from a source that has both. */
  lemma LateParent(dag: Dag, received: set<Id>, keys: seq<Id>, parent: Id, child: Id)
    requires WellClocked(dag) && Ascending(keys) && parent in keys && child in keys
    requires child in dag && parent in dag[child] && parent !in received
    requires ValidId(parent) && ValidId(child) && parent.clock == 16383 && child.clock == 16384
    ensures !Fillable(dag, received, keys)
  {
    var i :| 0 <= i < |keys| && keys[i] == child;
    IdOrderBreaksAt16384(parent, child);
    forall j | 0 <= j < i ensures keys[j] != parent {
      IdOrderTotal(parent, child);
    }
    assert !Grounded(dag, received + Elements(keys[..i]), parent);
    assert !FillableAt(dag, received, keys, i);
  }

  /** So such a walk ends for want of a parent. */
  lemma LateParentStops(
    dag: Dag, walk: seq<Pass>, keys: seq<Id>, before: map<Id, Message>, received: set<Id>, after: map<Id, Message>,
    blind: bool, status: Status, parent: Id, child: Id)
    requires WellClocked(dag) && Walked(dag, walk, keys, before, received, after, blind, status) && Ascending(keys)
    requires parent in keys && child in keys && child in dag && parent in dag[child] && parent !in received
    requires ValidId(parent) && ValidId(child) && parent.clock == 16383 && child.clock == 16384
    ensures status.MissingParent? && Stuck(dag, walk[|walk| - 1], status)
  {
    LateParent(dag, received, keys, parent, child);
    OkIffFillable(dag, walk, keys, before, received, after, blind, status);
  }

  /** The source is parent-closed, with clocks below 2^14. */
  ghost predicate SourceOk(dag: Dag, keys: seq<Id>) {
    Ascending(keys) && (forall k :: k in keys ==> ValidId(k) && 0 < k.clock < 0x4000)
    && WellClocked(dag) && Closed(dag, Elements(keys))
  }

  /** In such a source every message comes after its parents. */
  lemma SourceOrder(dag: Dag, keys: seq<Id>)
    requires SourceOk(dag, keys)
    ensures IsDelivery(dag, keys)
  {
    forall i | 0 <= i < |keys| ensures DeliveredAt(dag, keys, i) {
      assert HasParents(dag, Elements(keys), keys[i]);
      forall p | p in dag[keys[i]] ensures p in keys[..i] {
        assert p in Elements(keys);
        var j :| 0 <= j < |keys| && keys[j] == p;
        ParentBefore(keys, i, j);
      }
    }
  }

  lemma SourceIsFillable(dag: Dag, received: set<Id>, keys: seq<Id>)
    requires SourceOk(dag, keys)
    ensures Fillable(dag, received, keys)
  {
    SourceOrder(dag, keys);
    DeliveryIsFillable(dag, received, keys);
  }

  lemma ParentBefore(keys: seq<Id>, i: nat, j: nat)
    requires forall a, b :: 0 <= a < b < |keys| ==> IdLess(keys[a], keys[b])
    requires i < |keys| && j < |keys| && keys[j].clock < keys[i].clock
    requires forall k :: k in keys ==> ValidId(k) && 0 < k.clock < 0x4000
    ensures j < i
  {
    IdOrderFollowsClock(keys[j], keys[i]);
    IdOrderTotal(keys[i], keys[j]);
    assert j != i;
  }
}
