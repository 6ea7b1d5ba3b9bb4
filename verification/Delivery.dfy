/** Delivery sequences, the heads they leave, and what a peer holds after receiving a set
    of messages in any order. */
module Delivery {
  import opened MessageKeys
  import opened CausalHistory
  import opened AncestorIndex
  import opened AncestorSearch
  import opened IndexAgreement
  import opened Mempool

  /** Messages in the order they are applied: parents come first; repeats are allowed. */
  ghost predicate IsDelivery(dag: Dag, order: seq<Id>) {
    forall i {:trigger DeliveredAt(dag, order, i)} :: 0 <= i < |order| ==> DeliveredAt(dag, order, i)
  }

  ghost predicate DeliveredAt(dag: Dag, order: seq<Id>, i: nat)
    requires i < |order|
  {
    order[i] in dag && forall p :: p in dag[order[i]] ==> p in order[..i]
  }

  lemma DeliverNext(dag: Dag, order: seq<Id>, m: Id)
    requires IsDelivery(dag, order) && m in dag && forall p :: p in dag[m] ==> p in order
    ensures IsDelivery(dag, order + [m])
    ensures Elements(order + [m]) == Elements(order) + {m}
  {
    var longer := order + [m];
    forall i | 0 <= i < |longer| ensures DeliveredAt(dag, longer, i) {
      if i < |order| {
        assert DeliveredAt(dag, order, i);
        assert longer[i] == order[i] && longer[..i] == order[..i];
      } else {
        assert longer[..i] == order;
      }
    }
  }

  lemma OneMore(order: seq<Id>, i: nat)
    requires i <= |order|
    ensures i == |order| ==> order[..i] == order
    ensures i < |order| ==> order[..i] + [order[i]] == order[..i + 1]
  {
  }

  // ----- heads -----

  /** The heads left by a sequence of deliveries: each delivery adds the message and removes
      its parents. */
  ghost function HeadsAfter(dag: Dag, order: seq<Id>): set<Id> {
    if order == [] then {}
    else
      var m := order[|order| - 1];
      HeadsAfter(dag, order[..|order| - 1]) + {m} - ParentsOf(dag, m)
  }

  ghost function ParentsOf(dag: Dag, m: Id): set<Id> {
    if m in dag then Elements(dag[m]) else {}
  }

  lemma HeadsAfterNext(dag: Dag, order: seq<Id>, m: Id)
    ensures HeadsAfter(dag, order + [m]) == HeadsAfter(dag, order) + {m} - ParentsOf(dag, m)
  {
  }

  lemma DeliveredInDag(dag: Dag, order: seq<Id>)
    requires IsDelivery(dag, order)
    ensures InDag(dag, Elements(order))
  {
    forall m | m in order ensures m in dag {
      var i :| 0 <= i < |order| && order[i] == m;
      assert DeliveredAt(dag, order, i);
    }
  }

  ghost predicate InDag(dag: Dag, ms: set<Id>) {
    forall m :: m in ms ==> m in dag
  }

  ghost predicate HasChild(dag: Dag, stored: set<Id>, m: Id)
    requires InDag(dag, stored)
  {
    exists c :: c in stored && m in dag[c]
  }

  /** The stored messages that no stored message has as a parent. */
  ghost function Childless(dag: Dag, stored: set<Id>): set<Id>
    requires InDag(dag, stored)
  {
    set m | m in stored && !HasChild(dag, stored, m)
  }

  lemma ChildlessNext(dag: Dag, stored: set<Id>, m: Id)
    requires InDag(dag, stored) && m in dag && m !in dag[m]
    ensures Childless(dag, stored + {m})
         == Childless(dag, stored) + (if HasChild(dag, stored, m) then {} else {m}) - Elements(dag[m])
  {
  }

  lemma Prefix(dag: Dag, order: seq<Id>)
    requires IsDelivery(dag, order) && order != []
    ensures IsDelivery(dag, order[..|order| - 1])
    ensures order[|order| - 1] in dag && Elements(dag[order[|order| - 1]]) <= Elements(order[..|order| - 1])
    ensures order == order[..|order| - 1] + [order[|order| - 1]]
  {
    var front := order[..|order| - 1];
    forall i | 0 <= i < |front| ensures DeliveredAt(dag, front, i) {
      assert DeliveredAt(dag, order, i);
      assert front[i] == order[i] && front[..i] == order[..i];
    }
    assert DeliveredAt(dag, order, |order| - 1);
  }

  lemma {:induction false} HeadsAreStored(dag: Dag, order: seq<Id>)
    requires IsDelivery(dag, order)
    ensures HeadsAfter(dag, order) <= Elements(order)
  {
    if order != [] {
      Prefix(dag, order);
      HeadsAreStored(dag, order[..|order| - 1]);
    }
  }

  /** Every delivered message is an ancestor of some head, or a head itself. */
  lemma {:induction false} HeadsCover(dag: Dag, order: seq<Id>, m: Id) returns (h: Id)
    requires WellClocked(dag) && IsDelivery(dag, order) && m in order
    ensures h in HeadsAfter(dag, order) && Reaches(dag, h, m)
  {
    Prefix(dag, order);
    var front, last := order[..|order| - 1], order[|order| - 1];
    HeadsAfterNext(dag, front, last);
    if m == last {
      h := last;
    } else {
      h := HeadsCover(dag, front, m);
      if h in dag[last] {
        h := last;
      }
    }
  }

  ghost predicate NoRepeats(order: seq<Id>) {
    forall i, j :: 0 <= i < j < |order| ==> order[i] != order[j]
  }

  lemma HeadsOrChildless(c: set<Id>, e: set<Id>, m: Id, hasChild: bool)
    requires m !in e && (m in c ==> !hasChild)
    ensures c + {m} - e == c + (if hasChild then {} else {m}) - e <==> !hasChild
  {
    if hasChild {
      assert m in c + {m} - e;
    }
  }

  /** A first delivery keeps the heads equal to the childless messages; delivering a stored
      message again keeps them equal exactly if that message is childless. */
  lemma HeadsStep(dag: Dag, order: seq<Id>, m: Id)
    requires WellClocked(dag) && IsDelivery(dag, order) && InDag(dag, Elements(order))
    requires m in dag && forall p :: p in dag[m] ==> p in order
    requires HeadsAfter(dag, order) == Childless(dag, Elements(order))
    ensures Elements(order + [m]) == Elements(order) + {m}
    ensures HeadsAfter(dag, order + [m]) == Childless(dag, Elements(order) + {m})
            <==> (m in order ==> m in Childless(dag, Elements(order)))
  {
    var before := Elements(order);
    DeliverNext(dag, order, m);
    HeadsAfterNext(dag, order, m);
    ChildlessNext(dag, before, m);
    if m !in order {
      NewHasNoChild(dag, order, m);
    }
    HeadsOrChildless(Childless(dag, before), Elements(dag[m]), m, HasChild(dag, before, m));
  }

  lemma NewHasNoChild(dag: Dag, order: seq<Id>, m: Id)
    requires IsDelivery(dag, order) && InDag(dag, Elements(order)) && m !in order
    ensures !HasChild(dag, Elements(order), m)
  {
    forall c | c in Elements(order) ensures m !in dag[c] {
      var i :| 0 <= i < |order| && order[i] == c;
      assert DeliveredAt(dag, order, i);
    }
  }

  /** Without repeated deliveries the heads are exactly the childless messages. */
  lemma {:induction false} HeadsAreChildless(dag: Dag, order: seq<Id>)
    requires WellClocked(dag) && IsDelivery(dag, order) && NoRepeats(order)
    ensures InDag(dag, Elements(order))
    ensures HeadsAfter(dag, order) == Childless(dag, Elements(order))
  {
    DeliveredInDag(dag, order);
    if order != [] {
      var front, last := order[..|order| - 1], order[|order| - 1];
      Prefix(dag, order);
      HeadsAreChildless(dag, front);
      HeadsStep(dag, front, last);
      assert last !in front;
    }
  }

  /** No message delivered after number i has it as a parent. */
  ghost predicate LastAt(dag: Dag, order: seq<Id>, m: Id, i: nat) {
    i < |order| && order[i] == m && forall j :: i < j < |order| ==> m !in ParentsOf(dag, order[j])
  }

  /** A message is a head exactly if some delivery of it comes after all its children's. */
  lemma {:induction false} HeadExactly(dag: Dag, order: seq<Id>, m: Id)
    requires WellClocked(dag)
    ensures m in HeadsAfter(dag, order) <==> exists i: nat :: LastAt(dag, order, m, i)
  {
    if order != [] {
      var n := |order| - 1;
      var front, last := order[..n], order[n];
      HeadExactly(dag, front, m);
      if m in HeadsAfter(dag, order) {
        if m == last {
          assert LastAt(dag, order, m, n);
        } else {
          var i: nat :| LastAt(dag, front, m, i);
          assert LastAt(dag, order, m, i);
        }
      }
      forall i: nat | LastAt(dag, order, m, i) ensures m in HeadsAfter(dag, order) {
        if i < n {
          assert LastAt(dag, front, m, i);
        }
      }
    }
  }

  /** The message delivered as number i has no child, or one delivered later. */
  ghost predicate ChildFollows(dag: Dag, order: seq<Id>, i: nat)
    requires i < |order| && InDag(dag, Elements(order))
  {
    HasChild(dag, Elements(order), order[i]) ==> !LastAt(dag, order, order[i], i)
  }

  /** For sequences with any repeats: the heads are the childless messages exactly if every
      delivery of a message with children is followed by the delivery of a child. */
  lemma HeadsAreChildlessIff(dag: Dag, order: seq<Id>)
    requires WellClocked(dag) && InDag(dag, Elements(order))
    ensures HeadsAfter(dag, order) == Childless(dag, Elements(order))
            <==> forall i: nat :: i < |order| ==> ChildFollows(dag, order, i)
  {
    if HeadsAfter(dag, order) == Childless(dag, Elements(order)) {
      forall i: nat | i < |order| ensures ChildFollows(dag, order, i) {
        HeadExactly(dag, order, order[i]);
      }
    }
    if forall i: nat :: i < |order| ==> ChildFollows(dag, order, i) {
      forall m ensures m in HeadsAfter(dag, order) <==> m in Childless(dag, Elements(order)) {
        HeadExactly(dag, order, m);
        if m in Childless(dag, Elements(order)) {
          ChildlessIsLast(dag, order, m);
        }
        forall i: nat | LastAt(dag, order, m, i) ensures m in Childless(dag, Elements(order)) {
          assert m in Elements(order) && ChildFollows(dag, order, i);
        }
      }
    }
  }

  lemma ChildlessIsLast(dag: Dag, order: seq<Id>, m: Id)
    requires InDag(dag, Elements(order)) && m in Childless(dag, Elements(order))
    ensures exists i: nat :: LastAt(dag, order, m, i)
  {
    var i: nat :| i < |order| && order[i] == m;
    forall j | i < j < |order| ensures m !in ParentsOf(dag, order[j]) {
      assert order[j] in Elements(order);
    }
    assert LastAt(dag, order, m, i);
  }

  /** A root, its child, and the root again: both end up as heads, and the root has a child. */
  lemma RepeatedRootIsHead(dag: Dag, root: Id, child: Id)
    requires WellClocked(dag) && root in dag && dag[root] == [] && child in dag && dag[child] == [root]
    ensures IsDelivery(dag, [root, child, root]) && InDag(dag, Elements([root, child, root]))
    ensures HeadsAfter(dag, [root, child, root]) == {root, child}
    ensures Childless(dag, Elements([root, child, root])) == {child}
  {
    assert [] + [root] == [root] && [root] + [child] == [root, child] && [root, child] + [root] == [root, child, root];
    DeliverNext(dag, [], root);
    DeliverNext(dag, [root], child);
    DeliverNext(dag, [root, child], root);
    HeadsAfterNext(dag, [], root);
    HeadsAfterNext(dag, [root], child);
    HeadsAfterNext(dag, [root, child], root);
  }

  // ----- what a peer holds -----

  /** The largest set of messages within `received` that has all its members' parents. */
  ghost predicate LargestClosed(dag: Dag, received: set<Id>, s: set<Id>) {
    s <= received && Closed(dag, s) && forall t :: t <= received && Closed(dag, t) ==> t <= s
  }

  /** The state of a log between operations. */
  datatype Peer = Peer(
    received: set<Id>,
    messages: map<Id, seq<Id>>,
    heads: set<Id>,
    ancestors: Index,
    delivered: seq<Id>,
    pool: Pool)

  ghost predicate StoreInvariant(dag: Dag, messages: map<Id, seq<Id>>) {
    Closed(dag, messages.Keys)
    && forall m {:trigger HasParents(dag, messages.Keys, m)} :: m in messages ==> m in dag && messages[m] == dag[m]
  }

  ghost predicate HeadsInvariant(dag: Dag, stored: set<Id>, heads: set<Id>, delivered: seq<Id>) {
    IsDelivery(dag, delivered) && Elements(delivered) == stored && heads == HeadsAfter(dag, delivered)
  }

  ghost predicate IndexInvariant(dag: Dag, stored: set<Id>, ancestors: Index)
    requires WellClocked(dag)
  {
    ancestors.Keys == stored && Built(dag, ancestors) && RowsSound(dag, ancestors)
  }

  ghost predicate LogInvariant(
    dag: Dag, messages: map<Id, seq<Id>>, heads: set<Id>, ancestors: Index, delivered: seq<Id>)
    requires WellClocked(dag)
  {
    StoreInvariant(dag, messages)
    && HeadsInvariant(dag, messages.Keys, heads, delivered)
    && IndexInvariant(dag, messages.Keys, ancestors)
  }

  ghost predicate PeerInvariant(dag: Dag, peer: Peer)
    requires WellClocked(dag)
  {
    LogInvariant(dag, peer.messages, peer.heads, peer.ancestors, peer.delivered)
    && PoolInvariant(dag, peer.messages.Keys, peer.pool, map[])
    && peer.received == peer.messages.Keys + peer.pool.missing.Keys
  }

  /** What a peer stores is exactly the largest parent-closed part of what it received;
      every other message is parked with the parents the log lacks, of which it lacks some. */
  lemma StoredIsLargestClosed(dag: Dag, peer: Peer)
    requires WellClocked(dag) && PeerInvariant(dag, peer)
    ensures LargestClosed(dag, peer.received, peer.messages.Keys)
    ensures peer.pool.missing.Keys == peer.received - peer.messages.Keys
    ensures forall c :: c in peer.pool.missing ==>
              c in dag && peer.pool.missing[c] == Wanted(dag, peer.messages.Keys, c) != {}
  {
    var stored := peer.messages.Keys;
    forall c | c in peer.pool.missing
      ensures c in dag && c !in stored && peer.pool.missing[c] == Wanted(dag, stored, c) != {}
    {
      assert Parked(dag, stored, peer.pool, map[], c);
      assert OpenFor(map[], c) == {};
    }
    forall t, m | t <= peer.received && Closed(dag, t) && m in t ensures m in stored {
      ClosedIsStored(dag, peer, t, m);
    }
  }

  lemma {:induction false} ClosedIsStored(dag: Dag, peer: Peer, t: set<Id>, m: Id)
    requires WellClocked(dag) && PeerInvariant(dag, peer)
    requires t <= peer.received && Closed(dag, t) && m in t
    ensures m in peer.messages
    decreases m.clock
  {
    var stored := peer.messages.Keys;
    if m !in stored {
      assert Parked(dag, stored, peer.pool, map[], m);
      assert OpenFor(map[], m) == {};
      var p :| p in Wanted(dag, stored, m);
      assert HasParents(dag, t, m);
      ClosedIsStored(dag, peer, t, p);
      assert false;
    }
  }

  /** The message and all its ancestors are in the set. */
  ghost predicate Grounded(dag: Dag, ids: set<Id>, m: Id)
    requires WellClocked(dag)
    decreases m.clock
  {
    m in ids && m in dag && forall p :: p in dag[m] ==> Grounded(dag, ids, p)
  }

  lemma {:induction false} ClosedIsGrounded(dag: Dag, ids: set<Id>, part: set<Id>, m: Id)
    requires WellClocked(dag) && part <= ids && Closed(dag, part) && m in part
    ensures Grounded(dag, ids, m)
    decreases m.clock
  {
    assert HasParents(dag, part, m);
    forall p | p in dag[m] ensures Grounded(dag, ids, p) {
      ClosedIsGrounded(dag, ids, part, p);
    }
  }

  lemma GroundedParent(dag: Dag, ids: set<Id>, m: Id, p: Id)
    requires WellClocked(dag) && Grounded(dag, ids, m) && p in dag[m]
    ensures Grounded(dag, ids, p) && p in ids
  {
  }

  /** The largest parent-closed part of a set are the messages whose ancestors are all in it. */
  lemma LargestIsGrounded(dag: Dag, ids: set<Id>, part: set<Id>, m: Id)
    requires WellClocked(dag) && LargestClosed(dag, ids, part)
    ensures m in part <==> Grounded(dag, ids, m)
  {
    if m in part {
      ClosedIsGrounded(dag, ids, part, m);
    }
    var all := set x | x in ids && Grounded(dag, ids, x);
    forall x | x in all ensures HasParents(dag, all, x) {
      forall p | p in dag[x] ensures p in all {
        GroundedParent(dag, ids, x, p);
      }
    }
    assert Closed(dag, all) && all <= ids;
  }

  /** A peer stores a message exactly if it has received it and all its ancestors. */
  lemma StoredIffArrived(dag: Dag, peer: Peer, m: Id)
    requires WellClocked(dag) && PeerInvariant(dag, peer)
    ensures m in peer.messages <==> Grounded(dag, peer.received, m)
  {
    StoredIsLargestClosed(dag, peer);
    LargestIsGrounded(dag, peer.received, peer.messages.Keys, m);
  }

  /** Order-independence: peers that have received the same messages, in whatever orders and
      however often, store the same messages with the same ancestor index, and keep the same
      messages waiting for the same parents. */
  lemma SameReceivedSamePeer(dag: Dag, a: Peer, b: Peer)
    requires WellClocked(dag) && PeerInvariant(dag, a) && PeerInvariant(dag, b) && a.received == b.received
    ensures a.messages == b.messages && a.ancestors == b.ancestors && a.pool == b.pool
    ensures NoRepeats(a.delivered) && NoRepeats(b.delivered) ==> a.heads == b.heads
  {
    SameMessages(dag, a, b);
    assert a.ancestors == b.ancestors by {
      SameIndex(dag, a.messages.Keys, a.ancestors, b.ancestors);
    }
    assert a.pool == b.pool by { SamePool(dag, a, b); }
    if NoRepeats(a.delivered) && NoRepeats(b.delivered) {
      HeadsAreChildless(dag, a.delivered);
      HeadsAreChildless(dag, b.delivered);
    }
  }

  lemma SameMessages(dag: Dag, a: Peer, b: Peer)
    requires WellClocked(dag) && PeerInvariant(dag, a) && PeerInvariant(dag, b) && a.received == b.received
    ensures a.messages == b.messages
  {
    StoredIsLargestClosed(dag, a);
    StoredIsLargestClosed(dag, b);
    forall m | m in a.messages ensures m in b.messages && a.messages[m] == b.messages[m] {
      assert HasParents(dag, a.messages.Keys, m) && HasParents(dag, b.messages.Keys, m);
    }
    assert a.messages.Keys == b.messages.Keys;
  }

  lemma SameIndex(dag: Dag, stored: set<Id>, one: Index, two: Index)
    requires WellClocked(dag) && IndexInvariant(dag, stored, one) && IndexInvariant(dag, stored, two)
    ensures one == two
  {
    forall k | k in one ensures one[k] == two[k] {
      BuiltIndexesAgree(dag, one, two, k.clock + 1);
    }
  }

  lemma SamePool(dag: Dag, a: Peer, b: Peer)
    requires WellClocked(dag) && PeerInvariant(dag, a) && PeerInvariant(dag, b)
    requires a.received == b.received && a.messages.Keys == b.messages.Keys
    ensures a.pool == b.pool
  {
    StoredIsLargestClosed(dag, a);
    StoredIsLargestClosed(dag, b);
    SameParked(dag, a.messages.Keys, a.pool, b.pool);
    SameWaiting(a.pool, b.pool);
  }

  lemma SameParked(dag: Dag, stored: set<Id>, a: Pool, b: Pool)
    requires PoolInvariant(dag, stored, a, map[]) && PoolInvariant(dag, stored, b, map[])
    requires a.missing.Keys == b.missing.Keys
    ensures a.missing == b.missing && a.values == b.values
  {
    forall c | c in a.missing ensures a.missing[c] == b.missing[c] && a.values[c] == b.values[c] {
      assert Parked(dag, stored, a, map[], c) && Parked(dag, stored, b, map[], c);
    }
  }

  lemma WaitingMeaning(pool: Pool, p: Id)
    requires Mirrored(pool, map[])
    ensures forall c :: c in Waiting(pool, p) <==> Misses(pool, c, p)
    ensures p in pool.waiting <==> Waiting(pool, p) != {}
  {
  }

  lemma SameWaiting(a: Pool, b: Pool)
    requires Mirrored(a, map[]) && Mirrored(b, map[]) && a.missing == b.missing
    ensures a.waiting == b.waiting
  {
    forall p ensures Waiting(a, p) == Waiting(b, p) {
      WaitingMeaning(a, p);
      WaitingMeaning(b, p);
      assert forall c :: Misses(a, c, p) <==> Misses(b, c, p);
    }
    forall p ensures p in a.waiting <==> p in b.waiting {
      WaitingMeaning(a, p);
      WaitingMeaning(b, p);
    }
    forall p | p in a.waiting ensures a.waiting[p] == b.waiting[p] {
      assert Waiting(a, p) == Waiting(b, p);
    }
  }

  /** Storing one message whose parents are stored. */
  lemma StoreMessage(dag: Dag, messages: map<Id, seq<Id>>, heads: set<Id>, ancestors: Index, delivered: seq<Id>, id: Id)
    requires WellClocked(dag) && LogInvariant(dag, messages, heads, ancestors, delivered)
    requires id in dag && forall p :: p in dag[id] ==> p in messages
    ensures Ready(ancestors, id, dag[id])
    ensures LogInvariant(dag, messages[id := dag[id]], heads + {id} - Elements(dag[id]),
                         ancestors[id := Entry(ancestors, id, dag[id])], delivered + [id])
  {
    var stored := messages.Keys;
    assert Ready(ancestors, id, dag[id]);
    assert StoreInvariant(dag, messages[id := dag[id]]) by { StoreKeeps(dag, messages, id); }
    assert messages[id := dag[id]].Keys == stored + {id};
    assert HeadsInvariant(dag, stored + {id}, heads + {id} - Elements(dag[id]), delivered + [id]) by {
      StoreHeads(dag, stored, heads, delivered, id);
    }
    assert IndexInvariant(dag, stored + {id}, ancestors[id := Entry(ancestors, id, dag[id])]) by {
      StoreIndex(dag, stored, ancestors, id);
    }
  }

  lemma StoreKeeps(dag: Dag, messages: map<Id, seq<Id>>, id: Id)
    requires StoreInvariant(dag, messages) && id in dag && forall p :: p in dag[id] ==> p in messages
    ensures StoreInvariant(dag, messages[id := dag[id]])
  {
    var more := messages[id := dag[id]];
    forall m | m in more ensures HasParents(dag, more.Keys, m) && more[m] == dag[m] {
      if m != id {
        assert HasParents(dag, messages.Keys, m);
      }
    }
  }

  lemma StoreHeads(dag: Dag, stored: set<Id>, heads: set<Id>, delivered: seq<Id>, id: Id)
    requires HeadsInvariant(dag, stored, heads, delivered)
    requires id in dag && forall p :: p in dag[id] ==> p in stored
    ensures HeadsInvariant(dag, stored + {id}, heads + {id} - Elements(dag[id]), delivered + [id])
  {
    DeliverNext(dag, delivered, id);
    HeadsAfterNext(dag, delivered, id);
  }

  lemma StoreIndex(dag: Dag, stored: set<Id>, idx: Index, id: Id)
    requires WellClocked(dag) && IndexInvariant(dag, stored, idx)
    requires id in dag && Ready(idx, id, dag[id])
    ensures IndexInvariant(dag, stored + {id}, idx[id := Entry(idx, id, dag[id])])
  {
    if id in idx {
      assert BuiltAt(dag, idx, id);
      assert idx[id := Entry(idx, id, dag[id])] == idx;
      assert stored + {id} == stored;
    } else {
      ExtendSound(dag, idx, id);
      BuiltExtends(dag, idx, id);
    }
  }

  lemma {:induction false} Latest(s: set<Id>) returns (m: Id)
    requires s != {}
    ensures m in s && forall x :: x in s ==> x.clock <= m.clock
  {
    m :| m in s;
    if s != {m} {
      var other := Latest(s - {m});
      if other.clock > m.clock {
        m := other;
      }
    }
  }

  /** Some index stores any parent-closed set of messages. */
  lemma {:induction false} IndexExists(dag: Dag, stored: set<Id>) returns (idx: Index)
    requires WellClocked(dag) && Closed(dag, stored)
    ensures IndexInvariant(dag, stored, idx)
    decreases |stored|
  {
    if stored == {} {
      idx := map[];
    } else {
      var m := Latest(stored);
      var rest := stored - {m};
      forall x | x in rest ensures HasParents(dag, rest, x) {
        assert HasParents(dag, stored, x);
      }
      idx := IndexExists(dag, rest);
      assert HasParents(dag, stored, m);
      StoreIndex(dag, rest, idx, m);
      idx := idx[m := Entry(idx, m, dag[m])];
      assert rest + {m} == stored;
    }
  }

  /** Any parent-closed set of messages can be delivered. */
  lemma {:induction false} DeliveryExists(dag: Dag, stored: set<Id>) returns (order: seq<Id>)
    requires WellClocked(dag) && Closed(dag, stored)
    ensures IsDelivery(dag, order) && Elements(order) == stored
    decreases |stored|
  {
    if stored == {} {
      order := [];
    } else {
      var m := Latest(stored);
      var rest := stored - {m};
      forall x | x in rest ensures HasParents(dag, rest, x) {
        assert HasParents(dag, stored, x);
      }
      order := DeliveryExists(dag, rest);
      assert HasParents(dag, stored, m);
      assert forall p :: p in dag[m] ==> p in rest;
      assert forall p :: p in rest ==> p in Elements(order);
      DeliverNext(dag, order, m);
      order := order + [m];
      assert rest + {m} == stored;
    }
  }

  lemma BuiltExtends(dag: Dag, idx: Index, id: Id)
    requires WellClocked(dag) && Built(dag, idx) && id !in idx && id in dag && Ready(idx, id, dag[id])
    requires Shaped(idx[id := Entry(idx, id, dag[id])])
    ensures Built(dag, idx[id := Entry(idx, id, dag[id])])
  {
    var big := idx[id := Entry(idx, id, dag[id])];
    forall m | m in big ensures BuiltAt(dag, big, m) {
      if m != id {
        assert BuiltAt(dag, idx, m);
      }
      assert Ready(idx, m, dag[m]) && Ready(big, m, dag[m]);
      assert Agree(idx, big, m.clock);
      EntryAgrees(idx, big, m, dag[m]);
    }
  }
}
