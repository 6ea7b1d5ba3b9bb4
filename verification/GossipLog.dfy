/** The log (AbstractGossipLog.ts): inserting, appending and draining the mempool. */
module GossipLog {
  import opened MessageKeys
  import opened CausalHistory
  import opened AncestorIndex
  import opened Options
  import opened Mempool
  import opened Delivery

  function Clocks(ids: seq<Id>): (r: seq<int>)
    ensures |r| == |ids| && forall i :: 0 <= i < |ids| ==> r[i] == ids[i].clock
  {
    seq(|ids|, i requires 0 <= i < |ids| => ids[i].clock)
  }

  /** A drain delivered exactly the messages that left the mempool, each once. */
  ghost predicate Drained(before: set<Id>, after: set<Id>, order: seq<Id>) {
    after <= before && multiset(order) == multiset(before - after)
  }

  lemma DrainedAppend(before: set<Id>, middle: set<Id>, after: set<Id>, first: seq<Id>, second: seq<Id>)
    requires Drained(before, middle, first) && Drained(middle, after, second)
    ensures Drained(before, after, first + second)
  {
  }

  lemma DrainedCons(before: set<Id>, child: Id, after: set<Id>, order: seq<Id>)
    requires child in before && Drained(before - {child}, after, order)
    ensures Drained(before, after, [child] + order)
  {
  }

  lemma Associate(a: seq<Id>, b: seq<Id>, c: seq<Id>)
    ensures a + b + c == a + (b + c)
  {
  }

  /** What became of a message handed to `insert`. */
  datatype Outcome = Rejected | Held | Applied

  class GossipLog {
    /** All messages ever authored.  The log sees only what is inserted. */
    ghost const dag: Dag
    const mempool: Mempool

    var messages: map<Id, seq<Id>>
    var heads: set<Id>
    var ancestors: Index
    /** The calls of `apply`, in order. */
    var delivered: seq<Id>
    ghost var received: set<Id>

    ghost function View(): Peer
      reads this, mempool
    {
      Peer(received, messages, heads, ancestors, delivered, mempool.Contents())
    }

    /** The state in the middle of a drain, with some messages in hand. */
    ghost predicate Draining(open: Open, inHand: set<Id>)
      reads this, mempool
    {
      WellClocked(dag)
      && LogInvariant(dag, messages, heads, ancestors, delivered)
      && PoolInvariant(dag, messages.Keys, mempool.Contents(), open)
      && received == messages.Keys + mempool.missingParents.Keys + inHand
    }

    ghost predicate Valid()
      reads this, mempool
      ensures Valid() ==> WellClocked(dag) && PeerInvariant(dag, View())
    {
      Draining(map[], {})
    }

    constructor (ghost dag: Dag)
      requires WellClocked(dag)
      ensures Valid() && this.dag == dag && fresh(mempool)
      ensures received == {} && messages == map[] && delivered == []
    {
      this.dag := dag;
      mempool := new Mempool();
      messages, heads, ancestors, delivered, received := map[], {}, map[], [], {};
    }

    /** The part of `#insert` before the drain. */
    method Store(id: Id, parents: seq<Id>)
      requires WellClocked(dag) && LogInvariant(dag, messages, heads, ancestors, delivered)
      requires id in dag && dag[id] == parents && forall p :: p in parents ==> p in messages
      modifies this`messages, this`heads, this`ancestors, this`delivered
      ensures LogInvariant(dag, messages, heads, ancestors, delivered)
      ensures messages == old(messages)[id := parents] && delivered == old(delivered) + [id]
      ensures heads == old(heads) + {id} - Elements(parents)
    {
      StoreMessage(dag, messages, heads, ancestors, delivered, id);
      var links := BuildEntry(ancestors, id, parents);
      delivered := delivered + [id];
      messages := messages[id := parents];
      heads := heads + {id};
      heads := heads - set p | p in parents;
      ancestors := ancestors[id := links];
    }

    /** `#insert`: stores a message whose parents are stored, then drains the mempool.
        `order` lists the messages the drain delivers. */
    method InsertMessage(id: Id, parents: seq<Id>, ghost open: Open) returns (ghost order: seq<Id>)
      requires Draining(open, {id}) && id !in mempool.missingParents && id !in open
      requires id in dag && dag[id] == parents && forall p :: p in parents ==> p in messages
      modifies this`messages, this`heads, this`ancestors, this`delivered, mempool
      ensures Draining(open, {}) && received == old(received)
      ensures delivered == old(delivered) + [id] + order
      ensures Drained(old(mempool.missingParents.Keys), mempool.missingParents.Keys, order)
      decreases mempool.missingParents.Keys, 2
    {
      ghost var pool, stored := mempool.Contents(), messages.Keys;
      Store(id, parents);
      var children := mempool.Observe(id);
      StartDrain(dag, stored, pool, open, id);
      assert messages.Keys == stored + {id};
      order := Drain(id, children, open);
      EndDrain(dag, messages.Keys, mempool.Contents(), open, id);
    }

    /** The loop over the generator `observe(id)`.  While a nested call drains, this
        generator is suspended with the children in `rest` still to visit. */
    method Drain(id: Id, children: set<Id>, ghost open: Open) returns (ghost order: seq<Id>)
      requires Draining(open[id := children], {}) && id !in open
      modifies this`messages, this`heads, this`ancestors, this`delivered, mempool
      ensures Draining(open[id := {}], {}) && received == old(received)
      ensures delivered == old(delivered) + order
      ensures Drained(old(mempool.missingParents.Keys), mempool.missingParents.Keys, order)
      decreases mempool.missingParents.Keys, 1
    {
      order := [];
      var rest := children;
      ghost var parked, before := mempool.missingParents.Keys, delivered;
      while rest != {}
        invariant Draining(open[id := rest], {}) && received == old(received)
        invariant delivered == before + order
        invariant Drained(parked, mempool.missingParents.Keys, order)
        decreases rest
      {
        var child :| child in rest;
        ghost var middle := mempool.missingParents.Keys;
        ghost var more := Visit(id, child, rest, open);
        rest := rest - {child};
        DrainedAppend(parked, middle, mempool.missingParents.Keys, order, more);
        Associate(before, order, more);
        order := order + more;
      }
    }

    /** One turn of the loop: the generator's next child, stored if it was yielded. */
    method Visit(id: Id, child: Id, ghost rest: set<Id>, ghost open: Open) returns (ghost order: seq<Id>)
      requires Draining(open[id := rest], {}) && child in rest
      modifies this`messages, this`heads, this`ancestors, this`delivered, mempool
      ensures Draining(open[id := rest - {child}], {}) && received == old(received)
      ensures delivered == old(delivered) + order
      ensures Drained(old(mempool.missingParents.Keys), mempool.missingParents.Keys, order)
      decreases mempool.missingParents.Keys, 0
    {
      order := [];
      var yielded := Resume(id, child, rest, open);
      if yielded.Some? {
        ghost var parked := mempool.missingParents.Keys;
        order := InsertMessage(child, yielded.value, open[id := rest - {child}]);
        DrainedCons(old(mempool.missingParents.Keys), child, mempool.missingParents.Keys, order);
        Associate(old(delivered), [child], order);
        order := [child] + order;
      }
    }

    /** One resumption of the generator, to its next yield or past one child. */
    method Resume(id: Id, child: Id, ghost rest: set<Id>, ghost open: Open) returns (yielded: Option<seq<Id>>)
      requires Draining(open[id := rest], {}) && child in rest
      modifies mempool
      ensures yielded.None? ==>
                Draining(open[id := rest - {child}], {})
                && mempool.missingParents.Keys == old(mempool.missingParents.Keys)
      ensures yielded.Some? ==>
                Draining(open[id := rest - {child}], {child})
                && child in dag && yielded.value == dag[child]
                && (forall p :: p in dag[child] ==> p in messages)
                && child !in messages && child in old(mempool.missingParents)
                && mempool.missingParents.Keys == old(mempool.missingParents.Keys) - {child}
    {
      ghost var wide := open[id := rest];
      VisitChild(dag, messages.Keys, mempool.Contents(), wide, id, child);
      assert wide[id := wide[id] - {child}] == open[id := rest - {child}];
      yielded := mempool.Release(id, child);
    }

    /** `insert`: checks the clock, looks up the parents, and stores or parks the message.
        The message may be new, parked or stored already. */
    method Insert(id: Id, parents: seq<Id>) returns (outcome: Outcome)
      requires Valid()
      requires NextClock(Clocks(parents)) == id.clock ==> id in dag && dag[id] == parents
      modifies this, mempool
      ensures Valid() && LargestClosed(dag, received, messages.Keys)
      ensures outcome.Rejected? <==> NextClock(Clocks(parents)) != id.clock
      ensures outcome.Rejected? ==> View() == old(View())
      ensures outcome.Held? ==> View() == old(View()).(received := received, pool := View().pool)
      ensures !outcome.Rejected? ==> received == old(received) + {id}
      ensures !outcome.Rejected? ==> (outcome.Applied? <==> forall p :: p in parents ==> p in old(messages))
      ensures outcome.Applied? ==> old(delivered) + [id] <= delivered
      ensures NoRepeats(delivered) <==> NoRepeats(old(delivered)) && (outcome.Rejected? || id !in old(messages))
      ensures NoRepeats(delivered) ==> InDag(dag, messages.Keys) && heads == Childless(dag, messages.Keys)
    {
      if NextClock(Clocks(parents)) != id.clock {
        StoredIsLargestClosed(dag, View());
        HeadsWithoutRepeats(dag, View());
        return Rejected;
      }
      var missing := LookUp(parents);
      if missing != {} {
        NotStored(dag, messages.Keys, id);
        Park(id, parents, missing);
        outcome := Held;
      } else {
        Admit(id, parents);
        outcome := Applied;
      }
      StoredIsLargestClosed(dag, View());
      HeadsWithoutRepeats(dag, View());
    }

    /** Any run of inserts, repeats included: the log ends up with exactly the largest
        parent-closed part of what passed the clock check.  `apply` is called once for each
        message exactly if no message was inserted when it was stored already, and then the
        heads are the childless messages. */
    method InsertAll(batch: seq<(Id, seq<Id>)>)
      requires Valid()
      requires forall b :: b in batch && Admissible(b) ==> b.0 in dag && dag[b.0] == b.1
      modifies this, mempool
      ensures Valid() && LargestClosed(dag, received, messages.Keys)
      ensures received == old(received) + Ids(batch)
      ensures NoRepeats(delivered) <==> NoRepeats(old(delivered)) && AllNew(dag, old(received), batch)
      ensures NoRepeats(delivered) ==> InDag(dag, messages.Keys) && heads == Childless(dag, messages.Keys)
    {
      InsertEach(batch);
      StoredIsLargestClosed(dag, View());
      HeadsWithoutRepeats(dag, View());
    }

    method InsertEach(batch: seq<(Id, seq<Id>)>)
      requires Valid()
      requires forall b :: b in batch && Admissible(b) ==> b.0 in dag && dag[b.0] == b.1
      modifies this, mempool
      ensures Valid() && received == old(received) + Ids(batch)
      ensures NoRepeats(delivered) <==> NoRepeats(old(delivered)) && AllNew(dag, old(received), batch)
    {
      NothingNew(dag, received);
      if batch != [] {
        var front, last := batch[..|batch| - 1], batch[|batch| - 1];
        assert batch == front + [last];
        IdsNext(received, front, last);
        AllNewNext(dag, received, front, last);
        InsertEach(front);
        InsertNext(last);
      }
    }

    method InsertNext(message: (Id, seq<Id>))
      requires Valid()
      requires Admissible(message) ==> message.0 in dag && dag[message.0] == message.1
      modifies this, mempool
      ensures Valid() && received == old(received) + if Admissible(message) then {message.0} else {}
      ensures NoRepeats(delivered) <==> NoRepeats(old(delivered)) && IsNew(dag, old(received), message)
    {
      StoredIffArrived(dag, View(), message.0);
      var _ := Insert(message.0, message.1);
    }

    /** The parents that are not stored. */
    method LookUp(parents: seq<Id>) returns (missing: set<Id>)
      ensures missing == set p | p in parents && p !in messages
      ensures missing == {} ==> forall p :: p in parents ==> p in messages
    {
      missing := {};
      for i := 0 to |parents|
        invariant missing == set p | p in parents[..i] && p !in messages
      {
        if parents[i] !in messages {
          missing := missing + {parents[i]};
        }
        assert parents[..i + 1] == parents[..i] + [parents[i]];
      }
      assert parents[..|parents|] == parents;
      forall p | p in parents && missing == {} ensures p in messages {
        assert p !in missing;
      }
    }

    method Park(id: Id, parents: seq<Id>, missing: set<Id>)
      requires Valid() && id in dag && dag[id] == parents
      requires missing == Wanted(dag, messages.Keys, id) != {} && id !in messages
      modifies this`received, mempool
      ensures Valid() && received == old(received) + {id}
    {
      ParkMessage(dag, messages.Keys, mempool.Contents(), id);
      mempool.Add(id, parents, missing);
      received := received + {id};
    }

    /** Stores a message whose parents are stored, and whatever was waiting for it. */
    method Admit(id: Id, parents: seq<Id>)
      requires Valid()
      requires id in dag && dag[id] == parents && forall p :: p in parents ==> p in messages
      modifies this`messages, this`heads, this`ancestors, this`delivered, this`received, mempool
      ensures Valid() && received == old(received) + {id}
      ensures id in messages && old(messages.Keys) <= messages.Keys
      ensures old(delivered) + [id] <= delivered
      ensures NoRepeats(delivered) <==> NoRepeats(old(delivered)) && id !in old(messages)
    {
      NotParked(dag, messages.Keys, mempool.Contents(), id);
      ParkedIsNew(dag, View());
      ghost var parked := mempool.missingParents.Keys;
      received := received + {id};
      ghost var order := InsertMessage(id, parents, map[]);
      StoredBefore(old(delivered), id, order, delivered);
      RepeatsAfter(old(delivered), id, order, delivered, parked, mempool.missingParents.Keys);
    }

    /** `append`: a new message on top of the current heads. */
    method Append(id: Id, parents: seq<Id>)
      requires Valid()
      requires id in dag && dag[id] == parents && Elements(parents) == heads
      requires id.clock == NextClock(Clocks(parents))
      modifies this, mempool
      ensures Valid() && received == old(received) + {id}
      ensures id !in old(messages) && id in messages
      ensures NoRepeats(delivered) <==> NoRepeats(old(delivered))
      ensures forall m :: m in old(messages) ==> Reaches(dag, id, m) && m.clock < id.clock
    {
      HeadsAreAbove(dag, View(), id);
      HeadsAreStored(dag, delivered);
      Admit(id, parents);
    }
  }

  /** The message passes the clock check. */
  predicate Admissible(message: (Id, seq<Id>)) {
    NextClock(Clocks(message.1)) == message.0.clock
  }

  /** The messages of a batch that pass it. */
  ghost function Ids(batch: seq<(Id, seq<Id>)>): set<Id> {
    set b | b in batch && Admissible(b) :: b.0
  }

  lemma IdsNext(received: set<Id>, batch: seq<(Id, seq<Id>)>, b: (Id, seq<Id>))
    ensures received + Ids(batch + [b]) == received + Ids(batch) + if Admissible(b) then {b.0} else {}
  {
  }

  lemma StoredBefore(before: seq<Id>, id: Id, order: seq<Id>, after: seq<Id>)
    requires after == before + [id] + order
    ensures Elements(before) <= Elements(after) && id in Elements(after)
    ensures before + [id] <= after
  {
  }

  lemma ParkedIsNew(dag: Dag, peer: Peer)
    requires WellClocked(dag) && PeerInvariant(dag, peer)
    ensures peer.pool.missing.Keys !! Elements(peer.delivered) && Elements(peer.delivered) == peer.messages.Keys
  {
    forall c | c in peer.pool.missing ensures c !in peer.messages {
      assert Parked(dag, peer.messages.Keys, peer.pool, map[], c);
    }
  }

  lemma {:induction false} DrainedOnce(order: seq<Id>, left: set<Id>)
    requires multiset(order) == multiset(left)
    ensures NoRepeats(order) && Elements(order) == left
  {
    forall i, j | 0 <= i < j < |order| ensures order[i] != order[j] {
      var front, x := order[..j], order[i];
      assert order == front + [order[j]] + order[j + 1..];
      assert front[i] == x && x in multiset(front);
      assert multiset(left)[x] <= 1;
    }
    forall x ensures x in order <==> x in left {
      assert x in order <==> x in multiset(order);
    }
  }

  /** What one admission adds to the calls of `apply`. */
  lemma RepeatsAfter(before: seq<Id>, id: Id, order: seq<Id>, after: seq<Id>, parked: set<Id>, left: set<Id>)
    requires after == before + [id] + order && Drained(parked, left, order)
    requires parked !! Elements(before) && id !in parked
    ensures NoRepeats(after) <==> NoRepeats(before) && id !in before
  {
    DrainedOnce(order, parked - left);
    if NoRepeats(after) {
      NoRepeatsFront(before, [id] + order, after);
      forall i | 0 <= i < |before| ensures before[i] != id {
        assert after[i] == before[i] && after[|before|] == id;
      }
    }
    if NoRepeats(before) && id !in before {
      OneMoreOnce(before, id);
      assert forall x :: x in order ==> x in Elements(order) && x !in before + [id];
      Together(before + [id], order, after);
    }
  }

  lemma NoRepeatsFront(front: seq<Id>, rest: seq<Id>, all: seq<Id>)
    requires all == front + rest && NoRepeats(all)
    ensures NoRepeats(front)
  {
    forall i, j | 0 <= i < j < |front| ensures front[i] != front[j] {
      assert all[i] == front[i] && all[j] == front[j];
    }
  }

  lemma OneMoreOnce(front: seq<Id>, id: Id)
    requires NoRepeats(front) && id !in front
    ensures NoRepeats(front + [id])
  {
  }

  lemma Together(front: seq<Id>, rest: seq<Id>, all: seq<Id>)
    requires all == front + rest && NoRepeats(front) && NoRepeats(rest)
    requires forall x :: x in rest ==> x !in front
    ensures NoRepeats(all)
  {
    forall i, j | 0 <= i < j < |all| ensures all[i] != all[j] {
      if i >= |front| {
        assert all[i] == rest[i - |front|] && all[j] == rest[j - |front|];
      } else if j >= |front| {
        assert all[j] == rest[j - |front|] && all[j] in rest;
      }
    }
  }

  lemma HeadsWithoutRepeats(dag: Dag, peer: Peer)
    requires WellClocked(dag) && PeerInvariant(dag, peer)
    ensures InDag(dag, peer.messages.Keys)
    ensures NoRepeats(peer.delivered) ==> peer.heads == Childless(dag, peer.messages.Keys)
  {
    DeliveredInDag(dag, peer.delivered);
    if NoRepeats(peer.delivered) {
      HeadsAreChildless(dag, peer.delivered);
    }
  }

  /** The message passes the clock check and is not stored, told from what has been received. */
  ghost predicate IsNew(dag: Dag, received: set<Id>, message: (Id, seq<Id>))
    requires WellClocked(dag)
  {
    Admissible(message) ==> !Grounded(dag, received, message.0)
  }

  /** No message of the batch is stored when it is inserted. */
  ghost predicate AllNew(dag: Dag, received: set<Id>, batch: seq<(Id, seq<Id>)>)
    requires WellClocked(dag)
    decreases |batch|
  {
    batch == []
    || (AllNew(dag, received, batch[..|batch| - 1])
        && IsNew(dag, received + Ids(batch[..|batch| - 1]), batch[|batch| - 1]))
  }

  lemma NothingNew(dag: Dag, received: set<Id>)
    requires WellClocked(dag)
    ensures received + Ids([]) == received && AllNew(dag, received, [])
  {
  }

  lemma AllNewNext(dag: Dag, received: set<Id>, batch: seq<(Id, seq<Id>)>, b: (Id, seq<Id>))
    requires WellClocked(dag)
    ensures AllNew(dag, received, batch + [b])
            <==> AllNew(dag, received, batch) && IsNew(dag, received + Ids(batch), b)
  {
    assert (batch + [b])[..|batch|] == batch;
  }

  /** A message all of whose parents are stored is not parked. */
  lemma NotParked(dag: Dag, stored: set<Id>, pool: Pool, id: Id)
    requires PoolInvariant(dag, stored, pool, map[])
    requires id in dag && forall p :: p in dag[id] ==> p in stored
    ensures id !in pool.missing
  {
    assert OpenFor(map[], id) == {};
    assert Wanted(dag, stored, id) == {};
    assert id in pool.missing ==> Parked(dag, stored, pool, map[], id);
  }

  /** A message that lacks a parent is not stored. */
  lemma NotStored(dag: Dag, stored: set<Id>, id: Id)
    requires Closed(dag, stored) && id in dag && Wanted(dag, stored, id) != {}
    ensures id !in stored
  {
    var p :| p in Wanted(dag, stored, id);
    assert id in stored ==> HasParents(dag, stored, id);
  }

  /** A message whose parents are the heads comes after every stored message. */
  lemma HeadsAreAbove(dag: Dag, peer: Peer, id: Id)
    requires WellClocked(dag) && PeerInvariant(dag, peer)
    requires id in dag && Elements(dag[id]) == peer.heads
    ensures forall m :: m in peer.messages ==> Reaches(dag, id, m) && m.clock < id.clock
    ensures id !in peer.messages
  {
    forall m | m in peer.messages ensures Reaches(dag, id, m) && m.clock < id.clock {
      var h := HeadsCover(dag, peer.delivered, m);
      assert h in Elements(dag[id]);
      ReachesEarlier(dag, h, m);
    }
  }
}
