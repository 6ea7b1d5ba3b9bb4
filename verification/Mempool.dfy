/** Messages waiting for missing parents (Mempool.ts). */
module Mempool {
  import opened MessageKeys
  import opened CausalHistory
  import opened Options

  /** The three maps of the mempool as values. */
  datatype Pool = Pool(
    values: map<Id, seq<Id>>,
    missing: map<Id, set<Id>>,
    waiting: map<Id, set<Id>>)

  function Waiting(pool: Pool, id: Id): set<Id> {
    if id in pool.waiting then pool.waiting[id] else {}
  }

  /** The pool after `add`. */
  ghost function Added(pool: Pool, id: Id, value: seq<Id>, missing: set<Id>): Pool {
    Pool(
      pool.values[id := value],
      pool.missing[id := missing],
      map p | p in pool.waiting.Keys + missing :: Waiting(pool, p) + if p in missing then {id} else {})
  }

  /** The pool after `observe` has looked up and deleted the children of `id`. */
  ghost function Observed(pool: Pool, id: Id): Pool {
    pool.(waiting := pool.waiting - {id})
  }

  /** The pool after `observe` has visited one child. */
  ghost function Released(pool: Pool, id: Id, child: Id): Pool
    requires child in pool.missing
  {
    if pool.missing[child] - {id} == {} then
      pool.(values := pool.values - {child}, missing := pool.missing - {child})
    else
      pool.(missing := pool.missing[child := pool.missing[child] - {id}])
  }

  class Mempool {
    var values: map<Id, seq<Id>>
    var missingParents: map<Id, set<Id>>
    var waitingChildren: map<Id, set<Id>>

    ghost function Contents(): Pool
      reads this
    {
      Pool(values, missingParents, waitingChildren)
    }

    constructor ()
      ensures Contents() == Pool(map[], map[], map[])
    {
      values, missingParents, waitingChildren := map[], map[], map[];
    }

    method Add(id: Id, value: seq<Id>, missing: set<Id>)
      modifies this
      ensures Contents() == Added(old(Contents()), id, value, missing)
    {
      ghost var before := Contents();
      values := values[id := value];
      missingParents := missingParents[id := missing];
      var rest := missing;
      while rest != {}
        invariant rest <= missing
        invariant values == before.values[id := value] && missingParents == before.missing[id := missing]
        invariant waitingChildren.Keys == before.waiting.Keys + (missing - rest)
        invariant forall p :: p in waitingChildren ==>
          waitingChildren[p] == Waiting(before, p) + if p in missing - rest then {id} else {}
        decreases rest
      {
        var parent :| parent in rest;
        if parent in waitingChildren {
          waitingChildren := waitingChildren[parent := waitingChildren[parent] + {id}];
        } else {
          waitingChildren := waitingChildren[parent := {id}];
        }
        rest := rest - {parent};
      }
      assert missing - {} == missing;
    }

    /** The first step of the generator `observe`. */
    method Observe(id: Id) returns (children: set<Id>)
      modifies this
      ensures children == Waiting(old(Contents()), id)
      ensures Contents() == Observed(old(Contents()), id)
    {
      if id !in waitingChildren {
        assert waitingChildren - {id} == waitingChildren;
        return {};
      }
      children := waitingChildren[id];
      waitingChildren := waitingChildren - {id};
    }

    /** One turn of the generator's loop, up to its yield: the value yielded, if any.
        The two lookups are the generator's assertions. */
    method Release(id: Id, child: Id) returns (yielded: Option<seq<Id>>)
      requires child in missingParents && child in values
      modifies this
      ensures Contents() == Released(old(Contents()), id, child)
      ensures yielded == if old(missingParents[child]) - {id} == {} then Some(old(values[child])) else None
    {
      missingParents := missingParents[child := missingParents[child] - {id}];
      if missingParents[child] == {} {
        yielded := Some(values[child]);
        values := values - {child};
        missingParents := missingParents - {child};
        assert missingParents == old(missingParents) - {child};
      } else {
        yielded := None;
      }
    }
  }

  // ----- what every step of a (possibly nested) drain keeps -----

  /** The generators that are suspended in the middle of their loops: for each drained
      message the children its generator has still to visit. */
  type Open = map<Id, set<Id>>

  /** The parents a message lacks. */
  ghost function Wanted(dag: Dag, stored: set<Id>, c: Id): set<Id>
    requires c in dag
  {
    set p | p in dag[c] && p !in stored
  }

  /** The open generators that have still to visit c. */
  ghost function OpenFor(open: Open, c: Id): set<Id> {
    set p | p in open && c in open[p]
  }

  ghost predicate Parked(dag: Dag, stored: set<Id>, pool: Pool, open: Open, c: Id)
    requires c in pool.missing
  {
    c in dag && c !in stored && c in pool.values && pool.values[c] == dag[c]
    && pool.missing[c] != {} && pool.missing[c] == Wanted(dag, stored, c) + OpenFor(open, c)
  }

  /** `missingParents` and `waitingChildren` mirror each other, apart from the messages
      being drained, whose children are with the suspended generators. */
  ghost predicate Mirrored(pool: Pool, open: Open) {
    pool.waiting.Keys !! open.Keys
    && (forall p {:trigger p in pool.waiting} :: p in pool.waiting ==> pool.waiting[p] != {})
    && forall p, c {:trigger Misses(pool, c, p)} ::
         Misses(pool, c, p) <==> c in Waiting(pool, p) || (p in open && c in open[p])
  }

  ghost predicate Misses(pool: Pool, c: Id, p: Id) {
    c in pool.missing && p in pool.missing[c]
  }

  ghost predicate PoolInvariant(dag: Dag, stored: set<Id>, pool: Pool, open: Open) {
    pool.values.Keys == pool.missing.Keys
    && (forall c {:trigger Parked(dag, stored, pool, open, c)} :: c in pool.missing ==>
          Parked(dag, stored, pool, open, c))
    && Mirrored(pool, open)
    && open.Keys <= stored
    && forall p, c {:trigger c in open[p]} :: p in open && c in open[p] ==> c in pool.missing && c in dag && p in dag[c]
  }

  lemma StartParked(dag: Dag, stored: set<Id>, pool: Pool, open: Open, id: Id, c: Id)
    requires PoolInvariant(dag, stored, pool, open) && id !in pool.missing && id !in open && c in pool.missing
    ensures Parked(dag, stored + {id}, Observed(pool, id), open[id := Waiting(pool, id)], c)
    ensures c in Waiting(pool, id) ==> id in dag[c]
  {
    var open' := open[id := Waiting(pool, id)];
    assert Parked(dag, stored, pool, open, c);
    assert Misses(pool, c, id) <==> c in Waiting(pool, id);
    assert id !in OpenFor(open, c);
    assert OpenFor(open', c) == OpenFor(open, c) + if c in Waiting(pool, id) then {id} else {};
  }

  lemma StartMirrored(pool: Pool, open: Open, id: Id)
    requires Mirrored(pool, open) && id !in open
    ensures Mirrored(Observed(pool, id), open[id := Waiting(pool, id)])
  {
    var pool', open' := Observed(pool, id), open[id := Waiting(pool, id)];
    forall p, c ensures Misses(pool', c, p) <==> c in Waiting(pool', p) || (p in open' && c in open'[p]) {
      assert Misses(pool', c, p) == Misses(pool, c, p);
    }
  }

  /** Storing a message and starting its drain. */
  lemma StartDrain(dag: Dag, stored: set<Id>, pool: Pool, open: Open, id: Id)
    requires PoolInvariant(dag, stored, pool, open) && id !in pool.missing && id !in open
    ensures PoolInvariant(dag, stored + {id}, Observed(pool, id), open[id := Waiting(pool, id)])
  {
    var open' := open[id := Waiting(pool, id)];
    StartMirrored(pool, open, id);
    forall c | c in pool.missing ensures Parked(dag, stored + {id}, Observed(pool, id), open', c) {
      StartParked(dag, stored, pool, open, id, c);
    }
    forall p, c | p in open' && c in open'[p] ensures c in pool.missing && c in dag && p in dag[c] {
      if p == id {
        assert Misses(pool, c, id);
        assert Parked(dag, stored, pool, open, c);
        StartParked(dag, stored, pool, open, id, c);
      } else {
        assert c in open[p];
      }
    }
  }

  lemma VisitMirrored(pool: Pool, open: Open, id: Id, child: Id)
    requires Mirrored(pool, open) && id in open && child in open[id] && child in pool.missing
    ensures Mirrored(Released(pool, id, child), open[id := open[id] - {child}])
  {
    var pool', open' := Released(pool, id, child), open[id := open[id] - {child}];
    if pool.missing[child] - {id} == {} {
      forall q | q in pool.missing[child] ensures q == id {
        assert q !in pool.missing[child] - {id};
      }
    }
    forall p, c ensures Misses(pool', c, p) <==> c in Waiting(pool', p) || (p in open' && c in open'[p]) {
      assert Misses(pool, c, p) <==> c in Waiting(pool, p) || (p in open && c in open[p]);
      assert Misses(pool', c, p) <==> Misses(pool, c, p) && !(c == child && p == id);
    }
  }

  lemma VisitParked(dag: Dag, stored: set<Id>, pool: Pool, open: Open, id: Id, child: Id, c: Id)
    requires PoolInvariant(dag, stored, pool, open) && id in open && child in open[id]
    requires child in pool.missing && c in Released(pool, id, child).missing
    ensures Parked(dag, stored, Released(pool, id, child), open[id := open[id] - {child}], c)
  {
    var open' := open[id := open[id] - {child}];
    assert Parked(dag, stored, pool, open, c);
    if c == child {
      assert OpenFor(open', child) == OpenFor(open, child) - {id};
      assert id !in Wanted(dag, stored, child);
    } else {
      assert OpenFor(open', c) == OpenFor(open, c);
    }
  }

  /** Nothing hinders c any longer: its parents are stored, and no generator but id's has still
      to visit it. */
  ghost predicate Unhindered(dag: Dag, stored: set<Id>, open: Open, id: Id, c: Id)
    requires c in dag
  {
    (forall p :: p in dag[c] ==> p in stored) && forall p :: p in open && c in open[p] ==> p == id
  }

  /** A child misses nothing more exactly if nothing else hinders it. */
  lemma VisitReady(dag: Dag, stored: set<Id>, pool: Pool, open: Open, id: Id, child: Id)
    requires PoolInvariant(dag, stored, pool, open) && id in open && child in open[id]
    requires child in pool.missing
    ensures child in dag && (pool.missing[child] - {id} == {} <==> Unhindered(dag, stored, open, id, child))
  {
    assert Parked(dag, stored, pool, open, child);
    assert id !in Wanted(dag, stored, child);
    assert pool.missing[child] - {id} == Wanted(dag, stored, child) + (OpenFor(open, child) - {id});
    if pool.missing[child] - {id} == {} {
      forall p | p in dag[child] ensures p in stored {
        assert p in Wanted(dag, stored, child) <==> p !in stored;
      }
      forall p | p in open && child in open[p] ensures p == id {
        assert p in OpenFor(open, child);
      }
    }
  }

  /** Visiting one child: it leaves the pool, ready to be stored, exactly if its parents are
      stored and no other generator has still to visit it. */
  lemma VisitChild(dag: Dag, stored: set<Id>, pool: Pool, open: Open, id: Id, child: Id)
    requires PoolInvariant(dag, stored, pool, open) && id in open && child in open[id]
    ensures child in pool.missing && child in pool.values
    ensures PoolInvariant(dag, stored, Released(pool, id, child), open[id := open[id] - {child}])
    ensures child in dag && child !in stored && pool.values[child] == dag[child]
    ensures pool.missing[child] - {id} == {} <==> Unhindered(dag, stored, open, id, child)
  {
    assert child in pool.missing;
    assert Parked(dag, stored, pool, open, child);
    var pool', open' := Released(pool, id, child), open[id := open[id] - {child}];
    VisitMirrored(pool, open, id, child);
    forall c | c in pool'.missing ensures Parked(dag, stored, pool', open', c) {
      VisitParked(dag, stored, pool, open, id, child, c);
    }
    VisitReady(dag, stored, pool, open, id, child);
    forall p, c | p in open' && c in open'[p] ensures c in pool'.missing && c in dag && p in dag[c] {
      assert c in open[p];
    }
  }

  /** A generator that has visited all its children may be forgotten. */
  lemma EndDrain(dag: Dag, stored: set<Id>, pool: Pool, open: Open, id: Id)
    requires id !in open && PoolInvariant(dag, stored, pool, open[id := {}])
    ensures PoolInvariant(dag, stored, pool, open)
  {
    var wide := open[id := {}];
    forall c | c in pool.missing ensures Parked(dag, stored, pool, open, c) {
      assert Parked(dag, stored, pool, wide, c);
      assert OpenFor(wide, c) == OpenFor(open, c);
    }
    forall p, c ensures Misses(pool, c, p) <==> c in Waiting(pool, p) || (p in open && c in open[p]) {
      assert Misses(pool, c, p) <==> c in Waiting(pool, p) || (p in wide && c in wide[p]);
    }
    forall p, c | p in open && c in open[p] ensures c in pool.missing && c in dag && p in dag[c] {
      assert p in wide && c in wide[p];
    }
  }

  /** Parking a message, or parking it again. */
  lemma ParkMessage(dag: Dag, stored: set<Id>, pool: Pool, id: Id)
    requires PoolInvariant(dag, stored, pool, map[])
    requires id in dag && id !in stored && Wanted(dag, stored, id) != {}
    ensures PoolInvariant(dag, stored, Added(pool, id, dag[id], Wanted(dag, stored, id)), map[])
  {
    var missing := Wanted(dag, stored, id);
    var open: Open := map[];
    var pool' := Added(pool, id, dag[id], missing);
    assert OpenFor(open, id) == {};
    if id in pool.missing {
      assert Parked(dag, stored, pool, open, id);
    }
    forall c | c in pool'.missing ensures Parked(dag, stored, pool', open, c) {
      if c != id {
        assert Parked(dag, stored, pool, open, c);
      }
    }
    forall p, c ensures Misses(pool', c, p) <==> c in Waiting(pool', p) {
      assert Misses(pool, c, p) <==> c in Waiting(pool, p);
      assert Waiting(pool', p) == Waiting(pool, p) + if p in missing then {id} else {};
    }
  }
}
