/** The causal history: messages form a directed acyclic graph through their parents. */
module CausalHistory {
  import opened MessageKeys

  /** The parents of every message.  Identifiers are content hashes, so an identifier
      stands for one message and one list of parents, on every peer. */
  type Dag = map<Id, seq<Id>>

  /** Clocks the ancestor index can handle (AncestorClocks.ListingEnds). */
  const MAX_CLOCK := 0x4000_0000

  /** What the clock check on every message guarantees: it comes after its parents. */
  ghost predicate WellClocked(dag: Dag) {
    forall m :: m in dag ==> 1 <= m.clock <= MAX_CLOCK && forall p :: p in dag[m] ==> p.clock < m.clock
  }

  /** A set of messages that has the parents of all its members. */
  ghost predicate Closed(dag: Dag, s: set<Id>) {
    forall m {:trigger HasParents(dag, s, m)} :: m in s ==> HasParents(dag, s, m)
  }

  ghost predicate HasParents(dag: Dag, s: set<Id>, m: Id) {
    m in dag && forall p :: p in dag[m] ==> p in s
  }

  /** a is m or an ancestor of m. */
  ghost predicate Reaches(dag: Dag, m: Id, a: Id)
    requires WellClocked(dag)
    decreases m.clock
  {
    m == a || (m in dag && exists p :: p in dag[m] && Reaches(dag, p, a))
  }

  lemma {:induction false} ReachesEarlier(dag: Dag, m: Id, a: Id)
    requires WellClocked(dag) && Reaches(dag, m, a)
    ensures a == m || a.clock < m.clock
    decreases m.clock
  {
    if m != a {
      var p :| p in dag[m] && Reaches(dag, p, a);
      ReachesEarlier(dag, p, a);
    }
  }

  lemma {:induction false} ReachesTransitive(dag: Dag, m: Id, x: Id, a: Id)
    requires WellClocked(dag) && Reaches(dag, m, x) && Reaches(dag, x, a)
    ensures Reaches(dag, m, a)
    decreases m.clock
  {
    if m != x {
      var p :| p in dag[m] && Reaches(dag, p, x);
      ReachesTransitive(dag, p, x, a);
    }
  }

  lemma {:induction false} ClosedHoldsAncestors(dag: Dag, s: set<Id>, m: Id, a: Id)
    requires WellClocked(dag) && Closed(dag, s) && m in s && Reaches(dag, m, a)
    ensures a in s
    decreases m.clock
  {
    if m != a {
      var p :| p in dag[m] && Reaches(dag, p, a);
      assert HasParents(dag, s, m);
      ClosedHoldsAncestors(dag, s, p, a);
    }
  }

  // ----- first ancestors at or before a clock -----

  /** The first ancestors of m with clock at or below t along every path from m. */
  ghost function FirstAt(dag: Dag, m: Id, t: int): set<Id>
    requires WellClocked(dag)
    decreases m.clock
  {
    if m.clock <= t then {m}
    else if m !in dag then {}
    else set p, a | p in dag[m] && a in FirstAt(dag, p, t) :: a
  }

  /** The first ancestors of several messages. */
  ghost function FirstOf(dag: Dag, ms: set<Id>, t: int): set<Id>
    requires WellClocked(dag)
  {
    set m, a | m in ms && a in FirstAt(dag, m, t) :: a
  }

  ghost function Elements(s: seq<Id>): set<Id> {
    set x | x in s
  }

  /** A path through parent links. */
  ghost predicate Path(dag: Dag, path: seq<Id>) {
    path != [] &&
    forall i :: 0 <= i < |path| - 1 ==> path[i] in dag && path[i + 1] in dag[path[i]]
  }

  /** The path stops at the first message at or before clock t. */
  ghost predicate StopsAt(path: seq<Id>, t: int)
    requires path != []
  {
    path[|path| - 1].clock <= t && forall i :: 0 <= i < |path| - 1 ==> path[i].clock > t
  }

  /** FirstAt collects exactly the ends of the paths that stop at the bound. */
  lemma {:induction false} FirstAtIsPathEnds(dag: Dag, m: Id, t: int, a: Id)
    requires WellClocked(dag)
    ensures a in FirstAt(dag, m, t) <==>
            exists path: seq<Id> :: Path(dag, path) && path[0] == m && path[|path| - 1] == a && StopsAt(path, t)
  {
    if a in FirstAt(dag, m, t) {
      var path := PathTo(dag, m, t, a);
    }
    forall path: seq<Id> | Path(dag, path) && path[0] == m && path[|path| - 1] == a && StopsAt(path, t)
      ensures a in FirstAt(dag, m, t)
    {
      PathEndIsFirst(dag, path, t);
    }
  }

  lemma {:induction false} PathTo(dag: Dag, m: Id, t: int, a: Id) returns (path: seq<Id>)
    requires WellClocked(dag) && a in FirstAt(dag, m, t)
    ensures Path(dag, path) && path[0] == m && path[|path| - 1] == a && StopsAt(path, t)
    decreases m.clock
  {
    if m.clock <= t {
      path := [m];
    } else {
      var p :| p in dag[m] && a in FirstAt(dag, p, t);
      var rest := PathTo(dag, p, t, a);
      path := [m] + rest;
    }
  }

  lemma {:induction false} PathEndIsFirst(dag: Dag, path: seq<Id>, t: int)
    requires WellClocked(dag) && Path(dag, path) && StopsAt(path, t)
    ensures path[|path| - 1] in FirstAt(dag, path[0], t)
    decreases |path|
  {
    if |path| > 1 {
      var rest := path[1..];
      forall i | 0 <= i < |rest| - 1 ensures rest[i] in dag && rest[i + 1] in dag[rest[i]] {
        assert path[i + 1] in dag && path[i + 1 + 1] in dag[path[i + 1]];
      }
      PathEndIsFirst(dag, rest, t);
    }
  }

  lemma {:induction false} FirstAtSound(dag: Dag, m: Id, t: int)
    requires WellClocked(dag)
    ensures forall a :: a in FirstAt(dag, m, t) ==> a.clock <= t && Reaches(dag, m, a)
    decreases m.clock
  {
    if m.clock > t && m in dag {
      forall p | p in dag[m] ensures forall a :: a in FirstAt(dag, p, t) ==> a.clock <= t && Reaches(dag, p, a) {
        FirstAtSound(dag, p, t);
      }
    }
  }

  /** Every ancestor at or before the bound is reached through a first ancestor. */
  lemma {:induction false} FirstAtCovers(dag: Dag, m: Id, t: int, a: Id) returns (x: Id)
    requires WellClocked(dag) && Reaches(dag, m, a) && a.clock <= t
    ensures x in FirstAt(dag, m, t) && Reaches(dag, x, a)
    decreases m.clock
  {
    if m.clock <= t {
      x := m;
    } else {
      var p :| p in dag[m] && Reaches(dag, p, a);
      x := FirstAtCovers(dag, p, t, a);
    }
  }

  /** Looking further back from the first ancestors at a later bound gives the first
      ancestors at the earlier one: the skip index may take its steps in stages. */
  lemma {:induction false} FirstAtInStages(dag: Dag, m: Id, s: int, t: int)
    requires WellClocked(dag) && t <= s
    ensures FirstOf(dag, FirstAt(dag, m, s), t) == FirstAt(dag, m, t)
    decreases m.clock
  {
    if m.clock > s && m in dag {
      forall p | p in dag[m] ensures FirstOf(dag, FirstAt(dag, p, s), t) == FirstAt(dag, p, t) {
        FirstAtInStages(dag, p, s, t);
      }
      forall a | a in FirstAt(dag, m, t) ensures a in FirstOf(dag, FirstAt(dag, m, s), t) {
        var p :| p in dag[m] && a in FirstAt(dag, p, t);
        var x :| x in FirstAt(dag, p, s) && a in FirstAt(dag, x, t);
        assert x in FirstAt(dag, m, s);
      }
      forall a | a in FirstOf(dag, FirstAt(dag, m, s), t) ensures a in FirstAt(dag, m, t) {
        var x :| x in FirstAt(dag, m, s) && a in FirstAt(dag, x, t);
        var p :| p in dag[m] && x in FirstAt(dag, p, s);
        assert a in FirstOf(dag, FirstAt(dag, p, s), t);
      }
    }
  }
}
