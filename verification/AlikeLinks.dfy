/** A wider condition on the stored rows under which `getAncestors` finds everything, though it
    may drop links: wherever a link stands, the same links follow it.  It decides whole entries
    and whole indexes. */
module AlikeLinks {
  import opened MessageKeys
  import opened AncestorClocks
  import opened CausalHistory
  import opened AncestorIndex
  import opened AncestorSearch
  import opened UnsharedLinks

  /** What stands after link j of the row that a search at n reads. */
  ghost function After(idx: Index, n: Id, bound: int, j: nat): set<Id>
    requires Shaped(idx) && n in idx && 1 <= bound < n.clock
  {
    if j < |Links(idx, n, bound)| then Elements(Links(idx, n, bound)[j + 1..]) else {}
  }

  /** Wherever a link above the bound stands, the same links follow it. */
  ghost predicate Alike(idx: Index, key: Id, bound: int)
    requires Shaped(idx) && key in idx && 1 <= bound < key.clock
  {
    forall n: Id, i: nat, w: Id, j: nat, l: Id {:trigger At(idx, bound, n, i, l), At(idx, bound, w, j, l)} ::
      n in Above(idx, key, bound) && w in Above(idx, key, bound) && l.clock > bound
      && At(idx, bound, n, i, l) && At(idx, bound, w, j, l)
      ==> After(idx, n, bound, i) == After(idx, w, bound, j)
  }

  lemma UnsharedIsAlike(idx: Index, key: Id, bound: int)
    requires Shaped(idx) && key in idx && 1 <= bound < key.clock && Unshared(idx, key, bound)
    ensures Alike(idx, key, bound)
  {
    forall n: Id, i: nat, w: Id, j: nat, l: Id |
      n in Above(idx, key, bound) && w in Above(idx, key, bound) && l.clock > bound
      && At(idx, bound, n, i, l) && At(idx, bound, w, j, l)
      ensures After(idx, n, bound, i) == After(idx, w, bound, j)
    {
      if n != w || i != j {
        assert !GoesOn(idx, bound, n, i) && !GoesOn(idx, bound, w, j);
        assert Links(idx, n, bound)[i + 1..] == [] && Links(idx, w, bound)[j + 1..] == [];
      }
    }
  }

  lemma {:induction false} LastAt(links: seq<Id>, l: Id, i: nat) returns (k: nat)
    requires i < |links| && links[i] == l
    ensures i <= k < |links| && links[k] == l && l !in links[k + 1..]
    decreases |links| - i
  {
    if l in links[i + 1..] {
      var j :| 0 <= j < |links[i + 1..]| && links[i + 1..][j] == l;
      k := LastAt(links, l, i + 1 + j);
    } else {
      k := i;
    }
  }

  /** No such link stands twice in one row. */
  lemma OnceInRow(idx: Index, key: Id, bound: int, n: Id, j: nat, i: nat, l: Id)
    requires Shaped(idx) && key in idx && 1 <= bound < key.clock && Alike(idx, key, bound)
    requires n in Above(idx, key, bound) && l.clock > bound && At(idx, bound, n, j, l) && At(idx, bound, n, i, l)
    ensures i <= j
  {
    if j < i {
      var links := Links(idx, n, bound);
      var k := LastAt(links, l, i);
      assert At(idx, bound, n, k, l);
      Follows(idx, bound, n, j, i, l);
    }
  }

  /** What follows link j of w has been looked back from. */
  ghost predicate Finished(dag: Dag, idx: Index, bound: int, w: Id, j: nat, results: set<Id>)
    requires WellClocked(dag) && Shaped(idx) && w in idx && 1 <= bound < w.clock
  {
    FirstOf(dag, After(idx, w, bound, j), bound) <= results
  }

  /** A link from a clock on follows link j of w: the search is at work on it. */
  ghost predicate Suspended(idx: Index, bound: int, w: Id, j: nat, clock: int)
    requires Shaped(idx) && w in idx && 1 <= bound < w.clock
  {
    exists u :: u in After(idx, w, bound, j) && u.clock >= clock
  }

  /** v stands in a row that is finished, or suspended above n, or in n's row before link i. */
  ghost predicate Covered(
    dag: Dag, idx: Index, bound: int, ids: set<Id>, n: Id, i: nat, results: set<Id>, v: Id)
    requires WellClocked(dag) && Shaped(idx) && 1 <= bound
  {
    exists w, j: nat {:trigger Place(idx, bound, ids, w, j, v)} ::
      Place(idx, bound, ids, w, j, v)
      && (Finished(dag, idx, bound, w, j, results) || Suspended(idx, bound, w, j, n.clock) || (w == n && j < i))
  }

  ghost predicate Done(dag: Dag, idx: Index, bound: int, ids: set<Id>, results: set<Id>, v: Id)
    requires WellClocked(dag) && Shaped(idx) && 1 <= bound
  {
    exists w, j: nat {:trigger Place(idx, bound, ids, w, j, v)} ::
      Place(idx, bound, ids, w, j, v) && Finished(dag, idx, bound, w, j, results)
  }

  /** The state in which a search begun at root comes to link i of n. */
  ghost predicate Coming(dag: Dag, idx: Index, root: Id, bound: int, n: Id, i: nat, s: Search)
    requires WellClocked(dag) && Shaped(idx) && root in idx && 1 <= bound < root.clock
  {
    n in Above(idx, root, bound) && i <= |Links(idx, n, bound)| && Accounted(dag, s, {}, bound, n.clock)
    && forall v {:trigger Covered(dag, idx, bound, Above(idx, root, bound), n, i, Elements(s.results), v)} ::
         v in s.visited && v.clock < n.clock ==>
           Covered(dag, idx, bound, Above(idx, root, bound), n, i, Elements(s.results), v)
  }

  /** What it has added when it is through with n. */
  ghost predicate Through(
    dag: Dag, idx: Index, root: Id, bound: int, n: Id, s: Search, firsts: set<Id>, s': Search)
    requires WellClocked(dag) && Shaped(idx) && root in idx && 1 <= bound < root.clock
  {
    Elements(s'.results) == Elements(s.results) + firsts && s.visited <= s'.visited
    && Accounted(dag, s', {}, bound, n.clock)
    && forall v {:trigger Done(dag, idx, bound, Above(idx, root, bound), Elements(s'.results), v)} ::
         v in s'.visited && v !in s.visited ==>
           v.clock < n.clock && Done(dag, idx, bound, Above(idx, root, bound), Elements(s'.results), v)
  }

  lemma {:induction false} AlikeWalk(dag: Dag, idx: Index, root: Id, bound: int, n: Id, s: Search)
    requires WellClocked(dag) && Shaped(idx) && root in idx && 1 <= bound < root.clock && Alike(idx, root, bound)
    requires ExactBelow(dag, idx, n.clock + 1) && Coming(dag, idx, root, bound, n, 0, s)
    ensures Through(dag, idx, root, bound, n, s, FirstAt(dag, n, bound), Explore(idx, n, bound, s))
    decreases n.clock, 1, 0
  {
    LinksExact(dag, idx, n, bound);
    assert Links(idx, n, bound)[0..] == Links(idx, n, bound);
    AlikeRest(dag, idx, root, bound, n, 0, s);
  }

  lemma {:induction false} AlikeRest(dag: Dag, idx: Index, root: Id, bound: int, n: Id, i: nat, s: Search)
    requires WellClocked(dag) && Shaped(idx) && root in idx && 1 <= bound < root.clock && Alike(idx, root, bound)
    requires ExactBelow(dag, idx, n.clock) && Coming(dag, idx, root, bound, n, i, s)
    ensures Through(dag, idx, root, bound, n, s, FirstOf(dag, Elements(Links(idx, n, bound)[i..]), bound),
              ExploreLinks(idx, n.clock, Links(idx, n, bound)[i..], bound, s))
    decreases n.clock, 0, |Links(idx, n, bound)| - i
  {
    var links := Links(idx, n, bound);
    if i < |links| {
      var l := links[i];
      assert links[i..][0] == l && links[i..][1..] == links[i + 1..];
      FirstOfCons(dag, links[i..], bound);
      assert At(idx, bound, n, i, l);
      if l.clock <= bound {
        var s1 := s.(results := Add(s.results, l));
        ComeEarly(dag, idx, root, bound, n, i, l, s, s1);
        AlikeRest(dag, idx, root, bound, n, i + 1, s1);
        var s3 := ExploreLinks(idx, n.clock, links[i + 1..], bound, s1);
        GoThroughEarly(dag, idx, root, bound, n, l, s, s1, FirstOf(dag, Elements(links[i + 1..]), bound), s3);
      } else if l in s.visited {
        AfterIsCovered(dag, idx, root, bound, n, i, l, s);
      } else {
        var s1 := s.(visited := s.visited + {l});
        ComeDown(dag, idx, root, bound, n, i, l, s, s1);
        AlikeWalk(dag, idx, root, bound, l, s1);
        var s2 := Explore(idx, l, bound, s1);
        ComeBack(dag, idx, root, bound, n, i, l, s, s1, s2);
        AlikeRest(dag, idx, root, bound, n, i + 1, s2);
        var s3 := ExploreLinks(idx, n.clock, links[i + 1..], bound, s2);
        GoThrough(dag, idx, root, bound, n, i, l, s, s1, s2, s3);
      }
    } else {
      assert links[i..] == [];
    }
  }

  /** A link at or before the bound. */
  lemma ComeEarly(dag: Dag, idx: Index, root: Id, bound: int, n: Id, i: nat, l: Id, s: Search, s1: Search)
    requires WellClocked(dag) && Shaped(idx) && root in idx && 1 <= bound < root.clock
    requires Coming(dag, idx, root, bound, n, i, s) && At(idx, bound, n, i, l) && l.clock <= bound
    requires s1 == s.(results := Add(s.results, l))
    ensures Coming(dag, idx, root, bound, n, i + 1, s1)
    ensures Elements(s1.results) == Elements(s.results) + FirstAt(dag, l, bound)
  {
    var ids := Above(idx, root, bound);
    assert Elements(s1.results) == Elements(s.results) + {l};
    forall v | v in s1.visited && v.clock < n.clock
      ensures Covered(dag, idx, bound, ids, n, i + 1, Elements(s1.results), v)
    {
      assert Covered(dag, idx, bound, ids, n, i, Elements(s.results), v);
    }
  }

  /** A link visited before: what follows it here follows it where it was met, and has been
      looked back from. */
  lemma AfterIsCovered(dag: Dag, idx: Index, root: Id, bound: int, n: Id, i: nat, l: Id, s: Search)
    requires WellClocked(dag) && Shaped(idx) && root in idx && 1 <= bound < root.clock && Alike(idx, root, bound)
    requires Coming(dag, idx, root, bound, n, i, s)
    requires At(idx, bound, n, i, l) && l.clock > bound && l in s.visited
    ensures FirstOf(dag, Elements(Links(idx, n, bound)[i + 1..]), bound) <= Elements(s.results)
    ensures FirstAt(dag, l, bound) <= Elements(s.results)
  {
    var ids, results := Above(idx, root, bound), Elements(s.results);
    assert l in Links(idx, n, bound);
    assert Covered(dag, idx, bound, ids, n, i, results, l);
    var w, j: nat :| Place(idx, bound, ids, w, j, l)
      && (Finished(dag, idx, bound, w, j, results) || Suspended(idx, bound, w, j, n.clock) || (w == n && j < i));
    assert After(idx, n, bound, i) == After(idx, w, bound, j);
    if w == n {
      OnceInRow(idx, root, bound, n, j, i, l);
    }
    assert FirstAt(dag, l, bound) <= results + {};
  }

  /** Going down to a link met for the first time. */
  lemma ComeDown(dag: Dag, idx: Index, root: Id, bound: int, n: Id, i: nat, l: Id, s: Search, s1: Search)
    requires WellClocked(dag) && Shaped(idx) && root in idx && 1 <= bound < root.clock
    requires Coming(dag, idx, root, bound, n, i, s) && At(idx, bound, n, i, l) && l.clock > bound
    requires s1 == s.(visited := s.visited + {l})
    ensures Coming(dag, idx, root, bound, l, 0, s1) && l.clock < n.clock && l in idx
  {
    var ids := Above(idx, root, bound);
    assert l in Links(idx, n, bound);
    AboveIsClosed(idx, root, bound, n, l);
    forall v | v in s1.visited && v.clock < l.clock
      ensures Covered(dag, idx, bound, ids, l, 0, Elements(s1.results), v)
    {
      assert Covered(dag, idx, bound, ids, n, i, Elements(s.results), v);
      CoveredBelow(dag, idx, bound, ids, n, i, l, Elements(s.results), v);
    }
  }

  lemma CoveredBelow(
    dag: Dag, idx: Index, bound: int, ids: set<Id>, n: Id, i: nat, l: Id, results: set<Id>, v: Id)
    requires WellClocked(dag) && Shaped(idx) && n in idx && 1 <= bound < n.clock && l.clock < n.clock
    requires Covered(dag, idx, bound, ids, n, i, results, v) && At(idx, bound, n, i, l)
    ensures Covered(dag, idx, bound, ids, l, 0, results, v)
  {
    var w, j: nat :| Place(idx, bound, ids, w, j, v)
      && (Finished(dag, idx, bound, w, j, results) || Suspended(idx, bound, w, j, n.clock) || (w == n && j < i));
    if w == n && j < i {
      Follows(idx, bound, n, j, i, l);
    }
  }

  lemma Follows(idx: Index, bound: int, n: Id, j: nat, i: nat, l: Id)
    requires Shaped(idx) && n in idx && 1 <= bound < n.clock && At(idx, bound, n, i, l) && j < i
    ensures l in After(idx, n, bound, j) && Suspended(idx, bound, n, j, l.clock)
  {
    assert Links(idx, n, bound)[j + 1..][i - j - 1] == l;
  }

  /** Coming back to n. */
  lemma ComeBack(
    dag: Dag, idx: Index, root: Id, bound: int, n: Id, i: nat, l: Id, s: Search, s1: Search, s2: Search)
    requires WellClocked(dag) && Shaped(idx) && root in idx && 1 <= bound < root.clock
    requires Coming(dag, idx, root, bound, n, i, s) && At(idx, bound, n, i, l) && l.clock > bound
    requires s1 == s.(visited := s.visited + {l}) && l in idx
    requires Through(dag, idx, root, bound, l, s1, FirstAt(dag, l, bound), s2)
    ensures Coming(dag, idx, root, bound, n, i + 1, s2)
  {
    var ids := Above(idx, root, bound);
    forall v | v in s2.visited - s.visited ensures v == l || v.clock < l.clock {
      assert v != l ==> Done(dag, idx, bound, ids, Elements(s2.results), v);
    }
    assert l in Links(idx, n, bound);
    AfterVisit(dag, s, l, s2, {}, {}, bound, n.clock);
    forall v | v in s2.visited && v.clock < n.clock
      ensures Covered(dag, idx, bound, ids, n, i + 1, Elements(s2.results), v)
    {
      if v in s.visited {
        assert Covered(dag, idx, bound, ids, n, i, Elements(s.results), v);
      } else if v == l {
        assert Place(idx, bound, ids, n, i, l);
      } else {
        assert Done(dag, idx, bound, ids, Elements(s2.results), v);
      }
    }
  }

  lemma GoThroughEarly(
    dag: Dag, idx: Index, root: Id, bound: int, n: Id, l: Id, s: Search, s1: Search, rest: set<Id>, s3: Search)
    requires WellClocked(dag) && Shaped(idx) && root in idx && 1 <= bound < root.clock
    requires s1.visited == s.visited && Elements(s1.results) == Elements(s.results) + FirstAt(dag, l, bound)
    requires Through(dag, idx, root, bound, n, s1, rest, s3)
    ensures Through(dag, idx, root, bound, n, s, FirstAt(dag, l, bound) + rest, s3)
  {
    var ids := Above(idx, root, bound);
    forall v | v in s3.visited && v !in s.visited
      ensures v.clock < n.clock && Done(dag, idx, bound, ids, Elements(s3.results), v)
    {
      assert Done(dag, idx, bound, ids, Elements(s3.results), v);
    }
  }

  /** Having followed link i and the links after it. */
  lemma GoThrough(
    dag: Dag, idx: Index, root: Id, bound: int, n: Id, i: nat, l: Id, s: Search, s1: Search, s2: Search, s3: Search)
    requires WellClocked(dag) && Shaped(idx) && root in idx && 1 <= bound < root.clock
    requires n in Above(idx, root, bound) && At(idx, bound, n, i, l) && l.clock < n.clock
    requires s1 == s.(visited := s.visited + {l})
    requires Through(dag, idx, root, bound, l, s1, FirstAt(dag, l, bound), s2)
    requires Through(dag, idx, root, bound, n, s2,
               FirstOf(dag, Elements(Links(idx, n, bound)[i + 1..]), bound), s3)
    ensures Through(dag, idx, root, bound, n, s,
              FirstAt(dag, l, bound) + FirstOf(dag, Elements(Links(idx, n, bound)[i + 1..]), bound), s3)
  {
    var ids := Above(idx, root, bound);
    forall v | v in s3.visited && v !in s.visited
      ensures v.clock < n.clock && Done(dag, idx, bound, ids, Elements(s3.results), v)
    {
      if v == l {
        assert Place(idx, bound, ids, n, i, l);
        assert Finished(dag, idx, bound, n, i, Elements(s3.results));
      } else if v in s2.visited {
        assert Done(dag, idx, bound, ids, Elements(s2.results), v);
      } else {
        assert Done(dag, idx, bound, ids, Elements(s3.results), v);
      }
    }
  }

  /** A search from a message whose reachable rows are alike finds exactly the first ancestors,
      whatever it drops. */
  lemma AlikeIsExact(dag: Dag, idx: Index, key: Id, bound: int, results: seq<Id>)
    requires WellClocked(dag) && Shaped(idx) && ExactBelow(dag, idx, key.clock + 1)
    requires key in idx && 1 <= bound < key.clock && Alike(idx, key, bound)
    ensures Elements(Explore(idx, key, bound, Search(results, {})).results)
         == Elements(results) + FirstAt(dag, key, bound)
  {
    AlikeWalk(dag, idx, key, bound, key, Search(results, {}));
  }

  // ----- whole entries and whole indexes -----

  /** The searches for one row of a message read rows that are alike. */
  ghost predicate AlikeRow(dag: Dag, idx: Index, m: Id, s: int, t: int)
    requires WellClocked(dag) && Shaped(idx) && 1 <= t
  {
    forall c :: c in FirstAt(dag, m, s) && c.clock > t && c in idx ==> Alike(idx, c, t)
  }

  /** So do the searches for all its rows: row i + 1 is made from the first ancestors in row i. */
  ghost predicate AlikeRows(dag: Dag, idx: Index, m: Id, targets: seq<int>)
    requires WellClocked(dag) && Shaped(idx) && Positive(targets)
  {
    forall i: nat {:trigger AlikeStep(dag, idx, m, targets, i)} ::
      i + 1 < |targets| ==> AlikeStep(dag, idx, m, targets, i)
  }

  ghost predicate AlikeStep(dag: Dag, idx: Index, m: Id, targets: seq<int>, i: nat)
    requires WellClocked(dag) && Shaped(idx) && Positive(targets) && i + 1 < |targets|
  {
    AlikeRow(dag, idx, m, targets[i], targets[i + 1])
  }

  ghost predicate AlikeEntry(dag: Dag, idx: Index, m: Id)
    requires WellClocked(dag) && Shaped(idx)
  {
    m.clock >= 1 && AlikeRows(dag, idx, m, Targets(m))
  }

  lemma {:induction false} AlikeNextRow(
    dag: Dag, idx: Index, limit: nat, children: seq<Id>, target: int, links: seq<Id>)
    requires WellClocked(dag) && Shaped(idx) && ExactBelow(dag, idx, limit)
    requires 1 <= target && forall c :: c in children ==> c in idx && c.clock < limit
    requires forall c :: c in children && c.clock > target ==> Alike(idx, c, target)
    ensures Elements(NextRow(idx, children, target, links))
            == Elements(links) + FirstOf(dag, Elements(children), target)
    decreases |children|
  {
    if children != [] {
      var c, rest := children[0], children[1..];
      FirstOfCons(dag, children, target);
      if c.clock <= target {
        assert Elements(Add(links, c)) == Elements(links) + {c};
        AlikeNextRow(dag, idx, limit, rest, target, Add(links, c));
      } else {
        AlikeIsExact(dag, idx, c, target, links);
        AlikeNextRow(dag, idx, limit, rest, target, Explore(idx, c, target, Search(links, {})).results);
      }
    }
  }

  lemma AlikeRowExact(dag: Dag, idx: Index, m: Id, s: int, t: int, prev: seq<Id>)
    requires WellClocked(dag) && Shaped(idx) && ExactBelow(dag, idx, m.clock) && 1 <= t <= s < m.clock
    requires RowShaped(idx, s, prev) && RowExact(dag, m, s, prev) && AlikeRow(dag, idx, m, s, t)
    ensures RowExact(dag, m, t, NextRow(idx, prev, t, []))
  {
    assert forall c :: c in prev ==> c in FirstAt(dag, m, s) by {
      assert forall c :: c in prev ==> c in Elements(prev);
    }
    AlikeNextRow(dag, idx, m.clock, prev, t, []);
    FirstAtInStages(dag, m, s, t);
  }

  lemma {:induction false} AlikeRowsExact(dag: Dag, idx: Index, m: Id, targets: seq<int>, i: nat)
    requires WellClocked(dag) && Shaped(idx) && ExactBelow(dag, idx, m.clock) && m in dag
    requires Positive(targets) && Falling(targets) && ParentsIndexed(idx, targets, dag[m])
    requires i < |targets| && targets[0] == m.clock - 1 && AlikeRows(dag, idx, m, targets)
    ensures RowExact(dag, m, targets[i], Row(idx, targets, dag[m], i))
    decreases i
  {
    if i == 0 {
      ParentsComeFirst(dag, m);
    } else {
      AlikeRowsExact(dag, idx, m, targets, i - 1);
      assert AlikeStep(dag, idx, m, targets, i - 1);
      AlikeRowExact(dag, idx, m, targets[i - 1], targets[i], Row(idx, targets, dag[m], i - 1));
    }
  }

  lemma AlikeEntryExact(dag: Dag, idx: Index, m: Id)
    requires WellClocked(dag) && Shaped(idx) && ExactBelow(dag, idx, m.clock) && m in dag
    requires Ready(idx, m, dag[m]) && AlikeEntry(dag, idx, m)
    ensures EntryExact(dag, m, Entry(idx, m, dag[m]))
  {
    TargetsFall(m);
    ReadyTargets(idx, m, dag[m]);
    forall i | 0 <= i < |Targets(m)| ensures RowExact(dag, m, Targets(m)[i], Row(idx, Targets(m), dag[m], i)) {
      AlikeRowsExact(dag, idx, m, Targets(m), i);
    }
  }

  /** Storing such a message on exact rows keeps all rows exact. */
  lemma ExtendAlike(dag: Dag, idx: Index, m: Id)
    requires WellClocked(dag) && Shaped(idx) && RowsExact(dag, idx)
    requires m in dag && m !in idx && Ready(idx, m, dag[m]) && AlikeEntry(dag, idx, m)
    ensures Shaped(idx[m := Entry(idx, m, dag[m])])
    ensures RowsExact(dag, idx[m := Entry(idx, m, dag[m])])
  {
    ExtendShaped(idx, m, dag[m]);
    var big := idx[m := Entry(idx, m, dag[m])];
    forall k | k in big && EntryShaped(big, k, big[k])
      ensures forall i :: 0 <= i < |big[k]| ==> RowExact(dag, k, Targets(k)[i], big[k][i])
    {
      if k != m {
        assert EntryShaped(idx, k, idx[k]);
      } else {
        AlikeEntryExact(dag, idx, m);
      }
    }
  }

  /** A log all of whose messages are such holds exact rows only. */
  lemma AlikeBuiltIsExact(dag: Dag, idx: Index)
    requires WellClocked(dag) && Built(dag, idx)
    requires forall m {:trigger AlikeEntry(dag, idx, m)} :: m in idx ==> AlikeEntry(dag, idx, m)
    ensures RowsExact(dag, idx)
  {
    forall limit: nat ensures ExactBelow(dag, idx, limit) {
      AlikeBelow(dag, idx, limit);
    }
    ExactBelowAll(dag, idx);
  }

  lemma {:induction false} AlikeBelow(dag: Dag, idx: Index, limit: nat)
    requires WellClocked(dag) && Built(dag, idx)
    requires forall m {:trigger AlikeEntry(dag, idx, m)} :: m in idx ==> AlikeEntry(dag, idx, m)
    ensures ExactBelow(dag, idx, limit)
  {
    if limit > 0 {
      AlikeBelow(dag, idx, limit - 1);
      forall m | m in idx && m.clock == limit - 1 ensures EntryExact(dag, m, idx[m]) {
        assert BuiltAt(dag, idx, m);
        assert AlikeEntry(dag, idx, m);
        AlikeEntryExact(dag, idx, m);
      }
      ExactBelowNext(dag, idx, limit - 1);
    }
  }

  // ----- histories without merges -----

  ghost predicate Narrow(idx: Index, m: Id)
    requires m in idx
  {
    forall i :: 0 <= i < |idx[m]| ==> |idx[m][i]| <= 1
  }

  ghost predicate NarrowBelow(idx: Index, limit: int) {
    forall m {:trigger Narrow(idx, m)} :: m in idx && m.clock < limit ==> Narrow(idx, m)
  }

  lemma NarrowLinks(idx: Index, key: Id, bound: int)
    requires Shaped(idx) && key in idx && 1 <= bound < key.clock && NarrowBelow(idx, key.clock + 1)
    ensures |Links(idx, key, bound)| <= 1
  {
    assert Narrow(idx, key);
    assert EntryShaped(idx, key, idx[key]);
    RowExists(key, bound);
  }

  lemma {:induction false} NarrowExplore(idx: Index, key: Id, bound: int, visited: set<Id>)
    requires Shaped(idx) && key in idx && 1 <= bound < key.clock && NarrowBelow(idx, key.clock + 1)
    ensures |Explore(idx, key, bound, Search([], visited)).results| <= 1
    decreases key.clock
  {
    NarrowLinks(idx, key, bound);
    var links, s := Links(idx, key, bound), Search([], visited);
    if links != [] {
      var l, rest := links[0], links[1..];
      assert l in links && rest == [];
      if l.clock <= bound {
        assert ExploreLinks(idx, key.clock, rest, bound, s.(results := Add([], l))).results == [l];
      } else if l !in visited {
        var s1 := Search([], visited + {l});
        NarrowExplore(idx, l, bound, visited + {l});
        assert Explore(idx, key, bound, s) == ExploreLinks(idx, key.clock, rest, bound, Explore(idx, l, bound, s1));
      }
    }
  }

  lemma {:induction false} NarrowRow(idx: Index, limit: nat, targets: seq<int>, parents: seq<Id>, i: nat)
    requires Shaped(idx) && Positive(targets) && ParentsIndexed(idx, targets, parents) && NarrowBelow(idx, limit)
    requires |parents| <= 1 && i < |targets| && forall t :: t in targets ==> t < limit
    ensures |Row(idx, targets, parents, i)| <= 1
    decreases i
  {
    if i > 0 {
      NarrowRow(idx, limit, targets, parents, i - 1);
      var prev := Row(idx, targets, parents, i - 1);
      assert RowShaped(idx, targets[i - 1], prev) && targets[i - 1] in targets;
      NarrowNextRow(idx, limit, prev, targets[i]);
    }
  }

  lemma NarrowNextRow(idx: Index, limit: nat, children: seq<Id>, target: int)
    requires Shaped(idx) && 1 <= target && NarrowBelow(idx, limit) && |children| <= 1
    requires forall c :: c in children ==> c in idx && c.clock < limit
    ensures |NextRow(idx, children, target, [])| <= 1
  {
    if children != [] {
      var rest := children[1..];
      assert rest == [];
      if children[0].clock > target {
        NarrowExplore(idx, children[0], target, {});
      }
    }
  }

  lemma NarrowEntry(idx: Index, m: Id, parents: seq<Id>)
    requires Shaped(idx) && Ready(idx, m, parents) && |parents| <= 1 && NarrowBelow(idx, m.clock)
    ensures forall i :: 0 <= i < |Entry(idx, m, parents)| ==> |Entry(idx, m, parents)[i]| <= 1
  {
    ReadyTargets(idx, m, parents);
    var targets := Targets(m);
    assert forall t :: t in targets ==> t < m.clock;
    forall i | 0 <= i < |targets| ensures |Row(idx, targets, parents, i)| <= 1 {
      NarrowRow(idx, m.clock, targets, parents, i);
    }
  }

  lemma {:induction false} NarrowHistory(dag: Dag, idx: Index, limit: nat)
    requires WellClocked(dag) && Built(dag, idx) && forall m :: m in idx && m in dag ==> |dag[m]| <= 1
    ensures NarrowBelow(idx, limit)
  {
    if limit > 0 {
      NarrowHistory(dag, idx, limit - 1);
      forall m | m in idx && m.clock == limit - 1 ensures Narrow(idx, m) {
        assert BuiltAt(dag, idx, m);
        NarrowEntry(idx, m, dag[m]);
      }
    }
  }

  /** Without merges every row is exact: only branches that meet again can lose an ancestor. */
  lemma OneParentEachIsExact(dag: Dag, idx: Index)
    requires WellClocked(dag) && Built(dag, idx) && forall m :: m in idx && m in dag ==> |dag[m]| <= 1
    ensures RowsExact(dag, idx)
  {
    forall m | m in idx ensures AlikeEntry(dag, idx, m) {
      assert BuiltAt(dag, idx, m);
      ReadyTargets(idx, m, dag[m]);
      NarrowIsAlikeEntry(dag, idx, m, Targets(m));
    }
    AlikeBuiltIsExact(dag, idx);
  }

  lemma NarrowIsAlikeEntry(dag: Dag, idx: Index, m: Id, targets: seq<int>)
    requires WellClocked(dag) && Built(dag, idx) && forall m :: m in idx && m in dag ==> |dag[m]| <= 1
    requires Positive(targets)
    ensures AlikeRows(dag, idx, m, targets)
  {
    forall i: nat | i + 1 < |targets| ensures AlikeStep(dag, idx, m, targets, i) {
      var s, t := targets[i], targets[i + 1];
      forall c | c in FirstAt(dag, m, s) && c.clock > t && c in idx ensures Alike(idx, c, t) {
        NarrowIsAlike(dag, idx, c, t);
      }
    }
  }

  lemma NarrowIsAlike(dag: Dag, idx: Index, key: Id, bound: int)
    requires WellClocked(dag) && Built(dag, idx) && forall m :: m in idx && m in dag ==> |dag[m]| <= 1
    requires key in idx && 1 <= bound < key.clock
    ensures Alike(idx, key, bound)
  {
    forall n, i: nat | n in Above(idx, key, bound) && i < |Links(idx, n, bound)| ensures !GoesOn(idx, bound, n, i) {
      NarrowHistory(dag, idx, n.clock + 1);
      NarrowLinks(idx, n, bound);
    }
    UnsharedIsAlike(idx, key, bound);
  }
}
