/** What the ancestor index holds, and when the searches over it are right. */
module AncestorSearch {
  import opened Positional
  import opened MessageKeys
  import opened AncestorClocks
  import opened CausalHistory
  import opened AncestorIndex

  /** No row holds anything but first ancestors at or before its target. */
  ghost predicate RowsSound(dag: Dag, idx: Index)
    requires WellClocked(dag) && Shaped(idx)
  {
    forall m {:trigger EntryShaped(idx, m, idx[m])} :: m in idx && EntryShaped(idx, m, idx[m]) ==>
      forall i :: 0 <= i < |idx[m]| ==> RowSound(dag, m, Targets(m)[i], idx[m][i])
  }

  ghost predicate RowSound(dag: Dag, m: Id, target: int, row: seq<Id>)
    requires WellClocked(dag)
  {
    Elements(row) <= FirstAt(dag, m, target)
  }

  /** Every row holds exactly the first ancestors at or before its target. */
  ghost predicate RowsExact(dag: Dag, idx: Index)
    requires WellClocked(dag) && Shaped(idx)
  {
    forall m {:trigger EntryShaped(idx, m, idx[m])} :: m in idx && EntryShaped(idx, m, idx[m]) ==>
      forall i :: 0 <= i < |idx[m]| ==> RowExact(dag, m, Targets(m)[i], idx[m][i])
  }

  ghost predicate RowExact(dag: Dag, m: Id, target: int, row: seq<Id>)
    requires WellClocked(dag)
  {
    Elements(row) == FirstAt(dag, m, target)
  }

  /** The rows of the messages below a clock are exact. */
  ghost predicate ExactBelow(dag: Dag, idx: Index, limit: int)
    requires WellClocked(dag) && Shaped(idx)
  {
    forall m {:trigger EntryShaped(idx, m, idx[m])} :: m in idx && m.clock < limit && EntryShaped(idx, m, idx[m]) ==>
      forall i :: 0 <= i < |idx[m]| ==> RowExact(dag, m, Targets(m)[i], idx[m][i])
  }

  ghost predicate EntryExact(dag: Dag, m: Id, rows: seq<seq<Id>>)
    requires WellClocked(dag)
  {
    m.clock >= 1 && |rows| == |Targets(m)|
    && forall i :: 0 <= i < |rows| ==> RowExact(dag, m, Targets(m)[i], rows[i])
  }

  lemma ExactBelowNext(dag: Dag, idx: Index, limit: nat)
    requires WellClocked(dag) && Shaped(idx) && ExactBelow(dag, idx, limit)
    requires forall m {:trigger EntryExact(dag, m, idx[m])} ::
               m in idx && m.clock == limit ==> EntryExact(dag, m, idx[m])
    ensures ExactBelow(dag, idx, limit + 1)
  {
    forall m | m in idx && m.clock < limit + 1 && EntryShaped(idx, m, idx[m])
      ensures forall i :: 0 <= i < |idx[m]| ==> RowExact(dag, m, Targets(m)[i], idx[m][i])
    {
      if m.clock == limit {
        assert EntryExact(dag, m, idx[m]);
      }
    }
  }

  lemma ExactBelowAll(dag: Dag, idx: Index)
    requires WellClocked(dag) && Shaped(idx) && forall limit: nat :: ExactBelow(dag, idx, limit)
    ensures RowsExact(dag, idx)
  {
    forall m | m in idx && EntryShaped(idx, m, idx[m])
      ensures forall i :: 0 <= i < |idx[m]| ==> RowExact(dag, m, Targets(m)[i], idx[m][i])
    {
      assert ExactBelow(dag, idx, m.clock + 1);
    }
  }

  lemma LinksSound(dag: Dag, idx: Index, key: Id, bound: int)
    requires WellClocked(dag) && Shaped(idx) && RowsSound(dag, idx) && key in idx && 1 <= bound < key.clock
    ensures FirstOf(dag, Elements(Links(idx, key, bound)), bound) <= FirstAt(dag, key, bound)
  {
    var i := RowNumber(key, bound);
    RowExists(key, bound);
    assert EntryShaped(idx, key, idx[key]);
    FirstAtInStages(dag, key, Targets(key)[i], bound);
  }

  lemma LinksExact(dag: Dag, idx: Index, key: Id, bound: int)
    requires WellClocked(dag) && Shaped(idx) && ExactBelow(dag, idx, key.clock + 1)
    requires key in idx && 1 <= bound < key.clock
    ensures FirstOf(dag, Elements(Links(idx, key, bound)), bound) == FirstAt(dag, key, bound)
  {
    var i := RowNumber(key, bound);
    RowExists(key, bound);
    assert EntryShaped(idx, key, idx[key]);
    FirstAtInStages(dag, key, Targets(key)[i], bound);
  }

  // ----- soundness: what is found is right -----

  /** A search over sound rows finds only first ancestors. */
  lemma {:induction false} ExploreSound(dag: Dag, idx: Index, key: Id, bound: int, s: Search)
    requires WellClocked(dag) && Shaped(idx) && RowsSound(dag, idx) && key in idx && 1 <= bound < key.clock
    ensures Elements(Explore(idx, key, bound, s).results) <= Elements(s.results) + FirstAt(dag, key, bound)
    decreases key.clock, 1, 0
  {
    LinksSound(dag, idx, key, bound);
    ExploreLinksSound(dag, idx, key.clock, Links(idx, key, bound), bound, s);
  }

  lemma {:induction false} ExploreLinksSound(dag: Dag, idx: Index, limit: nat, links: seq<Id>, bound: int, s: Search)
    requires WellClocked(dag) && Shaped(idx) && RowsSound(dag, idx)
    requires 1 <= bound && forall l :: l in links ==> l in idx && l.clock < limit
    ensures Elements(ExploreLinks(idx, limit, links, bound, s).results)
         <= Elements(s.results) + FirstOf(dag, Elements(links), bound)
    decreases limit, 0, |links|
  {
    if links != [] {
      var l, rest := links[0], links[1..];
      FirstOfCons(dag, links, bound);
      if l.clock <= bound {
        ExploreLinksSound(dag, idx, limit, rest, bound, s.(results := Add(s.results, l)));
      } else if l !in s.visited {
        var s' := s.(visited := s.visited + {l});
        ExploreSound(dag, idx, l, bound, s');
        ExploreLinksSound(dag, idx, limit, rest, bound, Explore(idx, l, bound, s'));
      }
    }
  }

  lemma FirstOfCons(dag: Dag, links: seq<Id>, bound: int)
    requires WellClocked(dag) && links != []
    ensures FirstOf(dag, Elements(links), bound)
         == FirstAt(dag, links[0], bound) + FirstOf(dag, Elements(links[1..]), bound)
  {
  }

  lemma {:induction false} NextRowSound(dag: Dag, idx: Index, children: seq<Id>, target: int, links: seq<Id>)
    requires WellClocked(dag) && Shaped(idx) && RowsSound(dag, idx)
    requires 1 <= target && forall c :: c in children ==> c in idx
    ensures Elements(NextRow(idx, children, target, links))
         <= Elements(links) + FirstOf(dag, Elements(children), target)
    decreases |children|
  {
    if children != [] {
      var c, rest := children[0], children[1..];
      FirstOfCons(dag, children, target);
      if c.clock <= target {
        NextRowSound(dag, idx, rest, target, Add(links, c));
      } else {
        ExploreSound(dag, idx, c, target, Search(links, {}));
        NextRowSound(dag, idx, rest, target, Explore(idx, c, target, Search(links, {})).results);
      }
    }
  }

  /** The rows built for a new message from sound rows are sound: each stored link is a
      first ancestor within the row's bound, whatever the search dropped. */
  lemma {:induction false} NewRowSound(dag: Dag, idx: Index, m: Id, targets: seq<int>, i: nat)
    requires WellClocked(dag) && Shaped(idx) && RowsSound(dag, idx) && m in dag
    requires Positive(targets) && Falling(targets) && ParentsIndexed(idx, targets, dag[m])
    requires i < |targets| && targets[0] == m.clock - 1
    ensures RowSound(dag, m, targets[i], Row(idx, targets, dag[m], i))
    decreases i
  {
    if i == 0 {
      ParentsComeFirst(dag, m);
    } else {
      NewRowSound(dag, idx, m, targets, i - 1);
      StepSound(dag, idx, m, targets[i - 1], targets[i], Row(idx, targets, dag[m], i - 1));
    }
  }

  ghost predicate Falling(targets: seq<int>) {
    forall i, j :: 0 <= i < j < |targets| ==> targets[j] <= targets[i]
  }

  lemma TargetsFall(m: Id)
    requires m.clock >= 1
    ensures Falling(Targets(m)) && (Targets(m) != [] ==> Targets(m)[0] == m.clock - 1)
  {
    forall i, j | 0 <= i < j < |Targets(m)| ensures Targets(m)[j] <= Targets(m)[i] {
      PowerMonotone(i, j);
    }
  }

  lemma StepSound(dag: Dag, idx: Index, m: Id, s: int, t: int, prev: seq<Id>)
    requires WellClocked(dag) && Shaped(idx) && RowsSound(dag, idx)
    requires 1 <= t <= s && RowShaped(idx, s, prev) && RowSound(dag, m, s, prev)
    ensures RowSound(dag, m, t, NextRow(idx, prev, t, []))
  {
    NextRowSound(dag, idx, prev, t, []);
    FirstAtInStages(dag, m, s, t);
    assert FirstOf(dag, Elements(prev), t) <= FirstOf(dag, FirstAt(dag, m, s), t);
  }

  lemma ParentsComeFirst(dag: Dag, m: Id)
    requires WellClocked(dag) && m in dag
    ensures FirstAt(dag, m, m.clock - 1) == Elements(dag[m])
  {
    forall p | p in dag[m] ensures FirstAt(dag, p, m.clock - 1) == {p} {
    }
  }

  // ----- conservation: what is found and what dropped links lead to is everything -----

  /** The visited links whose search is over have all their first ancestors accounted for. */
  ghost predicate Accounted(dag: Dag, s: Search, lost: set<Id>, bound: int, limit: nat)
    requires WellClocked(dag)
  {
    forall v :: v in s.visited && v.clock < limit ==> FirstAt(dag, v, bound) <= Elements(s.results) + lost
  }

  lemma {:induction false} ExploreConserves(dag: Dag, idx: Index, key: Id, bound: int, s: Search, lost: set<Id>)
    requires WellClocked(dag) && Shaped(idx) && ExactBelow(dag, idx, key.clock + 1)
    requires key in idx && 1 <= bound < key.clock
    requires Accounted(dag, s, lost, bound, key.clock)
    ensures var s' := Explore(idx, key, bound, s);
            var lost' := lost + FirstOf(dag, Dropped(idx, key, bound, s), bound);
            Elements(s'.results) + lost' == Elements(s.results) + lost + FirstAt(dag, key, bound)
            && Accounted(dag, s', lost', bound, key.clock)
            && s.visited <= s'.visited && (forall v :: v in s'.visited - s.visited ==> v.clock < key.clock)
    decreases key.clock, 1, 0
  {
    LinksExact(dag, idx, key, bound);
    ExploreLinksConserves(dag, idx, key.clock, Links(idx, key, bound), bound, s, lost);
  }

  lemma {:induction false} ExploreLinksConserves(
    dag: Dag, idx: Index, limit: nat, links: seq<Id>, bound: int, s: Search, lost: set<Id>)
    requires WellClocked(dag) && Shaped(idx) && ExactBelow(dag, idx, limit)
    requires 1 <= bound && forall l :: l in links ==> l in idx && l.clock < limit
    requires Accounted(dag, s, lost, bound, limit)
    ensures var s' := ExploreLinks(idx, limit, links, bound, s);
            var lost' := lost + FirstOf(dag, DroppedLinks(idx, limit, links, bound, s), bound);
            Elements(s'.results) + lost' == Elements(s.results) + lost + FirstOf(dag, Elements(links), bound)
            && Accounted(dag, s', lost', bound, limit)
            && s.visited <= s'.visited && (forall v :: v in s'.visited - s.visited ==> v.clock < limit)
    decreases limit, 0, |links|
  {
    if links != [] {
      var l, rest := links[0], links[1..];
      FirstOfCons(dag, links, bound);
      if l.clock <= bound {
        var s1 := s.(results := Add(s.results, l));
        assert Elements(s1.results) == Elements(s.results) + {l};
        ExploreLinksConserves(dag, idx, limit, rest, bound, s1, lost);
      } else if l in s.visited {
        ReturnConserves(dag, links, bound, s, lost, limit);
      } else {
        var s1 := s.(visited := s.visited + {l});
        ExploreConserves(dag, idx, l, bound, s1, lost);
        var s2, d1 := Explore(idx, l, bound, s1), Dropped(idx, l, bound, s1);
        var lost2 := lost + FirstOf(dag, d1, bound);
        AfterVisit(dag, s, l, s2, lost, lost2, bound, limit);
        ExploreLinksConserves(dag, idx, limit, rest, bound, s2, lost2);
        var s3, d2 := ExploreLinks(idx, limit, rest, bound, s2), DroppedLinks(idx, limit, rest, bound, s2);
        FirstOfUnion(dag, d1, d2, bound);
        Chain(Elements(s.results), Elements(s2.results), Elements(s3.results), lost,
          FirstOf(dag, d1, bound), FirstOf(dag, d2, bound),
          FirstAt(dag, l, bound), FirstOf(dag, Elements(rest), bound));
      }
    }
  }

  lemma Chain(
    a: set<Id>, a2: set<Id>, a3: set<Id>, lost: set<Id>, o1: set<Id>, o2: set<Id>, f: set<Id>, g: set<Id>)
    requires a2 + (lost + o1) == a + lost + f
    requires a3 + (lost + o1 + o2) == a2 + (lost + o1) + g
    ensures a3 + (lost + (o1 + o2)) == a + lost + (f + g)
    ensures lost + o1 + o2 == lost + (o1 + o2)
  {
  }

  /** Returning at a visited link: the link itself is accounted for, the rest is dropped. */
  lemma ReturnConserves(dag: Dag, links: seq<Id>, bound: int, s: Search, lost: set<Id>, limit: nat)
    requires WellClocked(dag) && links != [] && Accounted(dag, s, lost, bound, limit)
    requires links[0] in s.visited && links[0].clock < limit
    ensures Elements(s.results) + (lost + FirstOf(dag, Elements(links[1..]), bound))
         == Elements(s.results) + lost + FirstOf(dag, Elements(links), bound)
    ensures Accounted(dag, s, lost + FirstOf(dag, Elements(links[1..]), bound), bound, limit)
  {
  }

  lemma FirstOfUnion(dag: Dag, a: set<Id>, b: set<Id>, bound: int)
    requires WellClocked(dag)
    ensures FirstOf(dag, a + b, bound) == FirstOf(dag, a, bound) + FirstOf(dag, b, bound)
  {
  }

  /** After the visit of l, l and everything visited before and during it is accounted for. */
  lemma AfterVisit(
    dag: Dag, s: Search, l: Id, s2: Search, lost: set<Id>, lost2: set<Id>, bound: int, limit: nat)
    requires WellClocked(dag) && l.clock < limit && lost <= lost2
    requires Accounted(dag, s, lost, bound, limit) && Accounted(dag, s2, lost2, bound, l.clock)
    requires Elements(s2.results) + lost2 == Elements(s.results) + lost2 + FirstAt(dag, l, bound)
    requires forall v :: v in s2.visited - s.visited ==> v == l || v.clock < l.clock
    ensures Accounted(dag, s2, lost2, bound, limit)
  {
  }

  /** Everything a top-level search finds, together with what its dropped links lead to,
      is exactly the set of first ancestors. */
  lemma SearchConserves(dag: Dag, idx: Index, key: Id, bound: int, results: seq<Id>)
    requires WellClocked(dag) && Shaped(idx) && ExactBelow(dag, idx, key.clock + 1)
    requires key in idx && 1 <= bound < key.clock
    ensures var s := Search(results, {});
            Elements(Explore(idx, key, bound, s).results) + FirstOf(dag, Dropped(idx, key, bound, s), bound)
            == Elements(results) + FirstAt(dag, key, bound)
  {
    ExploreConserves(dag, idx, key, bound, Search(results, {}), {});
  }

  /** `getAncestors` is exact if and only if the links it drops lead nowhere new. */
  lemma SearchExactIff(dag: Dag, idx: Index, key: Id, bound: int)
    requires WellClocked(dag) && Shaped(idx) && ExactBelow(dag, idx, key.clock + 1)
    requires key in idx && 1 <= bound < key.clock
    ensures var s := Search([], {});
            var found := Elements(Explore(idx, key, bound, s).results);
            found <= FirstAt(dag, key, bound)
            && (found == FirstAt(dag, key, bound)
                <==> forall l :: l in Dropped(idx, key, bound, s) ==> FirstAt(dag, l, bound) <= found)
  {
    SearchConserves(dag, idx, key, bound, []);
    var s := Search([], {});
    var found, dropped := Elements(Explore(idx, key, bound, s).results), Dropped(idx, key, bound, s);
    if found == FirstAt(dag, key, bound) {
      forall l | l in dropped ensures FirstAt(dag, l, bound) <= found {
        assert FirstAt(dag, l, bound) <= FirstOf(dag, dropped, bound);
      }
    }
  }

  lemma Link(a: set<Id>, a2: set<Id>, a3: set<Id>, o1: set<Id>, o2: set<Id>, f: set<Id>, g: set<Id>)
    requires a2 + o1 == a + f && a3 + o2 == a2 + g
    ensures a3 + (o1 + o2) == a + (f + g)
  {
  }

  lemma {:induction false} NextRowConserves(
    dag: Dag, idx: Index, limit: nat, children: seq<Id>, target: int, links: seq<Id>)
    requires WellClocked(dag) && Shaped(idx) && ExactBelow(dag, idx, limit)
    requires 1 <= target && forall c :: c in children ==> c in idx && c.clock < limit
    ensures Elements(NextRow(idx, children, target, links))
            + FirstOf(dag, NextRowDropped(idx, children, target, links), target)
         == Elements(links) + FirstOf(dag, Elements(children), target)
    decreases |children|
  {
    if children != [] {
      var c, rest := children[0], children[1..];
      FirstOfCons(dag, children, target);
      if c.clock <= target {
        assert Elements(Add(links, c)) == Elements(links) + {c};
        NextRowConserves(dag, idx, limit, rest, target, Add(links, c));
      } else {
        var s := Search(links, {});
        var links2, d1 := Explore(idx, c, target, s).results, Dropped(idx, c, target, s);
        SearchConserves(dag, idx, c, target, links);
        NextRowConserves(dag, idx, limit, rest, target, links2);
        var links3, d2 := NextRow(idx, rest, target, links2), NextRowDropped(idx, rest, target, links2);
        FirstOfUnion(dag, d1, d2, target);
        Link(Elements(links), Elements(links2), Elements(links3),
          FirstOf(dag, d1, target), FirstOf(dag, d2, target),
          FirstAt(dag, c, target), FirstOf(dag, Elements(rest), target));
      }
    }
  }

  /** The links dropped while row i of a new message is built. */
  ghost function DroppedAt(idx: Index, targets: seq<int>, parents: seq<Id>, i: nat): set<Id>
    requires Shaped(idx) && Positive(targets) && ParentsIndexed(idx, targets, parents) && i < |targets|
  {
    if i == 0 then {} else NextRowDropped(idx, Row(idx, targets, parents, i - 1), targets[i], [])
  }

  /** Nothing reachable only through a dropped link is missing from row i. */
  ghost predicate Lossless(dag: Dag, idx: Index, targets: seq<int>, parents: seq<Id>, i: nat)
    requires WellClocked(dag)
    requires Shaped(idx) && Positive(targets) && ParentsIndexed(idx, targets, parents) && i < |targets|
  {
    forall l :: l in DroppedAt(idx, targets, parents, i) ==>
      FirstAt(dag, l, targets[i]) <= Elements(Row(idx, targets, parents, i))
  }

  /** One row, given that the row before it is exact. */
  lemma StepExactIff(dag: Dag, idx: Index, m: Id, targets: seq<int>, i: nat)
    requires WellClocked(dag) && Shaped(idx) && ExactBelow(dag, idx, m.clock) && m in dag
    requires Positive(targets) && Falling(targets) && ParentsIndexed(idx, targets, dag[m])
    requires 0 < i < |targets| && RowExact(dag, m, targets[i - 1], Row(idx, targets, dag[m], i - 1))
    requires targets[0] < m.clock
    ensures RowExact(dag, m, targets[i], Row(idx, targets, dag[m], i)) <==> Lossless(dag, idx, targets, dag[m], i)
  {
    var prev, t := Row(idx, targets, dag[m], i - 1), targets[i];
    var row, dropped := Row(idx, targets, dag[m], i), DroppedAt(idx, targets, dag[m], i);
    NextRowConserves(dag, idx, m.clock, prev, t, []);
    FirstAtInStages(dag, m, targets[i - 1], t);
    assert Elements(row) + FirstOf(dag, dropped, t) == FirstAt(dag, m, t);
    forall l | l in dropped ensures FirstAt(dag, l, t) <= FirstOf(dag, dropped, t) {
    }
  }

  /** Exact rows lose nothing. */
  lemma ExactIsLossless(dag: Dag, idx: Index, m: Id, targets: seq<int>, i: nat)
    requires WellClocked(dag) && Shaped(idx) && ExactBelow(dag, idx, m.clock) && m in dag
    requires Positive(targets) && Falling(targets) && ParentsIndexed(idx, targets, dag[m]) && i < |targets|
    requires i > 0 ==> RowExact(dag, m, targets[i - 1], Row(idx, targets, dag[m], i - 1))
    requires RowExact(dag, m, targets[i], Row(idx, targets, dag[m], i))
    requires targets[0] < m.clock
    ensures Lossless(dag, idx, targets, dag[m], i)
  {
    if i > 0 {
      StepExactIff(dag, idx, m, targets, i);
    }
  }

  /** Rows that lose nothing, up to row i, make row i exact. */
  lemma {:induction false} LosslessIsExact(dag: Dag, idx: Index, m: Id, targets: seq<int>, i: nat)
    requires WellClocked(dag) && Shaped(idx) && ExactBelow(dag, idx, m.clock) && m in dag
    requires Positive(targets) && Falling(targets) && ParentsIndexed(idx, targets, dag[m])
    requires i < |targets| && targets[0] == m.clock - 1
    requires forall j :: 0 <= j <= i ==> Lossless(dag, idx, targets, dag[m], j)
    ensures RowExact(dag, m, targets[i], Row(idx, targets, dag[m], i))
    decreases i
  {
    if i == 0 {
      ParentsComeFirst(dag, m);
    } else {
      LosslessIsExact(dag, idx, m, targets, i - 1);
      StepExactIff(dag, idx, m, targets, i);
    }
  }

  // ----- the whole index, message by message -----

  /** Adding a message's entry keeps the index well shaped and sound. */
  lemma ExtendSound(dag: Dag, idx: Index, m: Id)
    requires WellClocked(dag) && Shaped(idx) && RowsSound(dag, idx)
    requires m in dag && m !in idx && Ready(idx, m, dag[m])
    ensures Shaped(idx[m := Entry(idx, m, dag[m])])
    ensures RowsSound(dag, idx[m := Entry(idx, m, dag[m])])
  {
    ExtendShaped(idx, m, dag[m]);
    var big := idx[m := Entry(idx, m, dag[m])];
    TargetsFall(m);
    ReadyTargets(idx, m, dag[m]);
    forall k | k in big && EntryShaped(big, k, big[k])
      ensures forall i :: 0 <= i < |big[k]| ==> RowSound(dag, k, Targets(k)[i], big[k][i])
    {
      if k != m {
        assert EntryShaped(idx, k, idx[k]);
      } else {
        forall i | 0 <= i < |big[k]| ensures RowSound(dag, k, Targets(k)[i], big[k][i]) {
          NewRowSound(dag, idx, m, Targets(m), i);
        }
      }
    }
  }

  lemma ExtendShaped(idx: Index, m: Id, parents: seq<Id>)
    requires Shaped(idx) && Ready(idx, m, parents)
    requires m !in idx || idx[m] == Entry(idx, m, parents)
    ensures Shaped(idx[m := Entry(idx, m, parents)])
  {
    var big := idx[m := Entry(idx, m, parents)];
    forall k | k in big ensures EntryShaped(big, k, big[k]) {
      if k != m {
        assert EntryShaped(idx, k, idx[k]);
        forall i | 0 <= i < |big[k]| ensures RowShaped(big, Targets(k)[i], big[k][i]) {
          assert RowShaped(idx, Targets(k)[i], idx[k][i]);
        }
      } else {
        forall i | 0 <= i < |big[k]| ensures RowShaped(big, Targets(k)[i], big[k][i]) {
          assert RowShaped(idx, Targets(k)[i], Entry(idx, m, parents)[i]);
        }
      }
    }
  }

  /** The new message's searches lose nothing. */
  ghost predicate LosslessEntry(dag: Dag, idx: Index, m: Id)
    requires WellClocked(dag) && Shaped(idx) && m in dag && Ready(idx, m, dag[m])
  {
    ReadyTargets(idx, m, dag[m]);
    forall i :: 0 <= i < |Targets(m)| ==> Lossless(dag, idx, Targets(m), dag[m], i)
  }

  /** Adding a message's entry keeps the index exact if and only if its searches lose nothing. */
  lemma ExtendExactIff(dag: Dag, idx: Index, m: Id)
    requires WellClocked(dag) && Shaped(idx) && RowsExact(dag, idx)
    requires m in dag && m !in idx && Ready(idx, m, dag[m])
    ensures Shaped(idx[m := Entry(idx, m, dag[m])])
    ensures RowsExact(dag, idx[m := Entry(idx, m, dag[m])]) <==> LosslessEntry(dag, idx, m)
  {
    ExtendShaped(idx, m, dag[m]);
    TargetsFall(m);
    ReadyTargets(idx, m, dag[m]);
    var big, targets := idx[m := Entry(idx, m, dag[m])], Targets(m);
    if RowsExact(dag, big) {
      assert EntryShaped(big, m, big[m]);
      forall i | 0 <= i < |targets| ensures Lossless(dag, idx, targets, dag[m], i) {
        assert RowExact(dag, m, targets[i], big[m][i]);
        assert i > 0 ==> RowExact(dag, m, targets[i - 1], big[m][i - 1]);
        ExactIsLossless(dag, idx, m, targets, i);
      }
    }
    if LosslessEntry(dag, idx, m) {
      forall i | 0 <= i < |targets| ensures RowExact(dag, m, targets[i], big[m][i]) {
        LosslessIsExact(dag, idx, m, targets, i);
      }
      forall k | k in big && EntryShaped(big, k, big[k])
        ensures forall i :: 0 <= i < |big[k]| ==> RowExact(dag, k, Targets(k)[i], big[k][i])
      {
        if k != m {
          assert EntryShaped(idx, k, idx[k]);
        }
      }
    }
  }
}
