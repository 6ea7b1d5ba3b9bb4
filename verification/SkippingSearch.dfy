/** The ancestor search with a visited link skipped, as isAncestor skips it, instead of
    ending the row: every index built with it holds exactly the first ancestors. */
module SkippingSearch {
  import opened MessageKeys
  import opened AncestorClocks
  import opened CausalHistory
  import opened AncestorIndex
  import opened AncestorSearch
  import opened Delivery

  ghost function Skim(idx: Index, key: Id, bound: int, s: Search): Search
    requires Shaped(idx) && key in idx && 1 <= bound < key.clock
    decreases key.clock, 1, 0
  {
    SkimLinks(idx, key.clock, Links(idx, key, bound), bound, s)
  }

  ghost function SkimLinks(idx: Index, limit: nat, links: seq<Id>, bound: int, s: Search): Search
    requires Shaped(idx) && 1 <= bound && forall l :: l in links ==> l in idx && l.clock < limit
    decreases limit, 0, |links|
  {
    if links == [] then s
    else if links[0].clock <= bound then
      SkimLinks(idx, limit, links[1..], bound, s.(results := Add(s.results, links[0])))
    else if links[0] in s.visited then SkimLinks(idx, limit, links[1..], bound, s)
    else SkimLinks(idx, limit, links[1..], bound, Skim(idx, links[0], bound, s.(visited := s.visited + {links[0]})))
  }

  /** Everything the search adds, and what it may assume of the links it has visited. */
  lemma {:induction false} SkimExact(dag: Dag, idx: Index, key: Id, bound: int, s: Search)
    requires WellClocked(dag) && Shaped(idx) && ExactBelow(dag, idx, key.clock + 1)
    requires key in idx && 1 <= bound < key.clock
    requires Accounted(dag, s, {}, bound, key.clock)
    ensures var s' := Skim(idx, key, bound, s);
            Elements(s'.results) == Elements(s.results) + FirstAt(dag, key, bound)
            && Accounted(dag, s', {}, bound, key.clock)
            && (forall v :: v in s'.visited - s.visited ==> v.clock < key.clock)
    decreases key.clock, 1, 0
  {
    LinksExact(dag, idx, key, bound);
    SkimLinksExact(dag, idx, key.clock, Links(idx, key, bound), bound, s);
  }

  lemma {:induction false} SkimLinksExact(dag: Dag, idx: Index, limit: nat, links: seq<Id>, bound: int, s: Search)
    requires WellClocked(dag) && Shaped(idx) && ExactBelow(dag, idx, limit)
    requires 1 <= bound && forall l :: l in links ==> l in idx && l.clock < limit
    requires Accounted(dag, s, {}, bound, limit)
    ensures var s' := SkimLinks(idx, limit, links, bound, s);
            Elements(s'.results) == Elements(s.results) + FirstOf(dag, Elements(links), bound)
            && Accounted(dag, s', {}, bound, limit)
            && (forall v :: v in s'.visited - s.visited ==> v.clock < limit)
    decreases limit, 0, |links|
  {
    if links != [] {
      var l, rest := links[0], links[1..];
      FirstOfCons(dag, links, bound);
      if l.clock <= bound {
        var s1 := s.(results := Add(s.results, l));
        assert Elements(s1.results) == Elements(s.results) + {l};
        SkimLinksExact(dag, idx, limit, rest, bound, s1);
      } else if l in s.visited {
        assert FirstAt(dag, l, bound) <= Elements(s.results) + {};
        SkimLinksExact(dag, idx, limit, rest, bound, s);
      } else {
        var s1 := s.(visited := s.visited + {l});
        SkimExact(dag, idx, l, bound, s1);
        var s2 := Skim(idx, l, bound, s1);
        AfterVisit(dag, s, l, s2, {}, {}, bound, limit);
        SkimLinksExact(dag, idx, limit, rest, bound, s2);
      }
    }
  }

  /** One row from the previous one. */
  ghost function SkimRow(idx: Index, children: seq<Id>, target: int, links: seq<Id>): seq<Id>
    requires Shaped(idx) && 1 <= target && forall c :: c in children ==> c in idx
    decreases |children|
  {
    if children == [] then links
    else
      var c := children[0];
      SkimRow(idx, children[1..], target,
        if c.clock <= target then Add(links, c) else Skim(idx, c, target, Search(links, {})).results)
  }

  lemma {:induction false} SkimRowExact(
    dag: Dag, idx: Index, limit: nat, children: seq<Id>, target: int, links: seq<Id>)
    requires WellClocked(dag) && Shaped(idx) && ExactBelow(dag, idx, limit)
    requires 1 <= target && forall c :: c in children ==> c in idx && c.clock < limit
    ensures Elements(SkimRow(idx, children, target, links))
            == Elements(links) + FirstOf(dag, Elements(children), target)
    decreases |children|
  {
    if children != [] {
      var c, rest := children[0], children[1..];
      FirstOfCons(dag, children, target);
      if c.clock <= target {
        assert Elements(Add(links, c)) == Elements(links) + {c};
        SkimRowExact(dag, idx, limit, rest, target, Add(links, c));
      } else {
        SkimExact(dag, idx, c, target, Search(links, {}));
        SkimRowExact(dag, idx, limit, rest, target, Skim(idx, c, target, Search(links, {})).results);
      }
    }
  }

  lemma {:induction false} SkimShaped(idx: Index, key: Id, bound: int, s: Search)
    requires Shaped(idx) && key in idx && 1 <= bound < key.clock
    ensures forall l :: l in Skim(idx, key, bound, s).results ==> l in s.results || (l in idx && l.clock <= bound)
    decreases key.clock, 1, 0
  {
    SkimLinksShaped(idx, key.clock, Links(idx, key, bound), bound, s);
  }

  lemma {:induction false} SkimLinksShaped(idx: Index, limit: nat, links: seq<Id>, bound: int, s: Search)
    requires Shaped(idx) && 1 <= bound && forall l :: l in links ==> l in idx && l.clock < limit
    ensures forall l :: l in SkimLinks(idx, limit, links, bound, s).results ==>
              l in s.results || (l in idx && l.clock <= bound)
    decreases limit, 0, |links|
  {
    if links != [] {
      if links[0].clock <= bound {
        SkimLinksShaped(idx, limit, links[1..], bound, s.(results := Add(s.results, links[0])));
      } else if links[0] in s.visited {
        SkimLinksShaped(idx, limit, links[1..], bound, s);
      } else {
        var s' := s.(visited := s.visited + {links[0]});
        SkimShaped(idx, links[0], bound, s');
        SkimLinksShaped(idx, limit, links[1..], bound, Skim(idx, links[0], bound, s'));
      }
    }
  }

  lemma {:induction false} SkimRowShaped(idx: Index, children: seq<Id>, target: int, links: seq<Id>)
    requires Shaped(idx) && 1 <= target && forall c :: c in children ==> c in idx
    ensures forall l :: l in SkimRow(idx, children, target, links) ==> l in links || (l in idx && l.clock <= target)
    decreases |children|
  {
    if children != [] {
      var c := children[0];
      if c.clock > target {
        SkimShaped(idx, c, target, Search(links, {}));
      }
      SkimRowShaped(idx, children[1..], target,
        if c.clock <= target then Add(links, c) else Skim(idx, c, target, Search(links, {})).results);
    }
  }

  // ----- the entry of a message, and whole indexes -----

  /** Row i: row 0 holds the parents, and every later row is made from the one before it. */
  ghost function SkimmedRow(idx: Index, targets: seq<int>, parents: seq<Id>, i: nat): (row: seq<Id>)
    requires Shaped(idx) && Positive(targets) && ParentsIndexed(idx, targets, parents) && i < |targets|
    ensures RowShaped(idx, targets[i], row)
    decreases i
  {
    if i == 0 then parents
    else
      var prev := SkimmedRow(idx, targets, parents, i - 1);
      SkimRowShaped(idx, prev, targets[i], []);
      SkimRow(idx, prev, targets[i], [])
  }

  ghost predicate SkimmedEntry(idx: Index, m: Id, parents: seq<Id>, rows: seq<seq<Id>>)
    requires Shaped(idx) && Ready(idx, m, parents)
  {
    ReadyTargets(idx, m, parents);
    |rows| == |Targets(m)| && forall i :: 0 <= i < |rows| ==> rows[i] == SkimmedRow(idx, Targets(m), parents, i)
  }

  /** Every entry is the one the skipping search computes from the entries before it. */
  ghost predicate SkimBuilt(dag: Dag, idx: Index)
    requires WellClocked(dag)
  {
    Shaped(idx) && forall m {:trigger SkimBuiltAt(dag, idx, m)} :: m in idx ==> SkimBuiltAt(dag, idx, m)
  }

  ghost predicate SkimBuiltAt(dag: Dag, idx: Index, m: Id)
    requires WellClocked(dag) && Shaped(idx) && m in idx
  {
    m in dag && Ready(idx, m, dag[m]) && SkimmedEntry(idx, m, dag[m], idx[m])
  }

  /** Row i holds exactly the first ancestors at or before its target clock, along every path,
      if the rows of all earlier messages do. */
  lemma {:induction false} SkimmedRowExact(dag: Dag, idx: Index, m: Id, targets: seq<int>, i: nat)
    requires WellClocked(dag) && Shaped(idx) && ExactBelow(dag, idx, m.clock) && m in dag
    requires Positive(targets) && Falling(targets) && ParentsIndexed(idx, targets, dag[m])
    requires i < |targets| && targets[0] == m.clock - 1
    ensures RowExact(dag, m, targets[i], SkimmedRow(idx, targets, dag[m], i))
    decreases i
  {
    if i == 0 {
      ParentsComeFirst(dag, m);
    } else {
      SkimmedRowExact(dag, idx, m, targets, i - 1);
      SkimRowExact(dag, idx, m.clock, SkimmedRow(idx, targets, dag[m], i - 1), targets[i], []);
      FirstAtInStages(dag, m, targets[i - 1], targets[i]);
    }
  }

  lemma SkimmedEntryExact(dag: Dag, idx: Index, m: Id)
    requires WellClocked(dag) && SkimBuilt(dag, idx) && ExactBelow(dag, idx, m.clock) && m in idx
    ensures EntryExact(dag, m, idx[m])
  {
    assert SkimBuiltAt(dag, idx, m);
    TargetsFall(m);
    ReadyTargets(idx, m, dag[m]);
    forall i | 0 <= i < |idx[m]| ensures RowExact(dag, m, Targets(m)[i], idx[m][i]) {
      SkimmedRowExact(dag, idx, m, Targets(m), i);
    }
  }

  lemma {:induction false} SkimBuiltExactBelow(dag: Dag, idx: Index, limit: nat)
    requires WellClocked(dag) && SkimBuilt(dag, idx)
    ensures ExactBelow(dag, idx, limit)
  {
    if limit > 0 {
      SkimBuiltExactBelow(dag, idx, limit - 1);
      forall m | m in idx && m.clock == limit - 1 ensures EntryExact(dag, m, idx[m]) {
        SkimmedEntryExact(dag, idx, m);
      }
      ExactBelowNext(dag, idx, limit - 1);
    }
  }

  /** Every row of an index built with the skipping search is exact. */
  lemma SkimBuiltIsExact(dag: Dag, idx: Index)
    requires WellClocked(dag) && SkimBuilt(dag, idx)
    ensures RowsExact(dag, idx)
  {
    forall limit: nat ensures ExactBelow(dag, idx, limit) {
      SkimBuiltExactBelow(dag, idx, limit);
    }
    ExactBelowAll(dag, idx);
  }

  // ----- storing message after message -----

  /** The larger index has the entries of the smaller one. */
  ghost predicate Extends(small: Index, big: Index) {
    forall k {:trigger k in small} :: k in small ==> k in big && big[k] == small[k]
  }

  lemma {:induction false} SkimAgrees(small: Index, big: Index, key: Id, bound: int, s: Search)
    requires Shaped(small) && Shaped(big) && Extends(small, big) && key in small && 1 <= bound < key.clock
    ensures Skim(small, key, bound, s) == Skim(big, key, bound, s)
    decreases key.clock, 1, 0
  {
    assert Links(small, key, bound) == Links(big, key, bound);
    SkimLinksAgrees(small, big, key.clock, Links(small, key, bound), bound, s);
  }

  lemma {:induction false} SkimLinksAgrees(
    small: Index, big: Index, limit: nat, links: seq<Id>, bound: int, s: Search)
    requires Shaped(small) && Shaped(big) && Extends(small, big) && 1 <= bound
    requires forall l :: l in links ==> l in small && l.clock < limit
    ensures SkimLinks(small, limit, links, bound, s) == SkimLinks(big, limit, links, bound, s)
    decreases limit, 0, |links|
  {
    if links != [] {
      var l, rest := links[0], links[1..];
      if l.clock <= bound {
        SkimLinksAgrees(small, big, limit, rest, bound, s.(results := Add(s.results, l)));
      } else if l in s.visited {
        SkimLinksAgrees(small, big, limit, rest, bound, s);
      } else {
        var s' := s.(visited := s.visited + {l});
        SkimAgrees(small, big, l, bound, s');
        SkimLinksAgrees(small, big, limit, rest, bound, Skim(small, l, bound, s'));
      }
    }
  }

  lemma {:induction false} SkimRowAgrees(small: Index, big: Index, children: seq<Id>, target: int, links: seq<Id>)
    requires Shaped(small) && Shaped(big) && Extends(small, big) && 1 <= target
    requires forall c :: c in children ==> c in small
    ensures SkimRow(small, children, target, links) == SkimRow(big, children, target, links)
    decreases |children|
  {
    if children != [] {
      var c := children[0];
      if c.clock > target {
        SkimAgrees(small, big, c, target, Search(links, {}));
      }
      SkimRowAgrees(small, big, children[1..], target,
        if c.clock <= target then Add(links, c) else Skim(small, c, target, Search(links, {})).results);
    }
  }

  lemma {:induction false} SkimmedRowAgrees(small: Index, big: Index, targets: seq<int>, parents: seq<Id>, i: nat)
    requires Shaped(small) && Shaped(big) && Extends(small, big) && Positive(targets) && i < |targets|
    requires ParentsIndexed(small, targets, parents) && ParentsIndexed(big, targets, parents)
    ensures SkimmedRow(small, targets, parents, i) == SkimmedRow(big, targets, parents, i)
    decreases i
  {
    if i > 0 {
      SkimmedRowAgrees(small, big, targets, parents, i - 1);
      SkimRowAgrees(small, big, SkimmedRow(small, targets, parents, i - 1), targets[i], []);
    }
  }

  lemma SkimmedEntryAgrees(small: Index, big: Index, m: Id, parents: seq<Id>, rows: seq<seq<Id>>)
    requires Shaped(small) && Shaped(big) && Extends(small, big) && Ready(small, m, parents)
    requires SkimmedEntry(small, m, parents, rows)
    ensures Ready(big, m, parents) && SkimmedEntry(big, m, parents, rows)
  {
    ReadyTargets(small, m, parents);
    ReadyTargets(big, m, parents);
    forall i | 0 <= i < |rows| ensures rows[i] == SkimmedRow(big, Targets(m), parents, i) {
      SkimmedRowAgrees(small, big, Targets(m), parents, i);
    }
  }

  /** Storing a message with its entry goes on building the index. */
  lemma SkimStore(dag: Dag, idx: Index, m: Id, rows: seq<seq<Id>>)
    requires WellClocked(dag) && SkimBuilt(dag, idx) && m !in idx && m in dag && Ready(idx, m, dag[m])
    requires SkimmedEntry(idx, m, dag[m], rows)
    ensures SkimBuilt(dag, idx[m := rows])
  {
    var big := idx[m := rows];
    forall k | k in big ensures EntryShaped(big, k, big[k]) {
      if k != m {
        assert EntryShaped(idx, k, idx[k]);
        forall i | 0 <= i < |big[k]| ensures RowShaped(big, Targets(k)[i], big[k][i]) {
          assert RowShaped(idx, Targets(k)[i], idx[k][i]);
        }
      } else {
        ReadyTargets(idx, m, dag[m]);
        forall i | 0 <= i < |rows| ensures RowShaped(big, Targets(m)[i], rows[i]) {
          assert RowShaped(idx, Targets(m)[i], SkimmedRow(idx, Targets(m), dag[m], i));
        }
      }
    }
    forall k | k in big ensures SkimBuiltAt(dag, big, k) {
      assert k != m ==> SkimBuiltAt(dag, idx, k);
      SkimmedEntryAgrees(idx, big, k, dag[k], big[k]);
    }
  }

  /** Every parent-closed set of messages has such an index. */
  lemma {:induction false} SkimIndexExists(dag: Dag, stored: set<Id>) returns (idx: Index)
    requires WellClocked(dag) && Closed(dag, stored)
    ensures SkimBuilt(dag, idx) && idx.Keys == stored
    decreases |stored|
  {
    if stored == {} {
      idx := map[];
    } else {
      var m := Latest(stored);
      var rest := stored - {m};
      forall x | x in rest ensures HasParents(dag, rest, x) {
        assert HasParents(dag, stored, x);
      }
      idx := SkimIndexExists(dag, rest);
      assert HasParents(dag, stored, m);
      ReadyTargets(idx, m, dag[m]);
      var rows := seq(|Targets(m)|, i requires 0 <= i < |Targets(m)| => SkimmedRow(idx, Targets(m), dag[m], i));
      SkimStore(dag, idx, m, rows);
      idx := idx[m := rows];
    }
  }
}
