/** A history in which `getAncestors` loses an ancestor by returning at a visited link, so that
    a stored row lacks it and the ancestor check denies it. */
module DroppedLinks {
  import opened Positional
  import opened MessageKeys
  import opened AncestorClocks
  import opened CausalHistory
  import opened AncestorIndex
  import opened AncestorSearch
  import opened IsAncestor
  import opened Delivery

  /** One chain of sixteen messages, and beside it a second root with its descendants. */
  function Chain(clock: nat): Id {
    Id(clock, 0)
  }

  const LENGTH := 16

  const x1 := Chain(1)
  const v := Chain(2)
  const a := Chain(3)
  const c := Chain(4)

  const x2 := Id(1, 1)
  const w := Id(2, 1)
  const b := Id(3, 1)
  const d := Id(4, 1)
  const e := Id(5, 1)
  const f := Id(6, 1)
  const g := Id(7, 1)
  const h := Id(8, 1)
  const merge := Id(17, 1)
  const last := Id(18, 1)

  const SIDE := [x2, w, b, d, e, f, g, h, merge, last]

  function Parents(m: Id): seq<Id> {
    if m.hash == 0 then if m.clock <= 1 then [] else [Chain(m.clock - 1)]
    else if m == x2 then []
    else if m == w then [x2]
    else if m == b then [v, w]
    else if m == d then [b]
    else if m == e then [c, d]
    else if m == f then [e]
    else if m == g then [f]
    else if m == h then [g]
    else if m == merge then [h, Chain(LENGTH)]
    else [merge]
  }

  predicate InHistory(m: Id) {
    if m.hash == 0 then 1 <= m.clock <= LENGTH else m in SIDE
  }

  /** Both roots lead to h, the chain leads to x1 alone, and merge joins the two.  There may be
      other messages beside them. */
  ghost predicate IsHistory(dag: Dag) {
    forall m {:trigger HistoryAt(dag, m)} :: HistoryAt(dag, m)
  }

  ghost predicate HistoryAt(dag: Dag, m: Id) {
    InHistory(m) ==> m in dag && dag[m] == Parents(m)
  }

  ghost predicate OnlyHistory(dag: Dag) {
    IsHistory(dag) && forall m :: m in dag ==> InHistory(m)
  }

  lemma HistoryIsSmall(m: Id)
    requires InHistory(m)
    ensures 1 <= m.clock <= 18 && m.hash <= 1
  {
  }

  lemma HistoryExists() returns (dag: Dag)
    ensures OnlyHistory(dag)
  {
    var chain := set k: nat {:trigger Chain(k)} | 1 <= k <= LENGTH :: Chain(k);
    dag := map m | m in chain + Elements(SIDE) :: Parents(m);
    assert forall m: Id :: m.hash == 0 ==> m == Chain(m.clock);
  }

  lemma HistoryIsWellClocked(dag: Dag)
    requires OnlyHistory(dag)
    ensures WellClocked(dag)
  {
    forall m | m in dag ensures 1 <= m.clock <= MAX_CLOCK && forall p :: p in dag[m] ==> p.clock < m.clock {
      assert HistoryAt(dag, m);
    }
  }

  // ----- rows as links -----

  lemma {:induction false} LogOfPower(j: nat)
    ensures FloorLog2(Power(2, j)) == j
  {
    var k := FloorLog2(Power(2, j));
    if k < j {
      PowerMonotone(k + 1, j);
    } else if k > j {
      PowerMonotone(j + 1, k);
    }
  }

  /** Row j of a message in a built index. */
  ghost predicate LinksAre(idx: Index, m: Id, far: int, links: seq<Id>) {
    Shaped(idx) && m in idx && 1 <= far < m.clock && Links(idx, m, far) == links
  }

  /** A search one power of two back reads the row of that number. */
  lemma RowNumberIs(m: Id, j: nat, far: int)
    requires far == m.clock - Power(2, j) && 1 <= far
    ensures far < m.clock && RowNumber(m, far) == j
    ensures j < |Targets(m)| && Targets(m)[j] == far
  {
    LogOfPower(j);
    RowInUse(m.clock, j);
    assert m.clock - far == Power(2, j);
  }

  /** Row j of a message, reached by a search for its target. */
  ghost predicate RowIs(dag: Dag, idx: Index, m: Id, j: nat, far: int)
    requires WellClocked(dag) && Built(dag, idx)
  {
    m in idx && 1 <= far < m.clock && BuiltAt(dag, idx, m)
    && ParentsIndexed(idx, Targets(m), dag[m]) && Positive(Targets(m)) && j < |Targets(m)| && Targets(m)[j] == far
    && Links(idx, m, far) == Row(idx, Targets(m), dag[m], j)
  }

  lemma LinksOfRow(dag: Dag, idx: Index, m: Id, j: nat, far: int)
    requires WellClocked(dag) && Built(dag, idx) && m in idx && far == m.clock - Power(2, j) && 1 <= far
    ensures RowIs(dag, idx, m, j, far)
  {
    assert BuiltAt(dag, idx, m);
    RowNumberIs(m, j, far);
    ReadyTargets(idx, m, dag[m]);
  }

  /** Row 0 holds the parents. */
  lemma FirstLinks(dag: Dag, idx: Index, m: Id)
    requires WellClocked(dag) && Built(dag, idx) && m in idx && m.clock > 1
    ensures m in dag && LinksAre(idx, m, m.clock - 1, dag[m])
  {
    assert Power(2, 0) == 1;
    LinksOfRow(dag, idx, m, 0, m.clock - 1);
  }

  /** Row j is made from row j - 1. */
  lemma NextLinks(dag: Dag, idx: Index, m: Id, j: nat, near: int, far: int, links: seq<Id>)
    requires WellClocked(dag) && Built(dag, idx) && m in idx && LinksAre(idx, m, near, links)
    requires j > 0 && near == m.clock - Power(2, j - 1) && far == m.clock - Power(2, j) && 1 <= far
    ensures LinksAre(idx, m, far, NextRow(idx, links, far, []))
  {
    LinksOfRow(dag, idx, m, j - 1, near);
    LinksOfRow(dag, idx, m, j, far);
  }

  ghost predicate Flat(links: seq<Id>, bound: int) {
    forall l :: l in links ==> l.clock <= bound
  }

  /** A search whose links are all at or before the bound adds them. */
  lemma FlatExplore(idx: Index, key: Id, bound: int, s: Search)
    requires Shaped(idx) && key in idx && 1 <= bound < key.clock && Flat(Links(idx, key, bound), bound)
    ensures Explore(idx, key, bound, s) == s.(results := AddAll(s.results, Links(idx, key, bound)))
  {
    FlatLinks(idx, key.clock, Links(idx, key, bound), bound, s);
  }

  /** Adding one after the other. */
  function AddAll(s: seq<Id>, links: seq<Id>): seq<Id>
    decreases |links|
  {
    if links == [] then s else AddAll(Add(s, links[0]), links[1..])
  }

  lemma {:induction false} FlatLinks(idx: Index, limit: nat, links: seq<Id>, bound: int, s: Search)
    requires Shaped(idx) && 1 <= bound && Flat(links, bound) && forall l :: l in links ==> l in idx && l.clock < limit
    ensures ExploreLinks(idx, limit, links, bound, s) == s.(results := AddAll(s.results, links))
    decreases |links|
  {
    if links != [] {
      FlatLinks(idx, limit, links[1..], bound, s.(results := Add(s.results, links[0])));
    }
  }

  lemma AddOne(s: seq<Id>, x: Id)
    ensures AddAll(s, [x]) == Add(s, x)
  {
  }

  lemma AddTwo(s: seq<Id>, x: Id, y: Id)
    ensures AddAll(s, [x, y]) == Add(Add(s, x), y)
  {
    assert [x, y][1..] == [y];
    AddOne(Add(s, x), y);
  }

  ghost predicate Pair(links: seq<Id>) {
    |links| == 1 || (|links| == 2 && links[0] != links[1])
  }

  lemma AddPair(links: seq<Id>)
    requires Pair(links)
    ensures AddAll([], links) == links
  {
    if |links| == 1 {
      AddOne([], links[0]);
      assert links == [links[0]];
    } else {
      AddTwo([], links[0], links[1]);
      assert links == [links[0], links[1]];
    }
  }

  /** A row of one child whose links are all at or before the bound holds these links. */
  lemma RowOfOne(idx: Index, c: Id, t: int, links: seq<Id>)
    requires LinksAre(idx, c, t, links) && Flat(links, t) && Pair(links)
    ensures NextRow(idx, [c], t, []) == links
  {
    FlatExplore(idx, c, t, Search([], {}));
    AddPair(links);
    assert [c][1..] == [];
  }

  /** A row of two such children, the second adding one more link. */
  lemma RowOfTwo(idx: Index, c1: Id, c2: Id, t: int, x: Id, y: Id, links: seq<Id>)
    requires LinksAre(idx, c1, t, [x]) && LinksAre(idx, c2, t, links)
    requires x.clock <= t && y.clock <= t && x != y && (links == [y] || links == [x, y])
    ensures NextRow(idx, [c1, c2], t, []) == [x, y]
  {
    FlatExplore(idx, c1, t, Search([], {}));
    AddOne([], x);
    var first := Explore(idx, c1, t, Search([], {})).results;
    assert first == [x];
    AddOne([x], y);
    AddTwo([x], x, y);
    FlatExplore(idx, c2, t, Search([x], {}));
    assert Explore(idx, c2, t, Search([x], {})).results == [x, y];
    var rest := [c1, c2][1..];
    assert rest == [c2] && rest[1..] == [];
    assert NextRow(idx, rest, t, [x]) == [x, y];
  }

  // ----- the chain -----

  /** The index of a log that stores the whole history, and maybe more. */
  ghost predicate Stores(dag: Dag, idx: Index) {
    IsHistory(dag) && WellClocked(dag) && Built(dag, idx)
    && forall m {:trigger InHistory(m)} :: InHistory(m) ==> m in idx
  }

  lemma ChainParent(dag: Dag, idx: Index, clock: nat)
    requires Stores(dag, idx) && 1 < clock <= LENGTH
    ensures LinksAre(idx, Chain(clock), clock - 1, [Chain(clock - 1)])
  {
    assert HistoryAt(dag, Chain(clock)) && InHistory(Chain(clock));
    FirstLinks(dag, idx, Chain(clock));
  }

  lemma Double(j: nat)
    requires j > 0
    ensures Power(2, j) == Power(2, j - 1) + Power(2, j - 1) && Power(2, j - 1) > 0
  {
  }

  /** Every row of the chain holds the one message that far back. */
  lemma {:induction false} ChainLinks(dag: Dag, idx: Index, clock: nat, j: nat, far: int)
    requires Stores(dag, idx) && clock <= LENGTH && far == clock - Power(2, j) && 1 <= far
    ensures LinksAre(idx, Chain(clock), far, [Chain(far)])
    decreases j, clock
  {
    if j == 0 {
      ChainParent(dag, idx, clock);
    } else {
      Double(j);
      var near := clock - Power(2, j - 1);
      ChainLinks(dag, idx, clock, j - 1, near);
      ChainLinks(dag, idx, near, j - 1, far);
      NextLinks(dag, idx, Chain(clock), j, near, far, [Chain(near)]);
      RowOfOne(idx, Chain(near), far, [Chain(far)]);
    }
  }

  // ----- the side branch, row by row -----

  lemma Powers()
    ensures Power(2, 0) == 1 && Power(2, 1) == 2 && Power(2, 2) == 4 && Power(2, 3) == 8 && Power(2, 4) == 16
  {
  }

  /** The first row of a message beside the chain. */
  lemma SideParents(dag: Dag, idx: Index, m: Id)
    requires Stores(dag, idx) && m in SIDE && m.clock > 1
    ensures LinksAre(idx, m, m.clock - 1, Parents(m))
  {
    assert HistoryAt(dag, m) && m.hash != 0 && InHistory(m);
    FirstLinks(dag, idx, m);
  }

  /** A row made of one child. */
  lemma ViaOne(dag: Dag, idx: Index, m: Id, j: nat, near: int, far: int, child: Id, links: seq<Id>)
    requires WellClocked(dag) && Built(dag, idx) && LinksAre(idx, m, near, [child])
    requires j > 0 && near == m.clock - Power(2, j - 1) && far == m.clock - Power(2, j) && 1 <= far
    requires LinksAre(idx, child, far, links) && Flat(links, far) && Pair(links)
    ensures LinksAre(idx, m, far, links)
  {
    NextLinks(dag, idx, m, j, near, far, [child]);
    RowOfOne(idx, child, far, links);
  }

  /** A row made of two children. */
  lemma ViaTwo(
    dag: Dag, idx: Index, m: Id, j: nat, near: int, far: int, c1: Id, c2: Id, x: Id, y: Id, links: seq<Id>)
    requires WellClocked(dag) && Built(dag, idx) && LinksAre(idx, m, near, [c1, c2])
    requires j > 0 && near == m.clock - Power(2, j - 1) && far == m.clock - Power(2, j) && 1 <= far
    requires LinksAre(idx, c1, far, [x]) && LinksAre(idx, c2, far, links)
    requires x.clock <= far && y.clock <= far && x != y && (links == [y] || links == [x, y])
    ensures LinksAre(idx, m, far, [x, y])
  {
    NextLinks(dag, idx, m, j, near, far, [c1, c2]);
    RowOfTwo(idx, c1, c2, far, x, y, links);
  }

  lemma RowsOfB(dag: Dag, idx: Index)
    requires Stores(dag, idx)
    ensures LinksAre(idx, b, 2, [v, w]) && LinksAre(idx, b, 1, [x1, x2])
  {
    Powers();
    SideParents(dag, idx, w);
    SideParents(dag, idx, b);
    ChainParent(dag, idx, 2);
    ViaTwo(dag, idx, b, 1, 2, 1, v, w, x1, x2, [x2]);
  }

  lemma RowsOfD(dag: Dag, idx: Index)
    requires Stores(dag, idx)
    ensures LinksAre(idx, d, 3, [b]) && LinksAre(idx, d, 2, [v, w])
  {
    Powers();
    SideParents(dag, idx, d);
    RowsOfB(dag, idx);
    ViaOne(dag, idx, d, 1, 3, 2, b, [v, w]);
  }

  lemma RowsOfE(dag: Dag, idx: Index)
    requires Stores(dag, idx)
    ensures LinksAre(idx, e, 4, [c, d]) && LinksAre(idx, e, 3, [a, b])
  {
    Powers();
    SideParents(dag, idx, e);
    RowsOfD(dag, idx);
    ChainParent(dag, idx, 4);
    ViaTwo(dag, idx, e, 1, 4, 3, c, d, a, b, [b]);
  }

  lemma RowsOfF(dag: Dag, idx: Index)
    requires Stores(dag, idx)
    ensures LinksAre(idx, f, 5, [e]) && LinksAre(idx, f, 4, [c, d])
  {
    Powers();
    SideParents(dag, idx, f);
    RowsOfE(dag, idx);
    ViaOne(dag, idx, f, 1, 5, 4, e, [c, d]);
  }

  lemma RowsOfH(dag: Dag, idx: Index)
    requires Stores(dag, idx)
    ensures LinksAre(idx, h, 4, [c, d])
  {
    Powers();
    SideParents(dag, idx, g);
    SideParents(dag, idx, h);
    RowsOfF(dag, idx);
    ViaOne(dag, idx, g, 1, 6, 5, f, [e]);
    ViaOne(dag, idx, h, 1, 7, 6, g, [f]);
    ViaOne(dag, idx, h, 2, 6, 4, f, [c, d]);
  }

  // ----- the lost ancestor -----

  /** Bounds between two targets use the row of the later one. */
  lemma SameLinks(idx: Index, m: Id, j: nat, far: int, bound: int, links: seq<Id>)
    requires LinksAre(idx, m, far, links) && far == m.clock - Power(2, j)
    requires m.clock - 2 * Power(2, j) < bound <= far && 1 <= bound
    ensures LinksAre(idx, m, bound, links)
  {
    RowNumberIs(m, j, far);
    LogBetween(j, m.clock - bound);
  }

  lemma LogBetween(j: nat, n: nat)
    requires Power(2, j) <= n < 2 * Power(2, j)
    ensures FloorLog2(n) == j
  {
    var k := FloorLog2(n);
    if k < j {
      PowerMonotone(k + 1, j);
    }
  }

  lemma OneLink(idx: Index, key: Id, bound: int, link: Id, s: Search)
    requires LinksAre(idx, key, bound, [link])
    ensures link.clock <= bound ==> Explore(idx, key, bound, s) == s.(results := Add(s.results, link))
    ensures link in idx
    ensures link.clock > bound && link !in s.visited ==>
              Explore(idx, key, bound, s) == Explore(idx, link, bound, s.(visited := s.visited + {link}))
  {
    assert link in Links(idx, key, bound);
    var rest := [link][1..];
    assert rest == [];
    if link.clock <= bound {
      assert ExploreLinks(idx, key.clock, rest, bound, s.(results := Add(s.results, link)))
          == s.(results := Add(s.results, link));
    } else {
      var s1 := Explore(idx, link, bound, s.(visited := s.visited + {link}));
      assert ExploreLinks(idx, key.clock, rest, bound, s1) == s1;
    }
  }

  lemma TwoLinks(idx: Index, key: Id, bound: int, l1: Id, l2: Id, s: Search)
    requires LinksAre(idx, key, bound, [l1, l2])
    requires l1 in idx && l2 in idx && l1.clock > bound && l2.clock > bound && l1 !in s.visited
    requires l2 !in Explore(idx, l1, bound, s.(visited := s.visited + {l1})).visited
    ensures var s1 := Explore(idx, l1, bound, s.(visited := s.visited + {l1}));
            Explore(idx, key, bound, s) == Explore(idx, l2, bound, s1.(visited := s1.visited + {l2}))
  {
    var links := Links(idx, key, bound);
    assert l1 in links && l2 in links;
    var rest := links[1..];
    assert rest == [l2] && rest[1..] == [];
    var s1 := Explore(idx, l1, bound, s.(visited := s.visited + {l1}));
    var s2 := Explore(idx, l2, bound, s1.(visited := s1.visited + {l2}));
    assert ExploreLinks(idx, key.clock, rest[1..], bound, s2) == s2;
    assert ExploreLinks(idx, key.clock, rest, bound, s1) == s2;
  }

  /** The shape that loses links: a second link whose own first link was already visited. */
  lemma SharedFirstLink(idx: Index, key: Id, bound: int, l1: Id, l2: Id, shared: Id, lost: Id, found: Id)
    requires LinksAre(idx, key, bound, [l1, l2]) && LinksAre(idx, l1, bound, [shared])
    requires LinksAre(idx, l2, bound, [shared, lost]) && LinksAre(idx, shared, bound, [found])
    requires found.clock <= bound && l1 != l2 && l2 != shared && l1 != shared
    ensures Explore(idx, key, bound, Search([], {})).results == [found]
  {
    var inner := Search([found], {l1, shared});
    OneLink(idx, shared, bound, found, Search([], {l1, shared}));
    OneLink(idx, l1, bound, shared, Search([], {l1}));
    assert {l1} + {shared} == {l1, shared};
    var after := Search([found], {l1, shared, l2});
    assert Explore(idx, l2, bound, after) == after;
    assert {l1, shared} + {l2} == after.visited && {} + {l1} == {l1};
    TwoLinks(idx, key, bound, l1, l2, Search([], {}));
  }

  /** Looking back from h to clock 1, the code finds x1 and misses x2. */
  lemma ReturnLosesAnAncestor(dag: Dag, idx: Index)
    requires Stores(dag, idx)
    ensures h in idx && Explore(idx, h, 1, Search([], {})).results == [x1]
  {
    Powers();
    RowsOfH(dag, idx);
    RowsOfD(dag, idx);
    ChainLinks(dag, idx, 4, 1, 2);
    ChainParent(dag, idx, 2);
    SameLinks(idx, h, 2, 4, 1, [c, d]);
    SameLinks(idx, c, 1, 2, 1, [v]);
    SameLinks(idx, d, 1, 2, 1, [v, w]);
    SharedFirstLink(idx, h, 1, c, d, v, w, x1);
  }

  /** A row of the merging message: h is early enough to be kept, the chain is followed. */
  lemma MergeRow(dag: Dag, idx: Index, j: nat, near: nat, far: nat)
    requires Stores(dag, idx) && LinksAre(idx, merge, near, [h, Chain(near)]) && h.clock <= far
    requires j > 0 && near == merge.clock - Power(2, j - 1) && far == merge.clock - Power(2, j)
    ensures LinksAre(idx, merge, far, [h, Chain(far)])
  {
    Double(j);
    ChainLinks(dag, idx, near, j - 1, far);
    NextLinks(dag, idx, merge, j, near, far, [h, Chain(near)]);
    OneLink(idx, Chain(near), far, Chain(far), Search([h], {}));
    assert Explore(idx, Chain(near), far, Search([h], {})).results == [h, Chain(far)];
    var rest := [h, Chain(near)][1..];
    assert rest == [Chain(near)] && rest[1..] == [];
    assert NextRow(idx, rest[1..], far, [h, Chain(far)]) == [h, Chain(far)];
    assert NextRow(idx, rest, far, [h]) == [h, Chain(far)];
    assert Add([], h) == [h];
  }

  lemma MergeRows(dag: Dag, idx: Index)
    requires Stores(dag, idx)
    ensures LinksAre(idx, merge, 9, [h, Chain(9)])
  {
    Powers();
    SideParents(dag, idx, merge);
    MergeRow(dag, idx, 1, 16, 15);
    MergeRow(dag, idx, 2, 15, 13);
    MergeRow(dag, idx, 3, 13, 9);
  }

  lemma LastRow(dag: Dag, idx: Index)
    requires Stores(dag, idx)
    ensures LinksAre(idx, merge, 1, [x1])
  {
    Powers();
    MergeRows(dag, idx);
    NextLinks(dag, idx, merge, 4, 9, 1, [h, Chain(9)]);
    ReturnLosesAnAncestor(dag, idx);
    ChainLinks(dag, idx, 9, 3, 1);
    OneLink(idx, Chain(9), 1, x1, Search([x1], {}));
    var rest := [h, Chain(9)][1..];
    assert rest == [Chain(9)] && rest[1..] == [];
    assert NextRow(idx, rest, 1, [x1]) == [x1];
  }

  lemma Descends(dag: Dag)
    requires IsHistory(dag) && WellClocked(dag)
    ensures x2 in FirstAt(dag, merge, 1) && Reaches(dag, merge, x2) && Reaches(dag, last, x2)
  {
    assert x2 in FirstAt(dag, x2, 1);
    Above(dag, w, x2); Above(dag, b, w); Above(dag, d, b); Above(dag, e, d);
    Above(dag, f, e); Above(dag, g, f); Above(dag, h, g); Above(dag, merge, h); Above(dag, last, merge);
  }

  lemma Above(dag: Dag, m: Id, p: Id)
    requires IsHistory(dag) && WellClocked(dag) && m in SIDE && p in Parents(m) && m.clock > 1
    requires x2 in FirstAt(dag, p, 1)
    ensures x2 in FirstAt(dag, m, 1) && Reaches(dag, m, x2)
  {
    assert HistoryAt(dag, m);
    FirstAtSound(dag, m, 1);
  }

  lemma RowsOfMerge(dag: Dag, idx: Index)
    requires Stores(dag, idx)
    ensures merge in idx && |idx[merge]| == 5 && |Targets(merge)| == 5 && Targets(merge)[4] == 1
    ensures idx[merge][4] == [x1]
  {
    Powers();
    LastRow(dag, idx);
    RowNumberIs(merge, 4, 1);
    RowInUse(merge.clock, 5);
    assert EntryShaped(idx, merge, idx[merge]);
  }

  lemma QueryMisses(idx: Index, id: Id, link: Id, visited: set<Id>)
    requires LinksAre(idx, id, 1, [link]) && link in idx && link !in visited && id != x2
    requires !Query(idx, link, x2, visited + {link}).found
    ensures !Query(idx, id, x2, visited).found
  {
    var rest := [link][1..];
    assert rest == [];
    var after := Query(idx, link, x2, visited + {link}).visited;
    assert !QueryLinks(idx, id.clock, rest, x2, after).found;
  }

  /** Every log that stores this history has a row without one of the message's first
      ancestors, and answers that x2 is no ancestor of the messages above. */
  lemma StoredRowLosesAnAncestor(dag: Dag, idx: Index)
    requires Stores(dag, idx)
    ensures merge in idx && |idx[merge]| == 5 && |Targets(merge)| == 5
    ensures idx[merge][4] == [x1] && !RowExact(dag, merge, Targets(merge)[4], idx[merge][4])
    ensures Reaches(dag, merge, x2) && !Query(idx, merge, x2, {}).found
  {
    RowsOfMerge(dag, idx);
    LastRow(dag, idx);
    QueryMisses(idx, merge, x1, {});
    Descends(dag);
  }

  /** There is such a log. */
  lemma SomeLogStoresIt() returns (dag: Dag, idx: Index)
    ensures Stores(dag, idx) && RowsSound(dag, idx) && OnlyHistory(dag) && idx.Keys == dag.Keys
  {
    dag := HistoryExists();
    HistoryIsWellClocked(dag);
    forall m | m in dag ensures HasParents(dag, dag.Keys, m) {
      ParentsInHistory(dag, m);
    }
    idx := IndexExists(dag, dag.Keys);
    forall m | InHistory(m) ensures m in idx {
      assert HistoryAt(dag, m);
    }
  }

  lemma ParentsInHistory(dag: Dag, m: Id)
    requires OnlyHistory(dag) && m in dag
    ensures HasParents(dag, dag.Keys, m)
  {
    assert HistoryAt(dag, m);
    forall p | p in Parents(m) ensures p in dag {
      assert HistoryAt(dag, p);
    }
  }
}
