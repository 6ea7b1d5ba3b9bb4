/** The ancestor index: for every stored message, logarithmically many rows of ancestors,
    and the two searches that hop along them (AbstractGossipLog.ts). */
module AncestorIndex {
  import opened Positional
  import opened MessageKeys
  import opened AncestorClocks
  import opened CausalHistory
  import opened Options

  /** Row i of a message's entry lists ancestors with clock at most the message's - 2^i. */
  type Index = map<Id, seq<seq<Id>>>

  /** The clocks the rows of a message look back to, latest first. */
  function Targets(m: Id): (targets: seq<int>)
    requires m.clock >= 1
    ensures |targets| == RowCount(m.clock)
    ensures forall i :: 0 <= i < |targets| ==> 1 <= targets[i] == m.clock - Power(2, i)
  {
    assert forall i: nat :: i < RowCount(m.clock) ==> m.clock - Power(2, i) >= 1 by {
      forall i: nat | i < RowCount(m.clock) ensures m.clock - Power(2, i) >= 1 {
        RowInUse(m.clock, i);
      }
    }
    seq(RowCount(m.clock), i requires 0 <= i => m.clock - Power(2, i))
  }

  ghost predicate RowShaped(idx: Index, target: int, row: seq<Id>) {
    forall l :: l in row ==> l in idx && l.clock <= target
  }

  ghost predicate EntryShaped(idx: Index, m: Id, rows: seq<seq<Id>>) {
    m.clock >= 1 && |rows| == |Targets(m)|
    && forall i :: 0 <= i < |rows| ==> RowShaped(idx, Targets(m)[i], rows[i])
  }

  /** Every entry has its rows, and rows lead to earlier indexed messages. */
  ghost predicate Shaped(idx: Index) {
    forall m {:trigger EntryShaped(idx, m, idx[m])} :: m in idx ==> EntryShaped(idx, m, idx[m])
  }

  /** Which row a search for clock `bound` uses. */
  function RowNumber(m: Id, bound: int): nat
    requires bound < m.clock
  {
    FloorLog2(m.clock - bound)
  }

  /** The row exists, and looks back no further than the bound. */
  lemma RowExists(m: Id, bound: int)
    requires 1 <= bound < m.clock
    ensures RowNumber(m, bound) < |Targets(m)|
    ensures bound <= Targets(m)[RowNumber(m, bound)] < m.clock
  {
    LookupInRange(m.clock, bound);
  }

  /** The links a search at `key` for clock `bound` follows. */
  ghost function Links(idx: Index, key: Id, bound: int): (links: seq<Id>)
    requires Shaped(idx) && key in idx && 1 <= bound < key.clock
    ensures forall l :: l in links ==> l in idx && l.clock < key.clock
  {
    RowExists(key, bound);
    assert EntryShaped(idx, key, idx[key]);
    assert RowShaped(idx, Targets(key)[RowNumber(key, bound)], idx[key][RowNumber(key, bound)]);
    idx[key][RowNumber(key, bound)]
  }

  // ----- getAncestors -----

  /** The two sets a search fills; results keep the order in which they were added. */
  datatype Search = Search(results: seq<Id>, visited: set<Id>)

  /** Adding to an insertion-ordered set. */
  function Add(s: seq<Id>, x: Id): seq<Id> {
    if x in s then s else s + [x]
  }

  ghost function Explore(idx: Index, key: Id, bound: int, s: Search): Search
    requires Shaped(idx) && key in idx && 1 <= bound < key.clock
    decreases key.clock, 1, 0
  {
    ExploreLinks(idx, key.clock, Links(idx, key, bound), bound, s)
  }

  ghost function ExploreLinks(idx: Index, limit: nat, links: seq<Id>, bound: int, s: Search): Search
    requires Shaped(idx) && 1 <= bound && forall l :: l in links ==> l in idx && l.clock < limit
    decreases limit, 0, |links|
  {
    if links == [] then s
    else if links[0].clock <= bound then
      ExploreLinks(idx, limit, links[1..], bound, s.(results := Add(s.results, links[0])))
    else if links[0] in s.visited then s
    else
      var inner := Explore(idx, links[0], bound, s.(visited := s.visited + {links[0]}));
      ExploreLinks(idx, limit, links[1..], bound, inner)
  }

  /** The links a search leaves unread: when it meets a link it has already visited it
      returns, and the rest of that row is dropped. */
  ghost function Dropped(idx: Index, key: Id, bound: int, s: Search): set<Id>
    requires Shaped(idx) && key in idx && 1 <= bound < key.clock
    decreases key.clock, 1, 0
  {
    DroppedLinks(idx, key.clock, Links(idx, key, bound), bound, s)
  }

  ghost function DroppedLinks(idx: Index, limit: nat, links: seq<Id>, bound: int, s: Search): set<Id>
    requires Shaped(idx) && 1 <= bound && forall l :: l in links ==> l in idx && l.clock < limit
    decreases limit, 0, |links|
  {
    if links == [] then {}
    else if links[0].clock <= bound then
      DroppedLinks(idx, limit, links[1..], bound, s.(results := Add(s.results, links[0])))
    else if links[0] in s.visited then Elements(links[1..])
    else
      var s' := s.(visited := s.visited + {links[0]});
      Dropped(idx, links[0], bound, s')
      + DroppedLinks(idx, limit, links[1..], bound, Explore(idx, links[0], bound, s'))
  }

  /** The recursive search, adding to the caller's results and visited sets. */
  method GetAncestors(idx: Index, key: Id, atOrBefore: int, results: seq<Id>, visited: set<Id>)
    returns (results': seq<Id>, visited': set<Id>)
    requires Shaped(idx) && key in idx && 1 <= atOrBefore < key.clock
    ensures Search(results', visited') == Explore(idx, key, atOrBefore, Search(results, visited))
    decreases key.clock
  {
    results', visited' := results, visited;
    ghost var all := Links(idx, key, atOrBefore);
    RowExists(key, atOrBefore);
    assert EntryShaped(idx, key, idx[key]);
    var links := idx[key][RowNumber(key, atOrBefore)];
    for i := 0 to |links|
      invariant ExploreLinks(idx, key.clock, all[i..], atOrBefore, Search(results', visited'))
             == ExploreLinks(idx, key.clock, all, atOrBefore, Search(results, visited))
    {
      var link := links[i];
      assert all[i..][0] == link && all[i..][1..] == all[i + 1..];
      if link.clock <= atOrBefore {
        results' := Add(results', link);
      } else if link in visited' {
        return;
      } else {
        visited' := visited' + {link};
        results', visited' := GetAncestors(idx, link, atOrBefore, results', visited');
      }
    }
  }

  // ----- the rows of a new message -----

  /** One row from the previous one. */
  ghost function NextRow(idx: Index, children: seq<Id>, target: int, links: seq<Id>): seq<Id>
    requires Shaped(idx) && 1 <= target && forall c :: c in children ==> c in idx
    decreases |children|
  {
    if children == [] then links
    else
      var c := children[0];
      var links' := if c.clock <= target then Add(links, c)
                    else Explore(idx, c, target, Search(links, {})).results;
      NextRow(idx, children[1..], target, links')
  }

  ghost function NextRowDropped(idx: Index, children: seq<Id>, target: int, links: seq<Id>): set<Id>
    requires Shaped(idx) && 1 <= target && forall c :: c in children ==> c in idx
    decreases |children|
  {
    if children == [] then {}
    else
      var c := children[0];
      if c.clock <= target then NextRowDropped(idx, children[1..], target, Add(links, c))
      else
        Dropped(idx, c, target, Search(links, {}))
        + NextRowDropped(idx, children[1..], target, Explore(idx, c, target, Search(links, {})).results)
  }

  lemma {:induction false} ExploreShaped(idx: Index, key: Id, bound: int, s: Search)
    requires Shaped(idx) && key in idx && 1 <= bound < key.clock
    ensures forall l :: l in Explore(idx, key, bound, s).results ==>
              l in s.results || (l in idx && l.clock <= bound)
    decreases key.clock, 1, 0
  {
    ExploreLinksShaped(idx, key.clock, Links(idx, key, bound), bound, s);
  }

  lemma {:induction false} ExploreLinksShaped(idx: Index, limit: nat, links: seq<Id>, bound: int, s: Search)
    requires Shaped(idx) && 1 <= bound && forall l :: l in links ==> l in idx && l.clock < limit
    ensures forall l :: l in ExploreLinks(idx, limit, links, bound, s).results ==>
              l in s.results || (l in idx && l.clock <= bound)
    decreases limit, 0, |links|
  {
    if links == [] {
    } else if links[0].clock <= bound {
      ExploreLinksShaped(idx, limit, links[1..], bound, s.(results := Add(s.results, links[0])));
    } else if links[0] !in s.visited {
      var s' := s.(visited := s.visited + {links[0]});
      ExploreShaped(idx, links[0], bound, s');
      ExploreLinksShaped(idx, limit, links[1..], bound, Explore(idx, links[0], bound, s'));
    }
  }

  lemma {:induction false} NextRowShaped(idx: Index, children: seq<Id>, target: int, links: seq<Id>)
    requires Shaped(idx) && 1 <= target && forall c :: c in children ==> c in idx
    ensures forall l :: l in NextRow(idx, children, target, links) ==>
              l in links || (l in idx && l.clock <= target)
    decreases |children|
  {
    if children != [] {
      var c := children[0];
      if c.clock > target {
        ExploreShaped(idx, c, target, Search(links, {}));
      }
      NextRowShaped(idx, children[1..], target,
        if c.clock <= target then Add(links, c) else Explore(idx, c, target, Search(links, {})).results);
    }
  }

  /** The parents of a new message are indexed, and not later than its first target. */
  ghost predicate ParentsIndexed(idx: Index, targets: seq<int>, parents: seq<Id>) {
    forall p :: p in parents ==> p in idx && (targets != [] ==> p.clock <= targets[0])
  }

  ghost predicate Positive(targets: seq<int>) {
    forall i :: 0 <= i < |targets| ==> targets[i] >= 1
  }

  /** Row i of the entry of a new message. */
  ghost function Row(idx: Index, targets: seq<int>, parents: seq<Id>, i: nat): (row: seq<Id>)
    requires Shaped(idx) && Positive(targets) && ParentsIndexed(idx, targets, parents) && i < |targets|
    ensures RowShaped(idx, targets[i], row)
    decreases i
  {
    if i == 0 then parents
    else
      var prev := Row(idx, targets, parents, i - 1);
      NextRowShaped(idx, prev, targets[i], []);
      NextRow(idx, prev, targets[i], [])
  }

  /** The first n rows of the entry of a new message. */
  ghost function FirstRows(idx: Index, targets: seq<int>, parents: seq<Id>, n: nat): (rows: seq<seq<Id>>)
    requires Shaped(idx) && Positive(targets) && ParentsIndexed(idx, targets, parents) && n <= |targets|
    ensures |rows| == n && forall i :: 0 <= i < n ==> rows[i] == Row(idx, targets, parents, i)
    decreases n
  {
    if n == 0 then [] else FirstRows(idx, targets, parents, n - 1) + [Row(idx, targets, parents, n - 1)]
  }

  /** The message's parents are stored and earlier than it. */
  ghost predicate Ready(idx: Index, m: Id, parents: seq<Id>) {
    1 <= m.clock <= MAX_CLOCK && forall p :: p in parents ==> p in idx && p.clock < m.clock
  }

  lemma ReadyTargets(idx: Index, m: Id, parents: seq<Id>)
    requires Ready(idx, m, parents)
    ensures Positive(Targets(m)) && ParentsIndexed(idx, Targets(m), parents)
  {
  }

  /** The entry of a new message. */
  ghost function Entry(idx: Index, m: Id, parents: seq<Id>): (rows: seq<seq<Id>>)
    requires Shaped(idx) && Ready(idx, m, parents)
    ensures EntryShaped(idx, m, rows)
  {
    ReadyTargets(idx, m, parents);
    FirstRows(idx, Targets(m), parents, |Targets(m)|)
  }

  /** Every entry is the one `#insert` computes from the entries before it. */
  ghost predicate Built(dag: Dag, idx: Index)
    requires WellClocked(dag)
  {
    Shaped(idx) && forall m {:trigger BuiltAt(dag, idx, m)} :: m in idx ==> BuiltAt(dag, idx, m)
  }

  ghost predicate BuiltAt(dag: Dag, idx: Index, m: Id)
    requires WellClocked(dag) && Shaped(idx) && m in idx
  {
    m in dag && Ready(idx, m, dag[m]) && idx[m] == Entry(idx, m, dag[m])
  }

  method BuildEntry(idx: Index, m: Id, parents: seq<Id>) returns (ancestorLinks: seq<seq<Id>>)
    requires Shaped(idx) && Ready(idx, m, parents)
    ensures ancestorLinks == Entry(idx, m, parents)
  {
    ReadyTargets(idx, m, parents);
    var ancestorClocks := GetAncestorClocks(m.clock);
    assert ancestorClocks == Targets(m);
    ancestorLinks := FillRows(idx, ancestorClocks, parents);
  }

  /** The loop nest that fills `ancestorLinks`. */
  method FillRows(idx: Index, ancestorClocks: seq<int>, parents: seq<Id>) returns (ancestorLinks: seq<seq<Id>>)
    requires Shaped(idx) && Positive(ancestorClocks) && ParentsIndexed(idx, ancestorClocks, parents)
    ensures ancestorLinks == FirstRows(idx, ancestorClocks, parents, |ancestorClocks|)
  {
    ancestorLinks := [];
    for i := 0 to |ancestorClocks|
      invariant ancestorLinks == FirstRows(idx, ancestorClocks, parents, i)
    {
      if i == 0 {
        ancestorLinks := [parents];
      } else {
        var links := BuildRow(idx, ancestorLinks[i - 1], ancestorClocks[i]);
        ancestorLinks := ancestorLinks + [links];
      }
    }
  }

  method BuildRow(idx: Index, children: seq<Id>, target: int) returns (links: seq<Id>)
    requires Shaped(idx) && 1 <= target && forall c :: c in children ==> c in idx
    ensures links == NextRow(idx, children, target, [])
  {
    links := [];
    for j := 0 to |children|
      invariant NextRow(idx, children[j..], target, links) == NextRow(idx, children, target, [])
    {
      var child := children[j];
      assert children[j..][0] == child && children[j..][1..] == children[j + 1..];
      if child.clock <= target {
        links := Add(links, child);
      } else {
        var visited;
        links, visited := GetAncestors(idx, child, target, links, {});
      }
    }
  }
}
