/** The reachability query over the ancestor index (AbstractGossipLog.isAncestor), and the
    agreement of indexes: a search depends on nothing but the message's causal history. */
module IsAncestor {
  import opened MessageKeys
  import opened CausalHistory
  import opened AncestorIndex
  import opened Options
  import opened AncestorSearch

  /** The answer, and the visited set the recursive calls leave behind. */
  datatype Answer = Answer(found: bool, visited: set<Id>)

  ghost function Query(idx: Index, id: Id, ancestor: Id, visited: set<Id>): Answer
    requires Shaped(idx) && id in idx && ancestor.clock >= 1
    decreases id.clock, 1, 0
  {
    if id == ancestor then Answer(true, visited)
    else if id.clock <= ancestor.clock then Answer(false, visited)
    else QueryLinks(idx, id.clock, Links(idx, id, ancestor.clock), ancestor, visited)
  }

  ghost function QueryLinks(idx: Index, limit: nat, links: seq<Id>, ancestor: Id, visited: set<Id>): Answer
    requires Shaped(idx) && ancestor.clock >= 1 && forall l :: l in links ==> l in idx && l.clock < limit
    decreases limit, 0, |links|
  {
    if links == [] then Answer(false, visited)
    else if links[0] in visited then QueryLinks(idx, limit, links[1..], ancestor, visited)
    else
      var a := Query(idx, links[0], ancestor, visited + {links[0]});
      if a.found then a else QueryLinks(idx, limit, links[1..], ancestor, a.visited)
  }

  method SearchAncestor(idx: Index, id: Id, ancestor: Id, visited: set<Id>) returns (found: bool, visited': set<Id>)
    requires Shaped(idx) && id in idx && ancestor.clock >= 1
    ensures Answer(found, visited') == Query(idx, id, ancestor, visited)
    decreases id.clock
  {
    visited' := visited;
    if id == ancestor {
      return true, visited';
    }
    if id.clock <= ancestor.clock {
      return false, visited';
    }
    ghost var all := Links(idx, id, ancestor.clock);
    RowExists(id, ancestor.clock);
    assert EntryShaped(idx, id, idx[id]);
    var links := idx[id][RowNumber(id, ancestor.clock)];
    for i := 0 to |links|
      invariant QueryLinks(idx, id.clock, all[i..], ancestor, visited')
             == QueryLinks(idx, id.clock, all, ancestor, visited)
    {
      assert all[i..][0] == links[i] && all[i..][1..] == all[i + 1..];
      if links[i] in visited' {
        continue;
      }
      visited' := visited' + {links[i]};
      found, visited' := SearchAncestor(idx, links[i], ancestor, visited');
      if found {
        return;
      }
    }
    found := false;
  }

  /** The public query; None is the error for a message that is not indexed. */
  method AskAncestor(ghost dag: Dag, idx: Index, id: Id, ancestor: Id) returns (answer: Option<bool>)
    requires WellClocked(dag) && Shaped(idx) && RowsSound(dag, idx) && ancestor.clock >= 1
    ensures answer.None? <==> id !in idx && id != ancestor && id.clock > ancestor.clock
    ensures id == ancestor ==> answer == Some(true)
    ensures id != ancestor && id.clock <= ancestor.clock ==> answer == Some(false)
    ensures answer == Some(true) ==> Reaches(dag, id, ancestor)
    ensures answer.Some? && id in idx ==> answer.value == Hops(idx, id, ancestor)
    ensures RowsExact(dag, idx) && answer.Some? && id in idx ==> answer.value == Reaches(dag, id, ancestor)
  {
    if id in idx {
      var found, _ := SearchAncestor(idx, id, ancestor, {});
      QueryHops(idx, id, ancestor, {});
      if found {
        QuerySound(dag, idx, id, ancestor, {});
      }
      if RowsExact(dag, idx) {
        QueryExact(dag, idx, id, ancestor, {});
      }
      answer := Some(found);
    } else if id == ancestor {
      answer := Some(true);
    } else if id.clock <= ancestor.clock {
      answer := Some(false);
    } else {
      answer := None;
    }
  }

  /** Over sound rows, a positive answer is right, whatever was visited before. */
  lemma {:induction false} QuerySound(dag: Dag, idx: Index, id: Id, ancestor: Id, visited: set<Id>)
    requires WellClocked(dag) && Shaped(idx) && RowsSound(dag, idx) && id in idx && ancestor.clock >= 1
    requires Query(idx, id, ancestor, visited).found
    ensures Reaches(dag, id, ancestor)
    decreases id.clock, 1, 0
  {
    if id != ancestor {
      var links := Links(idx, id, ancestor.clock);
      var x := QueryLinksSound(dag, idx, id.clock, links, ancestor, visited);
      LinkIsAncestor(dag, idx, id, ancestor.clock, x);
      ReachesTransitive(dag, id, x, ancestor);
    }
  }

  lemma {:induction false} QueryLinksSound(
    dag: Dag, idx: Index, limit: nat, links: seq<Id>, ancestor: Id, visited: set<Id>) returns (x: Id)
    requires WellClocked(dag) && Shaped(idx) && RowsSound(dag, idx) && ancestor.clock >= 1
    requires forall l :: l in links ==> l in idx && l.clock < limit
    requires QueryLinks(idx, limit, links, ancestor, visited).found
    ensures x in links && Reaches(dag, x, ancestor)
    decreases limit, 0, |links|
  {
    if links[0] in visited {
      x := QueryLinksSound(dag, idx, limit, links[1..], ancestor, visited);
    } else {
      var a := Query(idx, links[0], ancestor, visited + {links[0]});
      if a.found {
        x := links[0];
        QuerySound(dag, idx, x, ancestor, visited + {x});
      } else {
        x := QueryLinksSound(dag, idx, limit, links[1..], ancestor, a.visited);
      }
    }
  }

  lemma LinkIsAncestor(dag: Dag, idx: Index, id: Id, bound: int, x: Id)
    requires WellClocked(dag) && Shaped(idx) && RowsSound(dag, idx) && id in idx && 1 <= bound < id.clock
    requires x in Links(idx, id, bound)
    ensures Reaches(dag, id, x)
  {
    var i := RowNumber(id, bound);
    RowExists(id, bound);
    assert EntryShaped(idx, id, idx[id]);
    assert RowSound(dag, id, Targets(id)[i], idx[id][i]);
    FirstAtSound(dag, id, Targets(id)[i]);
    assert x in Elements(idx[id][i]);
  }

  // ----- what decides the answer, over any index -----

  /** A chain of stored links leads from id to a. */
  ghost predicate Hops(idx: Index, id: Id, a: Id)
    requires Shaped(idx) && id in idx && a.clock >= 1
    decreases id.clock
  {
    id == a || (id.clock > a.clock && exists l :: l in Links(idx, id, a.clock) && Hops(idx, l, a))
  }

  /** The visited messages below a clock have been searched in vain. */
  ghost predicate SearchedInVain(idx: Index, visited: set<Id>, a: Id, limit: nat)
    requires Shaped(idx) && a.clock >= 1
  {
    forall v :: v in visited && v in idx && v.clock < limit ==> !Hops(idx, v, a)
  }

  /** What the links of a row lead to. */
  ghost predicate SomeHops(idx: Index, links: seq<Id>, a: Id)
    requires Shaped(idx) && a.clock >= 1 && forall l :: l in links ==> l in idx
  {
    exists l :: l in links && Hops(idx, l, a)
  }

  /** What a search in vain has visited leads nowhere. */
  ghost predicate AllInVain(idx: Index, visited: set<Id>, a: Id)
    requires Shaped(idx) && a.clock >= 1
  {
    forall v :: v in visited ==> v in idx && !Hops(idx, v, a)
  }

  /** Over any index, whatever its rows lack, the answer is whether stored links lead to the
      ancestor; everything visited on the way to a negative answer is ruled out, so that later
      searches may share the visited set. */
  lemma {:induction false} QueryHops(idx: Index, id: Id, ancestor: Id, visited: set<Id>)
    requires Shaped(idx) && id in idx && ancestor.clock >= 1 && SearchedInVain(idx, visited, ancestor, id.clock)
    ensures var a := Query(idx, id, ancestor, visited);
            a.found == Hops(idx, id, ancestor)
            && (!a.found ==> AllInVain(idx, a.visited - visited, ancestor))
    decreases id.clock, 1, 0
  {
    if id != ancestor && id.clock > ancestor.clock {
      QueryLinksHops(idx, id.clock, Links(idx, id, ancestor.clock), ancestor, visited);
    }
  }

  lemma {:induction false} QueryLinksHops(idx: Index, limit: nat, links: seq<Id>, ancestor: Id, visited: set<Id>)
    requires Shaped(idx) && ancestor.clock >= 1 && forall l :: l in links ==> l in idx && l.clock < limit
    requires SearchedInVain(idx, visited, ancestor, limit)
    ensures var a := QueryLinks(idx, limit, links, ancestor, visited);
            a.found == SomeHops(idx, links, ancestor)
            && (!a.found ==> AllInVain(idx, a.visited - visited, ancestor))
    decreases limit, 0, |links|
  {
    if links != [] {
      var l, rest := links[0], links[1..];
      assert forall x :: x in links <==> x == l || x in rest;
      if l in visited {
        QueryLinksHops(idx, limit, rest, ancestor, visited);
      } else {
        QueryHops(idx, l, ancestor, visited + {l});
        var a := Query(idx, l, ancestor, visited + {l});
        if !a.found {
          QueryLinksHops(idx, limit, rest, ancestor, a.visited);
        }
      }
    }
  }

  /** A search forgets nothing it has visited, and a negative answer has visited every link of
      the row it read. */
  lemma {:induction false} QueryMarks(idx: Index, id: Id, ancestor: Id, visited: set<Id>)
    requires Shaped(idx) && id in idx && ancestor.clock >= 1
    ensures var a := Query(idx, id, ancestor, visited);
            visited <= a.visited
            && (!a.found && id.clock > ancestor.clock ==>
                  forall l :: l in Links(idx, id, ancestor.clock) ==> l in a.visited)
    decreases id.clock, 1, 0
  {
    if id != ancestor && id.clock > ancestor.clock {
      QueryLinksMark(idx, id.clock, Links(idx, id, ancestor.clock), ancestor, visited);
    }
  }

  lemma {:induction false} QueryLinksMark(idx: Index, limit: nat, links: seq<Id>, ancestor: Id, visited: set<Id>)
    requires Shaped(idx) && ancestor.clock >= 1 && forall l :: l in links ==> l in idx && l.clock < limit
    ensures var a := QueryLinks(idx, limit, links, ancestor, visited);
            visited <= a.visited && (!a.found ==> forall l :: l in links ==> l in a.visited)
    decreases limit, 0, |links|
  {
    if links != [] {
      var l, rest := links[0], links[1..];
      assert forall x :: x in links <==> x == l || x in rest;
      if l in visited {
        QueryLinksMark(idx, limit, rest, ancestor, visited);
      } else {
        QueryMarks(idx, l, ancestor, visited + {l});
        var a := Query(idx, l, ancestor, visited + {l});
        if !a.found {
          QueryLinksMark(idx, limit, rest, ancestor, a.visited);
        }
      }
    }
  }

  // ----- when the answer is right -----

  /** Over sound rows stored links lead only to ancestors. */
  lemma {:induction false} HopsSound(dag: Dag, idx: Index, id: Id, a: Id)
    requires WellClocked(dag) && Shaped(idx) && RowsSound(dag, idx) && id in idx && a.clock >= 1
    requires Hops(idx, id, a)
    ensures Reaches(dag, id, a)
    decreases id.clock
  {
    if id != a {
      var l :| l in Links(idx, id, a.clock) && Hops(idx, l, a);
      HopsSound(dag, idx, l, a);
      LinkIsAncestor(dag, idx, id, a.clock, l);
      ReachesTransitive(dag, id, l, a);
    }
  }

  /** Over sound rows the answer is right if and only if stored links lead to the ancestor in
      case it is one. */
  lemma QueryRightIff(dag: Dag, idx: Index, id: Id, ancestor: Id)
    requires WellClocked(dag) && Shaped(idx) && RowsSound(dag, idx) && id in idx && ancestor.clock >= 1
    ensures (Query(idx, id, ancestor, {}).found <==> Reaches(dag, id, ancestor))
            <==> (Reaches(dag, id, ancestor) ==> Hops(idx, id, ancestor))
  {
    QueryHops(idx, id, ancestor, {});
    if Hops(idx, id, ancestor) {
      HopsSound(dag, idx, id, ancestor);
    }
  }

  /** If a is a strict ancestor of id, a link of the row that a search for it reads reaches a. */
  ghost predicate RowLeads(dag: Dag, idx: Index, id: Id, a: Id)
    requires WellClocked(dag) && Shaped(idx) && id in idx && a.clock >= 1
  {
    id.clock > a.clock && Reaches(dag, id, a) ==>
      exists l :: l in Links(idx, id, a.clock) && Reaches(dag, l, a)
  }

  ghost predicate RightAnswer(dag: Dag, idx: Index, id: Id, a: Id)
    requires WellClocked(dag) && Shaped(idx) && id in idx && a.clock >= 1
  {
    Query(idx, id, a, {}).found <==> Reaches(dag, id, a)
  }

  lemma {:induction false} LeadingRowsHop(dag: Dag, idx: Index, id: Id, a: Id)
    requires WellClocked(dag) && Shaped(idx) && RowsSound(dag, idx) && id in idx && a.clock >= 1
    requires forall k {:trigger RowLeads(dag, idx, k, a)} :: k in idx ==> RowLeads(dag, idx, k, a)
    ensures Reaches(dag, id, a) ==> Hops(idx, id, a)
    decreases id.clock
  {
    if Reaches(dag, id, a) && id != a {
      ReachesEarlier(dag, id, a);
      assert RowLeads(dag, idx, id, a);
      var l :| l in Links(idx, id, a.clock) && Reaches(dag, l, a);
      LeadingRowsHop(dag, idx, l, a);
    }
  }

  /** Over sound rows every answer about a is right if and only if every row that a search for a
      reads leads to a, wherever a is an ancestor. */
  lemma AnswersRightIff(dag: Dag, idx: Index, a: Id)
    requires WellClocked(dag) && Shaped(idx) && RowsSound(dag, idx) && a.clock >= 1
    ensures (forall id {:trigger RightAnswer(dag, idx, id, a)} :: id in idx ==> RightAnswer(dag, idx, id, a))
            <==> (forall id {:trigger RowLeads(dag, idx, id, a)} :: id in idx ==> RowLeads(dag, idx, id, a))
  {
    if forall id {:trigger RightAnswer(dag, idx, id, a)} :: id in idx ==> RightAnswer(dag, idx, id, a) {
      forall id | id in idx ensures RowLeads(dag, idx, id, a) {
        assert RightAnswer(dag, idx, id, a);
        QueryRightIff(dag, idx, id, a);
        RightRowLeads(dag, idx, id, a);
      }
    }
    if forall id {:trigger RowLeads(dag, idx, id, a)} :: id in idx ==> RowLeads(dag, idx, id, a) {
      forall id | id in idx ensures RightAnswer(dag, idx, id, a) {
        LeadingRowsHop(dag, idx, id, a);
        QueryRightIff(dag, idx, id, a);
      }
    }
  }

  lemma RightRowLeads(dag: Dag, idx: Index, id: Id, a: Id)
    requires WellClocked(dag) && Shaped(idx) && RowsSound(dag, idx) && id in idx && a.clock >= 1
    requires Reaches(dag, id, a) ==> Hops(idx, id, a)
    ensures RowLeads(dag, idx, id, a)
  {
    if id.clock > a.clock && Reaches(dag, id, a) {
      var l :| l in Links(idx, id, a.clock) && Hops(idx, l, a);
      HopsSound(dag, idx, l, a);
    }
  }

  // ----- over exact rows -----

  lemma ExactIsSound(dag: Dag, idx: Index)
    requires WellClocked(dag) && Shaped(idx) && RowsExact(dag, idx)
    ensures RowsSound(dag, idx)
  {
    forall m, i | m in idx && EntryShaped(idx, m, idx[m]) && 0 <= i < |idx[m]|
      ensures RowSound(dag, m, Targets(m)[i], idx[m][i])
    {
      assert RowExact(dag, m, Targets(m)[i], idx[m][i]);
    }
  }

  /** Exact rows lead to every ancestor. */
  lemma ExactRowLeads(dag: Dag, idx: Index, id: Id, a: Id)
    requires WellClocked(dag) && Shaped(idx) && RowsExact(dag, idx) && id in idx && a.clock >= 1
    ensures RowLeads(dag, idx, id, a)
  {
    if id.clock > a.clock && Reaches(dag, id, a) {
      var i := RowNumber(id, a.clock);
      RowExists(id, a.clock);
      assert EntryShaped(idx, id, idx[id]);
      assert RowExact(dag, id, Targets(id)[i], idx[id][i]);
      var x := FirstAtCovers(dag, id, Targets(id)[i], a);
      assert x in Elements(idx[id][i]);
    }
  }

  lemma ExactHops(dag: Dag, idx: Index, id: Id, a: Id)
    requires WellClocked(dag) && Shaped(idx) && RowsExact(dag, idx) && id in idx && a.clock >= 1
    ensures Hops(idx, id, a) <==> Reaches(dag, id, a)
  {
    ExactIsSound(dag, idx);
    forall k | k in idx ensures RowLeads(dag, idx, k, a) {
      ExactRowLeads(dag, idx, k, a);
    }
    LeadingRowsHop(dag, idx, id, a);
    if Hops(idx, id, a) {
      HopsSound(dag, idx, id, a);
    }
  }

  /** The visited messages below a clock do not reach the ancestor. */
  ghost predicate Ruled(dag: Dag, visited: set<Id>, ancestor: Id, limit: nat)
    requires WellClocked(dag)
  {
    forall v :: v in visited && v.clock < limit ==> !Reaches(dag, v, ancestor)
  }

  /** Over exact rows the answer is exactly reachability, and everything visited on the way
      to a negative answer is ruled out. */
  lemma QueryExact(dag: Dag, idx: Index, id: Id, ancestor: Id, visited: set<Id>)
    requires WellClocked(dag) && Shaped(idx) && RowsExact(dag, idx) && id in idx && ancestor.clock >= 1
    requires Ruled(dag, visited, ancestor, id.clock)
    ensures var a := Query(idx, id, ancestor, visited);
            a.found == Reaches(dag, id, ancestor)
            && (!a.found ==> forall v :: v in a.visited - visited ==> !Reaches(dag, v, ancestor))
  {
    forall k | k in idx ensures Hops(idx, k, ancestor) <==> Reaches(dag, k, ancestor) {
      ExactHops(dag, idx, k, ancestor);
    }
    QueryHops(idx, id, ancestor, visited);
  }

  // ----- one visited set shared by all parents, as the runtime's reads use it -----

  ghost function QueryParents(idx: Index, parents: seq<Id>, ancestor: Id, visited: set<Id>): bool
    requires Shaped(idx) && ancestor.clock >= 1 && forall p :: p in parents ==> p in idx
    decreases |parents|
  {
    if parents == [] then false
    else
      var a := Query(idx, parents[0], ancestor, visited);
      a.found || QueryParents(idx, parents[1..], ancestor, a.visited)
  }

  method AnyParentReaches(idx: Index, parents: seq<Id>, ancestor: Id) returns (found: bool)
    requires Shaped(idx) && ancestor.clock >= 1 && forall p :: p in parents ==> p in idx
    ensures found == QueryParents(idx, parents, ancestor, {})
  {
    var visited := {};
    for i := 0 to |parents|
      invariant QueryParents(idx, parents[i..], ancestor, visited) == QueryParents(idx, parents, ancestor, {})
    {
      assert parents[i..][0] == parents[i] && parents[i..][1..] == parents[i + 1..];
      var isAncestor;
      isAncestor, visited := SearchAncestor(idx, parents[i], ancestor, visited);
      if isAncestor {
        return true;
      }
    }
    found := false;
  }

  lemma {:induction false} QueryParentsSound(
    dag: Dag, idx: Index, parents: seq<Id>, ancestor: Id, visited: set<Id>)
    requires WellClocked(dag) && Shaped(idx) && RowsSound(dag, idx) && ancestor.clock >= 1
    requires (forall p :: p in parents ==> p in idx) && QueryParents(idx, parents, ancestor, visited)
    ensures exists p :: p in parents && Reaches(dag, p, ancestor)
    decreases |parents|
  {
    var a := Query(idx, parents[0], ancestor, visited);
    if a.found {
      QuerySound(dag, idx, parents[0], ancestor, visited);
    } else {
      QueryParentsSound(dag, idx, parents[1..], ancestor, a.visited);
    }
  }

  /** Sharing the visited set among the parents loses nothing, over any index. */
  lemma {:induction false} QueryParentsHops(idx: Index, parents: seq<Id>, ancestor: Id, visited: set<Id>)
    requires Shaped(idx) && ancestor.clock >= 1 && forall p :: p in parents ==> p in idx
    requires forall v :: v in visited && v in idx ==> !Hops(idx, v, ancestor)
    ensures QueryParents(idx, parents, ancestor, visited) <==> SomeHops(idx, parents, ancestor)
    decreases |parents|
  {
    if parents != [] {
      assert forall x :: x in parents <==> x == parents[0] || x in parents[1..];
      QueryHops(idx, parents[0], ancestor, visited);
      var a := Query(idx, parents[0], ancestor, visited);
      if !a.found {
        QueryParentsHops(idx, parents[1..], ancestor, a.visited);
      }
    }
  }

  /** Over exact rows the answer is whether some parent reaches the ancestor. */
  lemma QueryParentsExact(dag: Dag, idx: Index, parents: seq<Id>, ancestor: Id, visited: set<Id>)
    requires WellClocked(dag) && Shaped(idx) && RowsExact(dag, idx) && ancestor.clock >= 1
    requires forall p :: p in parents ==> p in idx
    requires forall v :: v in visited ==> !Reaches(dag, v, ancestor)
    ensures QueryParents(idx, parents, ancestor, visited)
            <==> exists p :: p in parents && Reaches(dag, p, ancestor)
  {
    forall k | k in idx ensures Hops(idx, k, ancestor) <==> Reaches(dag, k, ancestor) {
      ExactHops(dag, idx, k, ancestor);
    }
    QueryParentsHops(idx, parents, ancestor, visited);
  }
}

/** Two indexes over the same history hold the same entries, and searches in them agree. */
module IndexAgreement {
  import opened MessageKeys
  import opened CausalHistory
  import opened AncestorIndex
  import opened IsAncestor

  /** The two indexes have the same entries for the messages they share below a clock. */
  ghost predicate Agree(one: Index, two: Index, limit: nat) {
    forall k {:trigger k in one, k in two} :: k in one && k in two && k.clock < limit ==> one[k] == two[k]
  }

  lemma {:induction false} ExploreAgrees(one: Index, two: Index, key: Id, bound: int, s: Search)
    requires Shaped(one) && Shaped(two) && key in one && key in two && 1 <= bound < key.clock
    requires Agree(one, two, key.clock + 1)
    ensures Explore(one, key, bound, s) == Explore(two, key, bound, s)
    decreases key.clock, 1, 0
  {
    assert Links(one, key, bound) == Links(two, key, bound);
    ExploreLinksAgrees(one, two, key.clock, Links(one, key, bound), bound, s);
  }

  lemma {:induction false} ExploreLinksAgrees(
    one: Index, two: Index, limit: nat, links: seq<Id>, bound: int, s: Search)
    requires Shaped(one) && Shaped(two) && 1 <= bound && Agree(one, two, limit)
    requires forall l :: l in links ==> l in one && l in two && l.clock < limit
    ensures ExploreLinks(one, limit, links, bound, s) == ExploreLinks(two, limit, links, bound, s)
    decreases limit, 0, |links|
  {
    if links != [] {
      var l := links[0];
      if l.clock <= bound {
        ExploreLinksAgrees(one, two, limit, links[1..], bound, s.(results := Add(s.results, l)));
      } else if l !in s.visited {
        var s' := s.(visited := s.visited + {l});
        ExploreAgrees(one, two, l, bound, s');
        ExploreLinksAgrees(one, two, limit, links[1..], bound, Explore(one, l, bound, s'));
      }
    }
  }

  lemma {:induction false} NextRowAgrees(
    one: Index, two: Index, limit: nat, children: seq<Id>, target: int, links: seq<Id>)
    requires Shaped(one) && Shaped(two) && 1 <= target && Agree(one, two, limit)
    requires forall c :: c in children ==> c in one && c in two && c.clock < limit
    ensures NextRow(one, children, target, links) == NextRow(two, children, target, links)
    decreases |children|
  {
    if children != [] {
      var c := children[0];
      if c.clock <= target {
        NextRowAgrees(one, two, limit, children[1..], target, Add(links, c));
      } else {
        ExploreAgrees(one, two, c, target, Search(links, {}));
        NextRowAgrees(one, two, limit, children[1..], target, Explore(one, c, target, Search(links, {})).results);
      }
    }
  }

  lemma {:induction false} RowAgrees(one: Index, two: Index, limit: nat, targets: seq<int>, parents: seq<Id>, i: nat)
    requires Shaped(one) && Shaped(two) && Agree(one, two, limit) && i < |targets|
    requires Positive(targets) && forall t :: t in targets ==> t < limit
    requires ParentsIndexed(one, targets, parents) && ParentsIndexed(two, targets, parents)
    ensures Row(one, targets, parents, i) == Row(two, targets, parents, i)
    decreases i
  {
    if i > 0 {
      RowAgrees(one, two, limit, targets, parents, i - 1);
      var prev := Row(one, targets, parents, i - 1);
      assert RowShaped(one, targets[i - 1], prev) && RowShaped(two, targets[i - 1], prev);
      assert targets[i - 1] in targets;
      NextRowAgrees(one, two, limit, prev, targets[i], []);
    }
  }

  lemma EntryAgrees(one: Index, two: Index, m: Id, parents: seq<Id>)
    requires Shaped(one) && Shaped(two) && Ready(one, m, parents) && Ready(two, m, parents)
    requires Agree(one, two, m.clock)
    ensures Entry(one, m, parents) == Entry(two, m, parents)
  {
    ReadyTargets(one, m, parents);
    ReadyTargets(two, m, parents);
    var targets := Targets(m);
    assert forall t :: t in targets ==> t < m.clock;
    forall i | 0 <= i < |targets| ensures Row(one, targets, parents, i) == Row(two, targets, parents, i) {
      RowAgrees(one, two, m.clock, targets, parents, i);
    }
  }

  /** The stored rows are a function of the causal history: any two peers that hold a
      message have the same entry for it, however the rest of their logs differ. */
  lemma {:induction false} BuiltIndexesAgree(dag: Dag, one: Index, two: Index, limit: nat)
    requires WellClocked(dag) && Built(dag, one) && Built(dag, two)
    ensures Agree(one, two, limit)
    decreases limit
  {
    if limit > 0 {
      BuiltIndexesAgree(dag, one, two, limit - 1);
      forall k | k in one && k in two && k.clock == limit - 1 ensures one[k] == two[k] {
        assert BuiltAt(dag, one, k) && BuiltAt(dag, two, k);
        EntryAgrees(one, two, k, dag[k]);
      }
    }
  }

  lemma {:induction false} QueryAgrees(one: Index, two: Index, id: Id, ancestor: Id, visited: set<Id>)
    requires Shaped(one) && Shaped(two) && id in one && id in two && ancestor.clock >= 1
    requires Agree(one, two, id.clock + 1)
    ensures Query(one, id, ancestor, visited) == Query(two, id, ancestor, visited)
    decreases id.clock, 1, 0
  {
    if id != ancestor && id.clock > ancestor.clock {
      assert Links(one, id, ancestor.clock) == Links(two, id, ancestor.clock);
      QueryLinksAgrees(one, two, id.clock, Links(one, id, ancestor.clock), ancestor, visited);
    }
  }

  lemma {:induction false} QueryLinksAgrees(
    one: Index, two: Index, limit: nat, links: seq<Id>, ancestor: Id, visited: set<Id>)
    requires Shaped(one) && Shaped(two) && ancestor.clock >= 1 && Agree(one, two, limit)
    requires forall l :: l in links ==> l in one && l in two && l.clock < limit
    ensures QueryLinks(one, limit, links, ancestor, visited) == QueryLinks(two, limit, links, ancestor, visited)
    decreases limit, 0, |links|
  {
    if links != [] {
      if links[0] in visited {
        QueryLinksAgrees(one, two, limit, links[1..], ancestor, visited);
      } else {
        QueryAgrees(one, two, links[0], ancestor, visited + {links[0]});
        var a := Query(one, links[0], ancestor, visited + {links[0]});
        if !a.found {
          QueryLinksAgrees(one, two, limit, links[1..], ancestor, a.visited);
        }
      }
    }
  }

  lemma {:induction false} QueryParentsAgrees(
    one: Index, two: Index, parents: seq<Id>, ancestor: Id, visited: set<Id>, limit: nat)
    requires Shaped(one) && Shaped(two) && ancestor.clock >= 1 && Agree(one, two, limit)
    requires forall p :: p in parents ==> p in one && p in two && p.clock < limit
    ensures QueryParents(one, parents, ancestor, visited) == QueryParents(two, parents, ancestor, visited)
    decreases |parents|
  {
    if parents != [] {
      QueryAgrees(one, two, parents[0], ancestor, visited);
      QueryParentsAgrees(one, two, parents[1..], ancestor, Query(one, parents[0], ancestor, visited).visited, limit);
    }
  }
}
