/** A condition on the stored rows alone under which `getAncestors` loses nothing: no link it
    can come to twice has a link after it. */
module UnsharedLinks {
  import opened MessageKeys
  import opened AncestorClocks
  import opened CausalHistory
  import opened AncestorIndex
  import opened AncestorSearch

  /** The messages a search from key for clock `bound` can come to. */
  ghost function Above(idx: Index, key: Id, bound: int): (ids: set<Id>)
    requires Shaped(idx) && key in idx && 1 <= bound < key.clock
    ensures key in ids && forall n :: n in ids ==> n in idx && bound < n.clock <= key.clock
    ensures forall n :: n in ids && n != key ==> n.clock < key.clock
    decreases key.clock
  {
    {key} + set l, n | l in Links(idx, key, bound) && l.clock > bound && n in Above(idx, l, bound) :: n
  }

  /** Link j of the row that a search at n reads. */
  ghost predicate At(idx: Index, bound: int, n: Id, j: nat, l: Id)
    requires Shaped(idx) && n in idx && 1 <= bound < n.clock
  {
    j < |Links(idx, n, bound)| && Links(idx, n, bound)[j] == l
  }

  /** The row goes on after link j. */
  ghost predicate GoesOn(idx: Index, bound: int, n: Id, j: nat)
    requires Shaped(idx) && n in idx && 1 <= bound < n.clock
  {
    j + 1 < |Links(idx, n, bound)|
  }

  /** No link above the bound stands at two places and is followed by another at one of them. */
  ghost predicate Unshared(idx: Index, key: Id, bound: int)
    requires Shaped(idx) && key in idx && 1 <= bound < key.clock
  {
    forall n: Id, i: nat, w: Id, j: nat, l: Id {:trigger At(idx, bound, n, i, l), At(idx, bound, w, j, l)} ::
      n in Above(idx, key, bound) && w in Above(idx, key, bound) && l.clock > bound
      && At(idx, bound, n, i, l) && At(idx, bound, w, j, l) && GoesOn(idx, bound, n, i)
      ==> n == w && i == j
  }

  lemma {:induction false} AboveIsClosed(idx: Index, key: Id, bound: int, n: Id, l: Id)
    requires Shaped(idx) && key in idx && 1 <= bound < key.clock && n in Above(idx, key, bound)
    requires l in Links(idx, n, bound) && l.clock > bound
    ensures l in Above(idx, key, bound) && l != key
    decreases key.clock
  {
    if n == key {
      assert l in Above(idx, l, bound);
    } else {
      var x :| x in Links(idx, key, bound) && x.clock > bound && n in Above(idx, x, bound);
      AboveIsClosed(idx, x, bound, n, l);
    }
  }

  /** v stands at link j of a message in `from`. */
  ghost predicate Place(idx: Index, bound: int, from: set<Id>, w: Id, j: nat, v: Id)
    requires Shaped(idx) && 1 <= bound
  {
    w in from && w in idx && w.clock > bound && At(idx, bound, w, j, v)
  }

  /** v has been met somewhere other than at the links of n from number i on. */
  ghost predicate MetBefore(idx: Index, bound: int, from: set<Id>, n: Id, i: nat, v: Id)
    requires Shaped(idx) && 1 <= bound
  {
    exists w, j: nat {:trigger Place(idx, bound, from, w, j, v)} ::
      Place(idx, bound, from, w, j, v) && (w != n || j < i)
  }

  /** v has been met in a row of a message up to a clock. */
  ghost predicate MetUpTo(idx: Index, bound: int, from: set<Id>, limit: int, v: Id)
    requires Shaped(idx) && 1 <= bound
  {
    exists w, j: nat {:trigger Place(idx, bound, from, w, j, v)} ::
      Place(idx, bound, from, w, j, v) && w.clock <= limit
  }

  ghost predicate AllMet(idx: Index, bound: int, from: set<Id>, n: Id, i: nat, visited: set<Id>)
    requires Shaped(idx) && 1 <= bound
  {
    forall v {:trigger MetBefore(idx, bound, from, n, i, v)} :: v in visited ==> MetBefore(idx, bound, from, n, i, v)
  }

  /** What a search at n, begun at root, adds to the visited set. */
  ghost predicate Spread(idx: Index, root: Id, bound: int, n: Id, before: set<Id>, after: set<Id>)
    requires Shaped(idx) && root in idx && 1 <= bound < root.clock
  {
    before <= after <= Above(idx, root, bound)
    && forall v {:trigger MetUpTo(idx, bound, after + {root}, n.clock, v)} ::
         v in after && v !in before ==> v.clock < n.clock && MetUpTo(idx, bound, after + {root}, n.clock, v)
  }

  /** The state in which a search begun at root comes to link i of n. */
  ghost predicate Walking(idx: Index, root: Id, bound: int, n: Id, i: nat, visited: set<Id>)
    requires Shaped(idx) && root in idx && 1 <= bound < root.clock
  {
    n in Above(idx, root, bound) && i <= |Links(idx, n, bound)|
    && visited <= Above(idx, root, bound) && root !in visited && n in visited + {root}
    && AllMet(idx, bound, visited + {root}, n, i, visited)
  }

  lemma {:induction false} WalkDropsNothing(idx: Index, root: Id, bound: int, n: Id, s: Search)
    requires Shaped(idx) && root in idx && 1 <= bound < root.clock && Unshared(idx, root, bound)
    requires Walking(idx, root, bound, n, 0, s.visited)
    ensures Dropped(idx, n, bound, s) == {}
    ensures Spread(idx, root, bound, n, s.visited, Explore(idx, n, bound, s).visited)
    decreases n.clock, 1, 0
  {
    assert Links(idx, n, bound)[0..] == Links(idx, n, bound);
    RestDropsNothing(idx, root, bound, n, 0, s);
  }

  lemma {:induction false} RestDropsNothing(idx: Index, root: Id, bound: int, n: Id, i: nat, s: Search)
    requires Shaped(idx) && root in idx && 1 <= bound < root.clock && Unshared(idx, root, bound)
    requires Walking(idx, root, bound, n, i, s.visited)
    ensures DroppedLinks(idx, n.clock, Links(idx, n, bound)[i..], bound, s) == {}
    ensures Spread(idx, root, bound, n, s.visited,
              ExploreLinks(idx, n.clock, Links(idx, n, bound)[i..], bound, s).visited)
    decreases n.clock, 0, |Links(idx, n, bound)| - i
  {
    var links := Links(idx, n, bound);
    if i < |links| {
      var l := links[i];
      assert links[i..][0] == l && links[i..][1..] == links[i + 1..];
      assert At(idx, bound, n, i, l);
      if l.clock <= bound {
        NextPlace(idx, root, bound, n, i, s.visited);
        RestDropsNothing(idx, root, bound, n, i + 1, s.(results := Add(s.results, l)));
      } else if l in s.visited {
        MetIsLast(idx, root, bound, n, i, l, s.visited);
        assert links[i + 1..] == [];
      } else {
        var s1 := s.(visited := s.visited + {l});
        EnterLink(idx, root, bound, n, i, l, s.visited);
        WalkDropsNothing(idx, root, bound, l, s1);
        var s2 := Explore(idx, l, bound, s1);
        LeaveLink(idx, root, bound, n, i, l, s.visited, s2.visited);
        RestDropsNothing(idx, root, bound, n, i + 1, s2);
        var s3 := ExploreLinks(idx, n.clock, links[i + 1..], bound, s2);
        SpreadOn(idx, root, bound, n, i, l, s.visited, s2.visited, s3.visited);
      }
    }
  }

  lemma NextPlace(idx: Index, root: Id, bound: int, n: Id, i: nat, visited: set<Id>)
    requires Shaped(idx) && root in idx && 1 <= bound < root.clock
    requires Walking(idx, root, bound, n, i, visited) && i < |Links(idx, n, bound)|
    ensures Walking(idx, root, bound, n, i + 1, visited)
  {
    forall v | v in visited ensures MetBefore(idx, bound, visited + {root}, n, i + 1, v) {
      assert MetBefore(idx, bound, visited + {root}, n, i, v);
    }
  }

  /** A link that was visited before ends its row. */
  lemma MetIsLast(idx: Index, root: Id, bound: int, n: Id, i: nat, l: Id, visited: set<Id>)
    requires Shaped(idx) && root in idx && 1 <= bound < root.clock && Unshared(idx, root, bound)
    requires Walking(idx, root, bound, n, i, visited)
    requires At(idx, bound, n, i, l) && l in visited && l.clock > bound
    ensures !GoesOn(idx, bound, n, i)
  {
    assert MetBefore(idx, bound, visited + {root}, n, i, l);
    var w, j: nat :| Place(idx, bound, visited + {root}, w, j, l) && (w != n || j < i);
  }

  /** Going down to a link met for the first time. */
  lemma EnterLink(idx: Index, root: Id, bound: int, n: Id, i: nat, l: Id, visited: set<Id>)
    requires Shaped(idx) && root in idx && 1 <= bound < root.clock
    requires Walking(idx, root, bound, n, i, visited)
    requires At(idx, bound, n, i, l) && l !in visited && l.clock > bound
    ensures Walking(idx, root, bound, l, 0, visited + {l})
  {
    AboveIsClosed(idx, root, bound, n, l);
    var from := visited + {l} + {root};
    forall v | v in visited + {l} ensures MetBefore(idx, bound, from, l, 0, v) {
      if v == l {
        assert Place(idx, bound, from, n, i, l);
      } else {
        assert MetBefore(idx, bound, visited + {root}, n, i, v);
        var w, j: nat :| Place(idx, bound, visited + {root}, w, j, v) && (w != n || j < i);
        assert Place(idx, bound, from, w, j, v);
      }
    }
  }

  /** Coming back to n: what was visited meanwhile was met in rows below n. */
  lemma LeaveLink(
    idx: Index, root: Id, bound: int, n: Id, i: nat, l: Id, before: set<Id>, after: set<Id>)
    requires Shaped(idx) && root in idx && 1 <= bound < root.clock
    requires Walking(idx, root, bound, n, i, before)
    requires At(idx, bound, n, i, l) && l !in before && l.clock > bound
    requires Spread(idx, root, bound, l, before + {l}, after)
    ensures Walking(idx, root, bound, n, i + 1, after)
  {
    AboveIsClosed(idx, root, bound, n, l);
    var from := after + {root};
    forall v | v in after ensures MetBefore(idx, bound, from, n, i + 1, v) {
      if v in before {
        assert MetBefore(idx, bound, before + {root}, n, i, v);
        var w, j: nat :| Place(idx, bound, before + {root}, w, j, v) && (w != n || j < i);
        assert Place(idx, bound, from, w, j, v);
      } else if v == l {
        assert Place(idx, bound, from, n, i, l);
      } else {
        assert MetUpTo(idx, bound, from, l.clock, v);
      }
    }
  }

  lemma SpreadOn(
    idx: Index, root: Id, bound: int, n: Id, i: nat, l: Id, before: set<Id>, between: set<Id>, after: set<Id>)
    requires Shaped(idx) && root in idx && 1 <= bound < root.clock && n in idx && n.clock > bound
    requires n in before + {root} && At(idx, bound, n, i, l) && l.clock < n.clock
    requires Spread(idx, root, bound, l, before + {l}, between) && Spread(idx, root, bound, n, between, after)
    ensures Spread(idx, root, bound, n, before, after)
  {
    var from := after + {root};
    forall v | v in after && v !in before ensures v.clock < n.clock && MetUpTo(idx, bound, from, n.clock, v) {
      if v == l {
        assert Place(idx, bound, from, n, i, l);
      } else if v in between {
        assert MetUpTo(idx, bound, between + {root}, l.clock, v);
        var w, j: nat :| Place(idx, bound, between + {root}, w, j, v) && w.clock <= l.clock;
        assert Place(idx, bound, from, w, j, v);
      } else {
        assert MetUpTo(idx, bound, from, n.clock, v);
      }
    }
  }

  /** A search from a message whose reachable rows share no link that goes on drops nothing, and
      so finds exactly the first ancestors. */
  lemma UnsharedIsExact(dag: Dag, idx: Index, key: Id, bound: int, results: seq<Id>)
    requires WellClocked(dag) && Shaped(idx) && ExactBelow(dag, idx, key.clock + 1)
    requires key in idx && 1 <= bound < key.clock && Unshared(idx, key, bound)
    ensures Dropped(idx, key, bound, Search(results, {})) == {}
    ensures Elements(Explore(idx, key, bound, Search(results, {})).results)
            == Elements(results) + FirstAt(dag, key, bound)
  {
    WalkDropsNothing(idx, key, bound, key, Search(results, {}));
    SearchConserves(dag, idx, key, bound, results);
  }

  // ----- exactly when nothing is dropped -----

  ghost function AboveOf(idx: Index, links: seq<Id>, bound: int): set<Id>
    requires Shaped(idx) && 1 <= bound && forall l :: l in links ==> l in idx
  {
    set l, n | l in links && l.clock > bound && n in Above(idx, l, bound) :: n
  }

  /** With `covered` visited before: every link above the bound that is covered, or that an
      earlier link of its row leads to, is the last of its row, and below the others the same. */
  ghost predicate Clear(idx: Index, key: Id, bound: int, covered: set<Id>)
    requires Shaped(idx) && key in idx && 1 <= bound < key.clock
    decreases key.clock, 1, 0
  {
    ClearFrom(idx, key, bound, covered, 0)
  }

  ghost predicate ClearFrom(idx: Index, key: Id, bound: int, covered: set<Id>, i: nat)
    requires Shaped(idx) && key in idx && 1 <= bound < key.clock && i <= |Links(idx, key, bound)|
    decreases key.clock, 0, |Links(idx, key, bound)| - i
  {
    var links := Links(idx, key, bound);
    if i == |links| then true
    else
      var before := covered + AboveOf(idx, links[..i], bound);
      if links[i].clock > bound && links[i] in before then i == |links| - 1
      else
        (links[i].clock > bound ==> Clear(idx, links[i], bound, before + {links[i]}))
        && ClearFrom(idx, key, bound, covered, i + 1)
  }

  /** A visited set that holds what its members below a clock lead to. */
  ghost predicate Shut(idx: Index, bound: int, limit: nat, visited: set<Id>)
    requires Shaped(idx) && 1 <= bound
  {
    forall v {:trigger LeadsWithin(idx, bound, v, visited)} ::
      v in visited && v.clock < limit ==> LeadsWithin(idx, bound, v, visited)
  }

  ghost predicate LeadsWithin(idx: Index, bound: int, v: Id, visited: set<Id>)
    requires Shaped(idx) && 1 <= bound
  {
    v in idx && v.clock > bound && Above(idx, v, bound) <= visited
  }

  /** A search drops nothing if and only if its rows are clear. */
  lemma {:induction false} DropsNothingIff(idx: Index, key: Id, bound: int, s: Search)
    requires Shaped(idx) && key in idx && 1 <= bound < key.clock && Shut(idx, bound, key.clock, s.visited)
    ensures Dropped(idx, key, bound, s) == {} <==> Clear(idx, key, bound, s.visited)
    ensures Dropped(idx, key, bound, s) == {} ==>
              Explore(idx, key, bound, s).visited == s.visited + AboveOf(idx, Links(idx, key, bound), bound)
    decreases key.clock, 1, 0
  {
    var links := Links(idx, key, bound);
    assert links[0..] == links && links[..0] == [];
    assert AboveOf(idx, links[..0], bound) == {};
    RestDropsNothingIff(idx, key, bound, s.visited, 0, s);
  }

  /** The links from number i on, when those before have been followed and dropped nothing. */
  lemma {:induction false} RestDropsNothingIff(
    idx: Index, key: Id, bound: int, covered: set<Id>, i: nat, s: Search)
    requires Shaped(idx) && key in idx && 1 <= bound < key.clock && Shut(idx, bound, key.clock, covered)
    requires i <= |Links(idx, key, bound)|
    requires s.visited == covered + AboveOf(idx, Links(idx, key, bound)[..i], bound)
    ensures DroppedLinks(idx, key.clock, Links(idx, key, bound)[i..], bound, s) == {}
            <==> ClearFrom(idx, key, bound, covered, i)
    ensures DroppedLinks(idx, key.clock, Links(idx, key, bound)[i..], bound, s) == {} ==>
              ExploreLinks(idx, key.clock, Links(idx, key, bound)[i..], bound, s).visited
              == covered + AboveOf(idx, Links(idx, key, bound), bound)
    decreases key.clock, 0, |Links(idx, key, bound)| - i
  {
    var links := Links(idx, key, bound);
    if i == |links| {
      assert links[..i] == links;
    } else {
      var l := links[i];
      assert links[i..][0] == l && links[i..][1..] == links[i + 1..];
      if l.clock <= bound {
        AboveOfNext(idx, links, bound, i);
        RestDropsNothingIff(idx, key, bound, covered, i + 1, s.(results := Add(s.results, l)));
      } else if l in s.visited {
        ShutStays(idx, key, bound, covered, i);
        VisitedEndsRow(idx, links, bound, covered, i, s.visited);
      } else {
        var s1 := s.(visited := s.visited + {l});
        ShutStays(idx, key, bound, covered, i);
        ShutWith(idx, bound, l, key.clock, s.visited);
        DropsNothingIff(idx, l, bound, s1);
        var s2 := Explore(idx, l, bound, s1);
        if Dropped(idx, l, bound, s1) == {} {
          CoveredNext(idx, links, bound, covered, i, s2.visited);
          RestDropsNothingIff(idx, key, bound, covered, i + 1, s2);
        }
      }
    }
  }

  lemma VisitedEndsRow(idx: Index, links: seq<Id>, bound: int, covered: set<Id>, i: nat, visited: set<Id>)
    requires Shaped(idx) && 1 <= bound && i < |links| && forall l :: l in links ==> l in idx
    requires visited == covered + AboveOf(idx, links[..i], bound)
    requires links[i].clock > bound && LeadsWithin(idx, bound, links[i], visited)
    ensures Elements(links[i + 1..]) == {} <==> i == |links| - 1
    ensures i == |links| - 1 ==> visited == covered + AboveOf(idx, links, bound)
  {
    AboveOfNext(idx, links, bound, i);
    NoElements(links[i + 1..]);
    if i == |links| - 1 {
      assert links[..i + 1] == links;
    }
  }

  lemma CoveredNext(idx: Index, links: seq<Id>, bound: int, covered: set<Id>, i: nat, visited: set<Id>)
    requires Shaped(idx) && 1 <= bound && i < |links| && forall l :: l in links ==> l in idx
    requires links[i].clock > bound
    requires visited
          == covered + AboveOf(idx, links[..i], bound) + {links[i]} + AboveOf(idx, Links(idx, links[i], bound), bound)
    ensures visited == covered + AboveOf(idx, links[..i + 1], bound)
  {
    AboveOfLinks(idx, links[i], bound);
    AboveOfNext(idx, links, bound, i);
  }

  lemma NoElements(links: seq<Id>)
    ensures Elements(links) == {} <==> links == []
  {
    if links != [] {
      assert links[0] in Elements(links);
    }
  }

  lemma AboveOfNext(idx: Index, links: seq<Id>, bound: int, i: nat)
    requires Shaped(idx) && 1 <= bound && i < |links| && forall l :: l in links ==> l in idx
    ensures AboveOf(idx, links[..i + 1], bound)
         == AboveOf(idx, links[..i], bound) + if links[i].clock > bound then Above(idx, links[i], bound) else {}
  {
    assert forall l :: l in links[..i + 1] <==> l in links[..i] || l == links[i];
  }

  lemma AboveOfLinks(idx: Index, key: Id, bound: int)
    requires Shaped(idx) && key in idx && 1 <= bound < key.clock
    ensures Above(idx, key, bound) == {key} + AboveOf(idx, Links(idx, key, bound), bound)
  {
  }

  lemma AboveNested(idx: Index, key: Id, bound: int, n: Id)
    requires Shaped(idx) && key in idx && 1 <= bound < key.clock && n in Above(idx, key, bound)
    ensures Above(idx, n, bound) <= Above(idx, key, bound)
    decreases key.clock
  {
    if n != key {
      var l :| l in Links(idx, key, bound) && l.clock > bound && n in Above(idx, l, bound);
      AboveNested(idx, l, bound, n);
    }
  }

  lemma ShutStays(idx: Index, key: Id, bound: int, covered: set<Id>, i: nat)
    requires Shaped(idx) && key in idx && 1 <= bound < key.clock && Shut(idx, bound, key.clock, covered)
    requires i <= |Links(idx, key, bound)|
    ensures Shut(idx, bound, key.clock, covered + AboveOf(idx, Links(idx, key, bound)[..i], bound))
  {
    var links := Links(idx, key, bound)[..i];
    var all := covered + AboveOf(idx, links, bound);
    forall v | v in all && v.clock < key.clock ensures LeadsWithin(idx, bound, v, all) {
      if v in covered {
        assert LeadsWithin(idx, bound, v, covered);
      } else {
        var l :| l in links && l.clock > bound && v in Above(idx, l, bound);
        AboveNested(idx, l, bound, v);
      }
    }
  }

  lemma ShutWith(idx: Index, bound: int, l: Id, limit: nat, visited: set<Id>)
    requires Shaped(idx) && 1 <= bound && Shut(idx, bound, limit, visited) && l.clock < limit
    ensures Shut(idx, bound, l.clock, visited + {l})
  {
    forall v | v in visited + {l} && v.clock < l.clock ensures LeadsWithin(idx, bound, v, visited + {l}) {
      assert LeadsWithin(idx, bound, v, visited);
    }
  }
}
