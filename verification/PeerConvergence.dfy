/** Convergence of peers: each applies its own delivery sequence, with its own ancestor
    index, and they end with the same tables. */
module PeerConvergence {
  import opened MessageKeys
  import opened CausalHistory
  import opened AncestorIndex
  import opened AncestorSearch
  import opened IsAncestor
  import opened IndexAgreement
  import opened Delivery
  import opened Options
  import opened EffectKeys
  import opened Runtime
  import opened Consumer

  /** First ancestors are found within any parent-closed part of the history. */
  lemma {:induction false} FirstAtWithin(dag: Dag, part: Dag, m: Id, t: int)
    requires WellClocked(dag) && WellClocked(part) && StoreInvariant(dag, part) && m in part
    ensures FirstAt(part, m, t) == FirstAt(dag, m, t)
    decreases m.clock
  {
    if m.clock > t {
      assert HasParents(dag, part.Keys, m);
      forall p | p in dag[m] ensures FirstAt(part, p, t) == FirstAt(dag, p, t) {
        FirstAtWithin(dag, part, p, t);
      }
    }
  }

  lemma RowsSoundWithin(dag: Dag, part: Dag, idx: Index)
    requires WellClocked(dag) && WellClocked(part) && StoreInvariant(dag, part)
    requires Shaped(idx) && RowsSound(dag, idx) && idx.Keys == part.Keys
    ensures RowsSound(part, idx)
  {
    forall m, i | m in idx && EntryShaped(idx, m, idx[m]) && 0 <= i < |idx[m]|
      ensures RowSound(part, m, Targets(m)[i], idx[m][i])
    {
      assert RowSound(dag, m, Targets(m)[i], idx[m][i]);
      FirstAtWithin(dag, part, m, Targets(m)[i]);
    }
  }

  lemma PartIsWellClocked(dag: Dag, part: Dag)
    requires WellClocked(dag) && StoreInvariant(dag, part)
    ensures WellClocked(part) && Closed(part, part.Keys)
  {
    forall m | m in part ensures HasParents(part, part.Keys, m) && m in dag && part[m] == dag[m] {
      assert HasParents(dag, part.Keys, m);
    }
  }

  /** The history a peer has stored, with its own index. */
  ghost function WorldOf(peer: Peer, actions: Id -> Action, less: Order): World {
    World(peer.messages, peer.ancestors, map m | m in peer.messages :: actions(m), less)
  }

  lemma PeerWorld(dag: Dag, peer: Peer, actions: Id -> Action, less: Order)
    requires WellClocked(dag) && PeerInvariant(dag, peer)
    requires forall m :: m in peer.messages ==> ValidId(m)
    requires forall a, b :: less(a, b) <==> IdLess(a, b)
    ensures Sound(WorldOf(peer, actions, less)) && OrderedByKey(WorldOf(peer, actions, less))
    ensures IsDelivery(WorldOf(peer, actions, less).dag, peer.delivered)
    ensures Elements(peer.delivered) == WorldOf(peer, actions, less).dag.Keys
  {
    PartIsWellClocked(dag, peer.messages);
    RowsSoundWithin(dag, peer.messages, peer.ancestors);
    KeyOrderIsTotal(less, peer.messages.Keys);
    forall i | 0 <= i < |peer.delivered| ensures DeliveredAt(peer.messages, peer.delivered, i) {
      assert DeliveredAt(dag, peer.delivered, i);
      assert peer.delivered[i] in Elements(peer.delivered);
      assert HasParents(dag, peer.messages.Keys, peer.delivered[i]);
    }
  }

  /** At any earlier moment, the index of a peer's log serves the transactions of the
      messages whose parents it had, as the final index would. */
  lemma EarlierIndexServes(dag: Dag, peer: Peer, earlier: Index, actions: Id -> Action, less: Order, m: Id)
    requires WellClocked(dag) && PeerInvariant(dag, peer) && Built(dag, earlier)
    requires Sound(WorldOf(peer, actions, less))
    requires m in peer.messages && forall p :: p in peer.messages[m] ==> p in earlier
    ensures InTransaction(WorldOf(peer, actions, less), earlier, m)
  {
    BuiltIndexesAgree(dag, earlier, peer.ancestors, m.clock);
    assert HasParents(dag, peer.messages.Keys, m);
  }

  /** Peers that have received the same messages, in whatever orders and however often,
      hold the same effects and the same model tables. */
  lemma PeersConverge(dag: Dag, a: Peer, b: Peer, actions: Id -> Action, less: Order)
    requires WellClocked(dag) && PeerInvariant(dag, a) && PeerInvariant(dag, b) && a.received == b.received
    requires forall m :: m in a.received ==> ValidId(m)
    requires forall x, y :: less(x, y) <==> IdLess(x, y)
    ensures WorldOf(a, actions, less) == WorldOf(b, actions, less)
    ensures var w := WorldOf(a, actions, less);
            Sound(w) && Elements(a.delivered) == Elements(b.delivered) == w.dag.Keys
            && RunAll(w, a.delivered) == RunAll(w, b.delivered)
  {
    SameReceivedSamePeer(dag, a, b);
    PeerWorld(dag, a, actions, less);
    PeerWorld(dag, b, actions, less);
    assert WorldOf(a, actions, less) == WorldOf(b, actions, less);
    Converges(WorldOf(a, actions, less), a.delivered, b.delivered);
  }

  /** A runtime that has consumed the messages of `order`. */
  ghost predicate Replayed(w: World, runtime: FunctionRuntime, order: seq<Id>)
    requires Sound(w)
    reads runtime
  {
    runtime.Valid() && runtime.world == w && Elements(order) <= w.dag.Keys && runtime.db == RunAll(w, order)
  }

  /** A log whose messages may be replayed, and its world. */
  ghost predicate Replayable(dag: Dag, peer: Peer, actions: Id -> Action, less: Order, w: World) {
    WellClocked(dag) && PeerInvariant(dag, peer) && w == WorldOf(peer, actions, less)
    && Sound(w) && OrderedByKey(w) && IsDelivery(w.dag, peer.delivered) && Elements(peer.delivered) == w.dag.Keys
  }

  /** What `apply` does with a log's messages: each is consumed against the ancestor index as it
      is then, which gets the message's entry afterwards. */
  method Replay(
    ghost dag: Dag, ghost peer: Peer, delivered: seq<Id>, messages: map<Id, seq<Id>>,
    actions: Id -> Action, ghost less: Order) returns (runtime: FunctionRuntime)
    requires WellClocked(dag) && PeerInvariant(dag, peer) && delivered == peer.delivered && messages == peer.messages
    requires forall m :: m in peer.messages ==> ValidId(m)
    requires forall a, b :: less(a, b) <==> IdLess(a, b)
    ensures fresh(runtime) && Sound(WorldOf(peer, actions, less))
    ensures Replayed(WorldOf(peer, actions, less), runtime, delivered)
  {
    PeerWorld(dag, peer, actions, less);
    ghost var w := WorldOf(peer, actions, less);
    runtime := new FunctionRuntime(w);
    ReplayAll(dag, peer, delivered, messages, actions, less, w, runtime);
  }

  method ReplayAll(
    ghost dag: Dag, ghost peer: Peer, delivered: seq<Id>, messages: map<Id, seq<Id>>,
    actions: Id -> Action, ghost less: Order, ghost w: World, runtime: FunctionRuntime)
    requires Replayable(dag, peer, actions, less, w) && delivered == peer.delivered && messages == w.dag
    requires Replayed(w, runtime, [])
    modifies runtime
    ensures Replayed(w, runtime, delivered)
  {
    var idx: Index := map[];
    NothingIndexed(dag);
    ghost var done: seq<Id> := [];
    for i := 0 to |delivered|
      invariant done == delivered[..i]
      invariant Replayed(w, runtime, done) && IndexInvariant(dag, Elements(done), idx)
    {
      idx := ReplayNext(dag, peer, actions, less, w, runtime, idx, i, delivered[i], messages);
      OneMore(delivered, i);
      done := done + [delivered[i]];
    }
    assert done == delivered by { OneMore(delivered, |delivered|); }
  }

  lemma NothingIndexed(dag: Dag)
    requires WellClocked(dag)
    ensures IndexInvariant(dag, Elements([]), map[])
  {
  }

  method ReplayNext(
    ghost dag: Dag, ghost peer: Peer, actions: Id -> Action, ghost less: Order, ghost w: World,
    runtime: FunctionRuntime, idx: Index, ghost i: nat, id: Id, messages: map<Id, seq<Id>>) returns (idx': Index)
    requires Replayable(dag, peer, actions, less, w) && i < |peer.delivered| && id == peer.delivered[i]
    requires messages == w.dag && Replayed(w, runtime, peer.delivered[..i])
    requires IndexInvariant(dag, Elements(peer.delivered[..i]), idx)
    modifies runtime
    ensures Replayed(w, runtime, peer.delivered[..i] + [id])
    ensures IndexInvariant(dag, Elements(peer.delivered[..i] + [id]), idx')
  {
    NextInLine(dag, peer, actions, less, w, idx, i);
    ConsumeNext(w, runtime, idx, peer.delivered[..i], id, messages[id], actions(id));
    idx' := IndexNext(dag, idx, peer.delivered[..i], id, messages[id]);
  }

  method ConsumeNext(
    ghost w: World, runtime: FunctionRuntime, idx: Index, ghost order: seq<Id>,
    id: Id, parents: seq<Id>, action: Action)
    requires Sound(w) && Replayed(w, runtime, order)
    requires InTransaction(w, idx, id) && w.dag[id] == parents && w.actions[id] == action
    modifies runtime
    ensures Replayed(w, runtime, order + [id])
  {
    runtime.Consume(idx, id, parents, action);
    RunAllNext(w, order, id);
  }

  method IndexNext(ghost dag: Dag, idx: Index, ghost order: seq<Id>, id: Id, parents: seq<Id>) returns (idx': Index)
    requires WellClocked(dag) && IndexInvariant(dag, Elements(order), idx)
    requires id in dag && dag[id] == parents && Ready(idx, id, parents)
    ensures IndexInvariant(dag, Elements(order + [id]), idx')
  {
    StoreIndex(dag, Elements(order), idx, id);
    var links := BuildEntry(idx, id, parents);
    idx' := idx[id := links];
    assert Elements(order + [id]) == Elements(order) + {id};
  }

  /** The next message of a log has its parents in the index built so far. */
  lemma NextInLine(dag: Dag, peer: Peer, actions: Id -> Action, less: Order, w: World, idx: Index, i: nat)
    requires Replayable(dag, peer, actions, less, w) && i < |peer.delivered|
    requires IndexInvariant(dag, Elements(peer.delivered[..i]), idx)
    ensures var id := peer.delivered[i];
            InTransaction(w, idx, id) && w.actions[id] == actions(id)
            && id in dag && w.dag[id] == dag[id] && Ready(idx, id, dag[id])
  {
    var id := peer.delivered[i];
    assert DeliveredAt(w.dag, peer.delivered, i);
    assert HasParents(dag, peer.messages.Keys, id);
    forall p | p in dag[id] ensures p in idx {
      assert p in Elements(peer.delivered[..i]);
    }
    EarlierIndexServes(dag, peer, idx, actions, less, id);
  }

  lemma RunAllNext(w: World, order: seq<Id>, id: Id)
    requires Sound(w) && Elements(order) <= w.dag.Keys && id in w.dag
    ensures Elements(order + [id]) <= w.dag.Keys && RunAll(w, order + [id]) == Step(w, RunAll(w, order), id)
  {
    assert (order + [id])[..|order|] == order;
  }

  /** The stored rows are determined by the effects. */
  lemma SameRows(
    w: World, one: map<string, Option<ModelValue>>, two: map<string, Option<ModelValue>>,
    effects: map<EffectKey, Option<ModelValue>>)
    requires OrderedByKey(w) && Stored(w, one, effects) && Stored(w, two, effects)
    ensures one == two
  {
    forall s ensures s in one <==> s in two ensures s in one ==> one[s] == two[s] {
      if s in one {
        RowOf(w, one, two, effects, s);
      }
      if s in two {
        RowOf(w, two, one, effects, s);
      }
    }
  }

  lemma RowOf(
    w: World, one: map<string, Option<ModelValue>>, two: map<string, Option<ModelValue>>,
    effects: map<EffectKey, Option<ModelValue>>, s: string)
    requires OrderedByKey(w) && Stored(w, one, effects) && Stored(w, two, effects) && s in one
    ensures s in two && one[s] == two[s]
  {
    assert HasEffect(w, effects, s);
    var e :| e in effects && e.id in w.dag && s == Rendered(e.record, e.id);
    assert HasRow(w, one, e, effects[e]) && HasRow(w, two, e, effects[e]);
  }

  /** Two runtimes that have consumed the messages of two logs which received the same
      messages store the same `$effects` rows and the same model tables. */
  lemma RuntimesConverge(
    dag: Dag, a: Peer, b: Peer, actions: Id -> Action, less: Order, one: FunctionRuntime, two: FunctionRuntime)
    requires WellClocked(dag) && PeerInvariant(dag, a) && PeerInvariant(dag, b) && a.received == b.received
    requires forall m :: m in a.received ==> ValidId(m)
    requires forall x, y :: less(x, y) <==> IdLess(x, y)
    requires Sound(WorldOf(a, actions, less)) && Replayed(WorldOf(a, actions, less), one, a.delivered)
    requires Sound(WorldOf(b, actions, less)) && Replayed(WorldOf(b, actions, less), two, b.delivered)
    ensures one.effects == two.effects && one.tables == two.tables
  {
    PeersConverge(dag, a, b, actions, less);
    SameRows(one.world, one.effects, two.effects, one.db.effects);
  }
}
