/** The runtime without `indexHistory`: instead of a history of effects, one version per
    record, the key of the message that wrote it last. */
module Versions {
  import opened Positional
  import opened Clock
  import opened MessageKeys
  import opened CausalHistory
  import opened Options
  import opened Delivery
  import opened EffectKeys
  import opened PropertyOrders
  import opened Runtime
  import opened Consumer

  /** In this mode `get` is an error, so actions do not use it. */
  ghost predicate NeverReads(action: Action) {
    forall replies: seq<Reply> :: |replies| < action.limit ==> !action.next(replies).Get?
  }

  ghost predicate WriteOnly(w: World) {
    forall m :: m in w.actions ==> NeverReads(w.actions[m])
  }

  /** The writes of an action that reads nothing. */
  ghost function BlindWrites(action: Action): Writes {
    Run(action, (k: RecordKey) => None, [], map[])
  }

  lemma {:induction false} ReadsDoNotMatter(
    action: Action, one: RecordKey -> Option<ModelValue>, two: RecordKey -> Option<ModelValue>,
    replies: seq<Reply>, pending: Writes)
    requires NeverReads(action)
    ensures Run(action, one, replies, pending) == Run(action, two, replies, pending)
    decreases action.limit - |replies|
  {
    if |replies| < action.limit && !action.next(replies).Finish? {
      var (reply, pending') := Respond(action.next(replies), pending, None);
      ReadsDoNotMatter(action, one, two, replies + [reply], pending');
    }
  }

  lemma BlindWritesAreWrites(w: World, m: Id)
    requires Sound(w) && WriteOnly(w) && m in w.dag
    ensures BlindWrites(w.actions[m]) == WritesOf(w, m)
  {
    ReadsDoNotMatter(w.actions[m], (k: RecordKey) => None, (k: RecordKey) => ReadPast(w, m, k), [], map[]);
  }

  /** The `$versions` table and the model tables. */
  datatype Registers = Registers(versions: map<RecordKey, Key>, tables: map<RecordKey, ModelValue>)

  /** What both tables say of one record. */
  datatype Register = Register(version: Option<Key>, value: Option<ModelValue>)

  function At(r: Registers, k: RecordKey): Register {
    Register(if k in r.versions then Some(r.versions[k]) else None, if k in r.tables then Some(r.tables[k]) else None)
  }

  /** A write takes effect unless a message with a greater key has written the record. */
  function Registered(r: Register, key: Key, value: Option<ModelValue>): Register {
    if r.version.Some? && LexLess(key, r.version.value) then r else Register(Some(key), value)
  }

  /** The registers after a message's writes: the records it writes are registered, and
      writing one record does not touch another. */
  ghost predicate RegisteredAll(r: Registers, key: Key, writes: Writes, r': Registers) {
    forall k {:trigger RegisteredAt(r, key, writes, r', k)} :: RegisteredAt(r, key, writes, r', k)
  }

  ghost predicate RegisteredAt(r: Registers, key: Key, writes: Writes, r': Registers, k: RecordKey) {
    At(r', k) == if k in writes then Registered(At(r, k), key, writes[k]) else At(r, k)
  }

  lemma SameEverywhere(a: Registers, b: Registers)
    requires forall k {:trigger At(a, k)} :: At(a, k) == At(b, k)
    ensures a == b
  {
    forall k
      ensures k in a.versions <==> k in b.versions
      ensures k in a.versions ==> a.versions[k] == b.versions[k]
      ensures k in a.tables <==> k in b.tables
      ensures k in a.tables ==> a.tables[k] == b.tables[k]
    {
      assert At(a, k) == At(b, k);
    }
    assert a.versions == b.versions && a.tables == b.tables;
  }

  /** The greatest write of a record among a set of messages. */
  ghost function Best(w: World, ms: set<Id>, k: RecordKey): Register
    requires Sound(w) && OrderedByKey(w) && ms <= w.dag.Keys
  {
    var writers := WritersIn(w, ms, k);
    if writers == {} then Register(None, None)
    else
      var g := Greatest(w.less, w.dag.Keys, writers);
      Register(Some(KeyOfId(g)), WritesOf(w, g)[k])
  }

  /** Registering a write, for the first time or again, keeps the greatest one. */
  lemma BestNext(w: World, ms: set<Id>, m: Id, k: RecordKey)
    requires Sound(w) && OrderedByKey(w) && ms <= w.dag.Keys && m in w.dag
    ensures Best(w, ms + {m}, k)
         == if k in WritesOf(w, m) then Registered(Best(w, ms, k), KeyOfId(m), WritesOf(w, m)[k]) else Best(w, ms, k)
  {
    var writers := WritersIn(w, ms, k);
    if k !in WritesOf(w, m) {
      assert WritersIn(w, ms + {m}, k) == writers;
    } else {
      assert WritersIn(w, ms + {m}, k) == writers + {m};
      GreatestNext(w.less, w.dag.Keys, writers, m);
    }
  }

  lemma GreatestNext(less: Order, universe: set<Id>, ids: set<Id>, m: Id)
    requires TotalOn(less, universe) && ids <= universe && m in universe
    ensures ids + {m} <= universe
    ensures Greatest(less, universe, ids + {m})
         == if ids != {} && less(m, Greatest(less, universe, ids)) then Greatest(less, universe, ids) else m
  {
    if ids != {} {
      var g := Greatest(less, universe, ids);
      assert Ordered(less, m, g);
      if less(m, g) {
        KeepsGreatest(less, universe, ids, m);
        return;
      }
      forall x | x in ids ensures !less(m, x) {
        assert x == g || less(x, g);
        assert !(less(m, x) && less(x, g));
      }
    }
    BecomesGreatest(less, universe, ids, m);
  }

  /** Every register holds the greatest write among a set of messages. */
  ghost predicate HoldsBest(w: World, ms: set<Id>, r: Registers)
    requires Sound(w) && OrderedByKey(w) && ms <= w.dag.Keys
  {
    forall k {:trigger At(r, k)} :: At(r, k) == Best(w, ms, k)
  }

  /** Consuming any message, in any order and however often, keeps the greatest writes. */
  lemma RegisterKeeps(w: World, ms: set<Id>, r: Registers, m: Id, r': Registers)
    requires Sound(w) && OrderedByKey(w) && ms <= w.dag.Keys && m in w.dag
    requires HoldsBest(w, ms, r) && RegisteredAll(r, KeyOfId(m), WritesOf(w, m), r')
    ensures HoldsBest(w, ms + {m}, r')
  {
    forall k ensures At(r', k) == Best(w, ms + {m}, k) {
      assert RegisteredAt(r, KeyOfId(m), WritesOf(w, m), r', k);
      BestNext(w, ms, m, k);
    }
  }

  /** A run of the consumer: the registers before and after every message. */
  ghost predicate Runs(w: World, order: seq<Id>, states: seq<Registers>)
    requires Sound(w) && OrderedByKey(w) && Elements(order) <= w.dag.Keys
  {
    |states| == |order| + 1 && states[0] == Registers(map[], map[])
    && forall i {:trigger RunsAt(w, order, states, i)} :: 0 <= i < |order| ==> RunsAt(w, order, states, i)
  }

  ghost predicate RunsAt(w: World, order: seq<Id>, states: seq<Registers>, i: nat)
    requires Sound(w) && OrderedByKey(w) && Elements(order) <= w.dag.Keys && |states| == |order| + 1 && i < |order|
  {
    order[i] in Elements(order)
    && RegisteredAll(states[i], KeyOfId(order[i]), BlindWrites(w.actions[order[i]]), states[i + 1])
  }

  lemma RunsNothing(w: World, none: seq<Id>, r: Registers)
    requires Sound(w) && OrderedByKey(w) && none == [] && r == Registers(map[], map[])
    ensures Elements(none) <= w.dag.Keys && Runs(w, none, [r])
  {
  }

  /** One more message goes on with a run. */
  lemma RunsNext(w: World, order: seq<Id>, states: seq<Registers>, id: Id, r: Registers)
    requires Sound(w) && OrderedByKey(w) && Elements(order) <= w.dag.Keys && Runs(w, order, states) && id in w.dag
    requires RegisteredAll(states[|order|], KeyOfId(id), BlindWrites(w.actions[id]), r)
    ensures Elements(order + [id]) <= w.dag.Keys && Runs(w, order + [id], states + [r])
  {
    var longer, more := order + [id], states + [r];
    forall i | 0 <= i < |longer| ensures RunsAt(w, longer, more, i) {
      assert longer[i] in Elements(longer);
      if i < |order| {
        assert RunsAt(w, order, states, i);
      }
    }
  }

  /** Every run over any sequence of messages, children before parents and repeats included,
      leaves the greatest write of every record. */
  lemma {:induction false} RunHoldsBest(w: World, order: seq<Id>, states: seq<Registers>, n: nat)
    requires Sound(w) && OrderedByKey(w) && WriteOnly(w) && Elements(order) <= w.dag.Keys
    requires Runs(w, order, states) && n <= |order|
    ensures Elements(order[..n]) <= w.dag.Keys && HoldsBest(w, Elements(order[..n]), states[n])
    decreases n
  {
    assert Elements(order[..n]) <= Elements(order);
    if n == 0 {
      forall k ensures At(states[0], k) == Best(w, {}, k) {
        assert WritersIn(w, {}, k) == {};
      }
      assert Elements(order[..0]) == {};
    } else {
      RunHoldsBest(w, order, states, n - 1);
      RunStep(w, order, states, n - 1);
    }
  }

  lemma RunStep(w: World, order: seq<Id>, states: seq<Registers>, i: nat)
    requires Sound(w) && OrderedByKey(w) && WriteOnly(w) && Elements(order) <= w.dag.Keys
    requires Runs(w, order, states) && i < |order| && Elements(order[..i]) <= w.dag.Keys
    requires HoldsBest(w, Elements(order[..i]), states[i])
    ensures Elements(order[..i + 1]) <= w.dag.Keys && HoldsBest(w, Elements(order[..i + 1]), states[i + 1])
  {
    var m := order[i];
    assert RunsAt(w, order, states, i);
    BlindWritesAreWrites(w, m);
    ElementsNext(order, i);
    RegisterKeeps(w, Elements(order[..i]), states[i], m, states[i + 1]);
  }

  lemma ElementsNext(order: seq<Id>, i: nat)
    requires i < |order|
    ensures Elements(order[..i + 1]) == Elements(order[..i]) + {order[i]}
  {
  }

  /** Runs over the same messages end in the same registers. */
  lemma VersionsConverge(w: World, one: seq<Id>, two: seq<Id>, states: seq<Registers>, others: seq<Registers>)
    requires Sound(w) && OrderedByKey(w) && WriteOnly(w)
    requires Elements(one) == Elements(two) <= w.dag.Keys
    requires Runs(w, one, states) && Runs(w, two, others)
    ensures states[|one|] == others[|two|]
  {
    RunHoldsBest(w, one, states, |one|);
    RunHoldsBest(w, two, others, |two|);
    assert one[..|one|] == one && two[..|two|] == two;
    SameEverywhere(states[|one|], others[|two|]);
  }

  /** The two modes compute the same tables from the same messages. */
  lemma ModesAgree(w: World, order: seq<Id>, other: seq<Id>, states: seq<Registers>)
    requires Sound(w) && OrderedByKey(w) && WriteOnly(w) && IsDelivery(w.dag, order)
    requires Elements(other) == Elements(order) <= w.dag.Keys && Runs(w, other, states)
    ensures states[|other|].tables == RunAll(w, order).tables
  {
    RunAllMatches(w, order);
    RunHoldsBest(w, other, states, |other|);
    assert other[..|other|] == other;
    var registers, tables := states[|other|].tables, RunAll(w, order).tables;
    forall k
      ensures k in registers <==> k in tables
      ensures k in registers ==> registers[k] == tables[k]
    {
      assert At(states[|other|], k) == Best(w, Elements(other), k);
      assert TableMatches(w, Elements(order), RunAll(w, order), k);
    }
    assert registers == tables;
  }

  // ----- a write against the writes of its own past -----

  /** Below clock 2^14 a write never loses to a write by one of its own ancestors. */
  lemma OwnPastNeverWins(w: World, ms: set<Id>, m: Id, a: Id, k: RecordKey)
    requires Sound(w) && OrderedByKey(w) && ms <= w.dag.Keys && m in ms && k in WritesOf(w, m)
    requires m.clock < 0x4000 && a != m && Reaches(w.dag, m, a)
    ensures WritersIn(w, ms, k) != {} && Greatest(w.less, w.dag.Keys, WritersIn(w, ms, k)) != a
  {
    assert m in WritersIn(w, ms, k);
    var g := Greatest(w.less, w.dag.Keys, WritersIn(w, ms, k));
    if g == a {
      ReachesEarlier(w.dag, m, a);
      IdOrderFollowsClock(a, m);
      IdOrderTotal(a, m);
    }
  }

  /** In general the later of two writes wins exactly if the keys of its clock and the
      earlier clock sort that way. */
  lemma OwnWriteWinsExactly(w: World, m: Id, a: Id, k: RecordKey)
    requires Sound(w) && OrderedByKey(w) && m in w.dag && a in w.dag && a != m && Reaches(w.dag, m, a)
    requires k in WritesOf(w, m) && k in WritesOf(w, a)
    ensures a.clock < m.clock && |Plain(a.clock / 128)| <= |Plain(m.clock / 128)|
    ensures Winning(w, {a, m}, k) == WritesOf(w,
                 if a.clock / 128 <= Value(128, Plain(m.clock / 128)[..|Plain(a.clock / 128)|]) then m else a)[k]
  {
    ReachesEarlier(w.dag, m, a);
    IdOrderExact(a, m);
    WinnerOfTwo(w, m, a, k);
  }

  lemma WinnerOfTwo(w: World, m: Id, a: Id, k: RecordKey)
    requires Sound(w) && OrderedByKey(w) && m in w.dag && a in w.dag
    requires k in WritesOf(w, m) && k in WritesOf(w, a)
    ensures Winning(w, {a, m}, k) == WritesOf(w, if IdLess(a, m) then m else a)[k]
  {
    IdOrderTotal(a, m);
    assert WritersIn(w, {a, m}, k) == {a, m};
    var g := if IdLess(a, m) then m else a;
    assert IsGreatest(w.less, g, {a, m});
    GreatestUnique(w.less, w.dag.Keys, {a, m}, g, Greatest(w.less, w.dag.Keys, {a, m}));
  }

  // ----- the consumer -----

  class VersionedRuntime {
    var versions: map<RecordKey, Key>
    var tables: map<RecordKey, ModelValue>

    function State(): Registers
      reads this
    {
      Registers(versions, tables)
    }

    constructor ()
      ensures State() == Registers(map[], map[])
    {
      versions, tables := map[], map[];
    }

    /** `execute`: an action that only writes. */
    method Execute(action: Action) returns (entries: Writes, ghost trace: seq<Reply>)
      requires NeverReads(action)
      ensures entries == BlindWrites(action)
      ensures Executed(action, (k: RecordKey) => None, trace, entries)
    {
      entries := map[];
      var replies := [];
      ghost var read := (k: RecordKey) => None;
      NothingTraced(action, read);
      while |replies| < action.limit && !action.next(replies).Finish?
        invariant Run(action, read, replies, entries) == BlindWrites(action)
        invariant Traced(action, read, replies, entries)
        decreases action.limit - |replies|
      {
        var command := action.next(replies);
        ghost var before := entries;
        match command {
          case Set(k, v) => entries := entries[k := Some(v)];
          case Delete(k) => entries := entries[k := None];
        }
        TracedNext(action, read, replies, before, Ack, entries);
        replies := replies + [Ack];
      }
      trace := replies;
    }

    /** The loop over an action's writes.  The version a record has is looked up before
        any of the effects are applied; every record is looked up once. */
    method Consume(id: Id, entries: Writes)
      requires ValidId(id)
      modifies this
      ensures RegisteredAll(old(State()), KeyOfId(id), entries, State())
    {
      PrintThenParse(KeyOfId(id));
      ghost var before, done := State(), {};
      var version := EncodeId(PrintId(id));
      var rest := entries.Keys;
      NothingRegistered(before, version);
      assert Part(entries, done) == map[];
      while rest != {}
        invariant done + rest == entries.Keys && done !! rest
        invariant RegisteredAll(before, version, Part(entries, done), State())
      {
        var k :| k in rest;
        ghost var middle := State();
        Write(version, k, entries[k]);
        RegisterOneMore(before, version, entries, done, middle, k, State());
        rest, done := rest - {k}, done + {k};
      }
      assert Part(entries, done) == entries;
    }

    method Write(version: Key, k: RecordKey, value: Option<ModelValue>)
      modifies this
      ensures forall l :: At(State(), l) == if l == k then Registered(At(old(State()), k), version, value)
                                      else At(old(State()), l)
    {
      var existing := if k in versions then Some(versions[k]) else None;
      var less := LessThan(Some(version), existing);
      if less {
        return;
      }
      versions := versions[k := version];
      tables := if value.Some? then tables[k := value.value] else tables - {k};
    }
  }

  /** Consuming messages one after the other, in any order, is a run. */
  method Replay(ghost w: World, order: seq<Id>, actions: map<Id, Action>)
    returns (runtime: VersionedRuntime, ghost states: seq<Registers>)
    requires Sound(w) && OrderedByKey(w) && WriteOnly(w) && Elements(order) <= w.dag.Keys && actions == w.actions
    ensures fresh(runtime) && Runs(w, order, states) && runtime.State() == states[|order|]
  {
    runtime := new VersionedRuntime();
    states := [runtime.State()];
    ghost var done: seq<Id> := [];
    RunsNothing(w, done, runtime.State());
    for i := 0 to |order|
      invariant fresh(runtime) && done == order[..i] && Elements(done) <= w.dag.Keys
      invariant Runs(w, done, states) && runtime.State() == states[i]
    {
      assert order[i] in Elements(order);
      var entries, _ := runtime.Execute(actions[order[i]]);
      runtime.Consume(order[i], entries);
      RunsNext(w, done, states, order[i], runtime.State());
      OneMore(order, i);
      done, states := done + [order[i]], states + [runtime.State()];
    }
    OneMore(order, |order|);
  }

  /** Two runtimes that have consumed the same messages, in any orders, hold the same versions
      and the same tables. */
  lemma RuntimesAgree(
    w: World, one: seq<Id>, two: seq<Id>, states: seq<Registers>, others: seq<Registers>,
    a: VersionedRuntime, b: VersionedRuntime)
    requires Sound(w) && OrderedByKey(w) && WriteOnly(w)
    requires Elements(one) == Elements(two) <= w.dag.Keys
    requires Runs(w, one, states) && a.State() == states[|one|]
    requires Runs(w, two, others) && b.State() == others[|two|]
    ensures a.versions == b.versions && a.tables == b.tables
  {
    VersionsConverge(w, one, two, states, others);
  }

  /** A runtime of either mode, after the same messages, holds the same tables. */
  lemma RuntimesOfBothModesAgree(
    w: World, order: seq<Id>, other: seq<Id>, states: seq<Registers>, one: FunctionRuntime, two: VersionedRuntime)
    requires Sound(w) && OrderedByKey(w) && WriteOnly(w) && IsDelivery(w.dag, order)
    requires Elements(other) == Elements(order) <= w.dag.Keys
    requires one.Valid() && one.world == w && one.db == RunAll(w, order)
    requires Runs(w, other, states) && two.State() == states[|other|]
    ensures one.tables == two.tables
  {
    ModesAgree(w, order, other, states);
  }

  lemma NothingRegistered(r: Registers, key: Key)
    ensures RegisteredAll(r, key, map[], r)
  {
  }

  lemma RegisterOneMore(
    before: Registers, key: Key, writes: Writes, done: set<RecordKey>, r: Registers, k: RecordKey, r': Registers)
    requires RegisteredAll(before, key, Part(writes, done), r) && k in writes && k !in done
    requires forall l :: At(r', l) == if l == k then Registered(At(r, k), key, writes[k]) else At(r, l)
    ensures RegisteredAll(before, key, Part(writes, done + {k}), r')
  {
    forall l ensures RegisteredAt(before, key, Part(writes, done + {k}), r', l) {
      assert RegisteredAt(before, key, Part(writes, done), r, l);
    }
  }
}
