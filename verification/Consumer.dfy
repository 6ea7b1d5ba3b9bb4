/** The runtime as it executes (AbstractRuntime.ts and FunctionRuntime.ts): the API an action
    sees, the descending scan behind its reads, and the consumer's effect loop. */
module Consumer {
  import opened MessageKeys
  import opened CausalHistory
  import opened AncestorIndex
  import opened AncestorSearch
  import opened Options
  import opened IsAncestor
  import opened IndexAgreement
  import opened Positional
  import opened EffectKeys
  import opened Strings
  import opened Runtime

  /** Identifiers are those of real keys and compare as keys do. */
  ghost predicate OrderedByKey(w: World) {
    (forall m :: m in w.dag ==> ValidId(m))
    && forall a, b :: w.less(a, b) <==> IdLess(a, b)
  }

  /** Key order is a total order, as the runtime needs. */
  lemma KeyOrderIsTotal(less: Order, ids: set<Id>)
    requires forall m :: m in ids ==> ValidId(m)
    requires forall a, b :: less(a, b) <==> IdLess(a, b)
    ensures TotalOn(less, ids)
  {
    forall a, b | a in ids && b in ids ensures Ordered(less, a, b) {
      IdOrderTotal(a, b);
    }
    forall a, b, c | a in ids && b in ids && c in ids && less(a, b) && less(b, c) ensures less(a, c) {
      IdOrderTransitive(a, b, c);
    }
  }

  // ----- the stored form of the effects -----

  ghost predicate HasRow(w: World, rows: map<string, Option<ModelValue>>, e: EffectKey, value: Option<ModelValue>)
    requires OrderedByKey(w)
  {
    e.id in w.dag && Rendered(e.record, e.id) in rows && rows[Rendered(e.record, e.id)] == value
  }

  ghost predicate HasEffect(w: World, effects: map<EffectKey, Option<ModelValue>>, s: string)
    requires OrderedByKey(w)
  {
    exists e :: e in effects && e.id in w.dag && s == Rendered(e.record, e.id)
  }

  /** The rows are the effects under their rendered keys. */
  ghost predicate Stored(w: World, rows: map<string, Option<ModelValue>>, effects: map<EffectKey, Option<ModelValue>>)
    requires OrderedByKey(w)
  {
    (forall e {:trigger HasRow(w, rows, e, effects[e])} :: e in effects ==> HasRow(w, rows, e, effects[e]))
    && forall s {:trigger HasEffect(w, effects, s)} :: s in rows ==> HasEffect(w, effects, s)
  }

  lemma RenderedOrder(k: RecordKey, a: Id, b: Id)
    requires ValidId(a) && ValidId(b)
    ensures StringLess(Rendered(k, a), Rendered(k, b)) <==> IdLess(a, b)
  {
    SamePrefix(PrefixOf(k), PrintId(a), PrintId(b));
    PrintedOrder(a, b);
  }

  /** Every effect on k whose key is at or above a bound is hidden from m. */
  ghost predicate Passed(w: World, db: Db, m: Id, k: RecordKey, upper: string)
    requires Sound(w) && OrderedByKey(w) && m in w.dag
  {
    forall a {:trigger a in Past(w, m)} ::
      a in Past(w, m) && a in Writers(db, k) ==> StringLess(Rendered(k, a), upper)
  }

  lemma NothingPassedYet(w: World, db: Db, m: Id, k: RecordKey)
    requires Sound(w) && OrderedByKey(w) && m in w.dag
    ensures Passed(w, db, m, k, PrefixOf(k) + MAX_MESSAGE_ID)
  {
    forall a | a in Past(w, m) && a in Writers(db, k) ensures StringLess(Rendered(k, a), PrefixOf(k) + MAX_MESSAGE_ID) {
      ScanAll(k, a, k);
    }
  }

  /** What the scan for the last row below a bound finds. */
  ghost predicate LastBetween(rows: set<string>, lower: string, upper: string, found: string) {
    found in rows && InRange(found, lower, upper)
    && forall s :: s in rows && InRange(s, lower, upper) ==> !StringLess(found, s)
  }

  /** A row found by a scan over a record is one of that record's effects. */
  lemma FoundRow(w: World, rows: map<string, Option<ModelValue>>, db: Db, k: RecordKey, upper: string, found: string)
    returns (id: Id)
    requires OrderedByKey(w) && Stored(w, rows, db.effects)
    requires !StringLess(PrefixOf(k) + MAX_MESSAGE_ID, upper)
    requires found in rows && InRange(found, PrefixOf(k) + MIN_MESSAGE_ID, upper)
    ensures id in w.dag && ValidId(id) && found == Rendered(k, id)
    ensures EffectKey(k, id) in db.effects && rows[found] == db.effects[EffectKey(k, id)]
    ensures id in Writers(db, k)
    ensures Split(found, '/') == [k.model, k.keyHash, PrintId(id)] && ParseId(PrintId(id)) == id
  {
    assert HasEffect(w, db.effects, found);
    var e :| e in db.effects && e.id in w.dag && found == Rendered(e.record, e.id);
    assert HasRow(w, rows, e, db.effects[e]);
    id := e.id;
    BelowMax(found, upper, PrefixOf(k) + MAX_MESSAGE_ID);
    ScanAll(e.record, id, k);
    assert e == EffectKey(k, id);
    SplitRendered(k, id);
    ParsePrinted(id);
  }

  lemma BelowMax(s: string, upper: string, top: string)
    requires StringLess(s, upper) && !StringLess(top, upper)
    ensures StringLess(s, top) && !StringLess(top, s)
  {
    LexTotal(Codes(upper), Codes(top));
    if upper != top && StringLess(upper, top) {
      LexTransitive(Codes(s), Codes(upper), Codes(top));
    } else {
      assert Codes(upper) == Codes(top);
    }
    LexTotal(Codes(s), Codes(top));
  }

  /** The scan ends empty exactly when the action can see no effect. */
  lemma NothingSeen(w: World, rows: map<string, Option<ModelValue>>, db: Db, m: Id, k: RecordKey, upper: string)
    requires Sound(w) && OrderedByKey(w) && m in w.dag && Stored(w, rows, db.effects) && Passed(w, db, m, k, upper)
    requires forall s :: s in rows ==> !InRange(s, PrefixOf(k) + MIN_MESSAGE_ID, upper)
    ensures ReadDb(w, db, m, k) == None
  {
    forall a | a in Writers(db, k) * Past(w, m) ensures false {
      RowOfWriter(w, rows, db, k, a);
      ScanAll(k, a, k);
    }
    assert Writers(db, k) * Past(w, m) == {};
  }

  lemma RowOfWriter(w: World, rows: map<string, Option<ModelValue>>, db: Db, k: RecordKey, a: Id)
    requires OrderedByKey(w) && Stored(w, rows, db.effects) && a in Writers(db, k)
    ensures a in w.dag && Rendered(k, a) in rows
  {
    var e := EffectKey(k, a);
    assert e in db.effects by {
      var e' :| e' in db.effects && e'.record == k && e'.id == a;
      assert e' == e;
    }
    assert HasRow(w, rows, e, db.effects[e]);
  }

  /** A found row the action can see is the one it must read. */
  lemma FoundIsGreatest(
    w: World, rows: map<string, Option<ModelValue>>, db: Db, m: Id, k: RecordKey, upper: string, id: Id)
    requires Sound(w) && OrderedByKey(w) && m in w.dag && Stored(w, rows, db.effects) && Passed(w, db, m, k, upper)
    requires id in Writers(db, k) && id in Past(w, m) && EffectKey(k, id) in db.effects
    requires LastBetween(rows.Keys, PrefixOf(k) + MIN_MESSAGE_ID, upper, Rendered(k, id))
    ensures ReadDb(w, db, m, k) == db.effects[EffectKey(k, id)]
  {
    var seen := Writers(db, k) * Past(w, m);
    forall x | x in seen && x != id ensures w.less(x, id) {
      RowOfWriter(w, rows, db, k, x);
      ScanAll(k, x, k);
      RenderedOrder(k, id, x);
      IdOrderTotal(x, id);
    }
    assert IsGreatest(w.less, id, seen);
    GreatestUnique(w.less, w.dag.Keys, seen, id, Greatest(w.less, w.dag.Keys, seen));
  }

  /** Passing a row the action cannot see. */
  lemma PassRow(w: World, rows: map<string, Option<ModelValue>>, db: Db, m: Id, k: RecordKey, upper: string, id: Id)
    requires Sound(w) && OrderedByKey(w) && m in w.dag && Stored(w, rows, db.effects) && Passed(w, db, m, k, upper)
    requires ValidId(id) && id !in Past(w, m)
    requires LastBetween(rows.Keys, PrefixOf(k) + MIN_MESSAGE_ID, upper, Rendered(k, id))
    ensures Passed(w, db, m, k, Rendered(k, id))
  {
    forall a | a in Past(w, m) && a in Writers(db, k) ensures StringLess(Rendered(k, a), Rendered(k, id)) {
      RowOfWriter(w, rows, db, k, a);
      ScanAll(k, a, k);
      RenderedOrder(k, id, a);
      RenderedOrder(k, a, id);
      IdOrderTotal(a, id);
    }
  }

  /** The ancestor index of the transaction m is applied in: it has m's parents, and the
      entries below m that every peer has. */
  ghost predicate InTransaction(w: World, idx: Index, m: Id)
    requires Sound(w)
  {
    m in w.dag && Shaped(idx) && Agree(idx, w.index, m.clock) && forall p :: p in w.dag[m] ==> p in idx
  }

  lemma SeesThroughTransaction(w: World, idx: Index, m: Id, a: Id)
    requires Sound(w) && InTransaction(w, idx, m) && a in w.dag
    ensures a.clock >= 1 && (QueryParents(idx, w.dag[m], a, {}) <==> a in Past(w, m))
  {
    ParentsInWorld(w, m);
    QueryParentsAgrees(idx, w.index, w.dag[m], a, {}, m.clock);
  }

  // ----- batches of effects -----

  datatype Effect =
    | RecordEffect(key: string, effect: Option<ModelValue>)
    | SetRecord(record: RecordKey, value: ModelValue)
    | DeleteRecord(record: RecordKey)

  datatype Rows = Rows(effects: map<string, Option<ModelValue>>, tables: map<RecordKey, ModelValue>)

  function WithEffect(rows: Rows, e: Effect): Rows {
    match e
    case RecordEffect(key, effect) => rows.(effects := rows.effects[key := effect])
    case SetRecord(k, v) => rows.(tables := rows.tables[k := v])
    case DeleteRecord(k) => rows.(tables := rows.tables - {k})
  }

  function WithEffects(rows: Rows, batch: seq<Effect>): Rows {
    if batch == [] then rows
    else WithEffect(WithEffects(rows, batch[..|batch| - 1]), batch[|batch| - 1])
  }

  lemma WithOneMore(rows: Rows, batch: seq<Effect>, e: Effect)
    ensures WithEffects(rows, batch + [e]) == WithEffect(WithEffects(rows, batch), e)
  {
  }

  lemma WithTwoMore(rows: Rows, batch: seq<Effect>, e: Effect, f: Effect)
    ensures WithEffects(rows, batch + [e, f]) == WithEffect(WithEffect(WithEffects(rows, batch), e), f)
  {
    assert batch + [e, f] == batch + [e] + [f];
    WithOneMore(rows, batch, e);
    WithOneMore(rows, batch + [e], f);
  }

  ghost predicate Represents(w: World, rows: Rows, db: Db)
    requires OrderedByKey(w)
  {
    Stored(w, rows.effects, db.effects) && rows.tables == db.tables
  }

  /** The writes to some of the records. */
  ghost function Part(writes: Writes, done: set<RecordKey>): Writes {
    map k | k in writes && k in done :: writes[k]
  }

  ghost function Landed(less: Order, db: Db, m: Id, k: RecordKey, value: Option<ModelValue>, into: Db): Db {
    Db(into.effects[EffectKey(k, m) := value],
       if Superseded(less, db, m, k) then into.tables
       else if value.Some? then into.tables[k := value.value]
       else into.tables - {k})
  }

  /** The writes of an action can be applied one record at a time. */
  lemma AppliedOneMore(less: Order, db: Db, m: Id, writes: Writes, done: set<RecordKey>, k: RecordKey)
    requires k in writes && k !in done
    ensures Applied(less, db, m, Part(writes, done + {k}))
         == Landed(less, db, m, k, writes[k], Applied(less, db, m, Part(writes, done)))
  {
    var before, after := Part(writes, done), Part(writes, done + {k});
    assert after == before[k := writes[k]];
    EffectsOneMore(less, db, m, before, k, writes[k]);
    TablesOneMore(less, db, m, before, k, writes[k]);
  }

  lemma EffectsOneMore(less: Order, db: Db, m: Id, writes: Writes, k: RecordKey, value: Option<ModelValue>)
    requires k !in writes
    ensures Applied(less, db, m, writes[k := value]).effects
         == Applied(less, db, m, writes).effects[EffectKey(k, m) := value]
  {
    var before, after := Applied(less, db, m, writes).effects, Applied(less, db, m, writes[k := value]).effects;
    forall e: EffectKey | e != EffectKey(k, m)
      ensures (e in after <==> e in before) && (e in after ==> after[e] == before[e])
    {
      AppliedEffect(less, db, m, writes, e);
      AppliedEffect(less, db, m, writes[k := value], e);
    }
    AppliedEffect(less, db, m, writes[k := value], EffectKey(k, m));
    OneEffectAdded(before, after, EffectKey(k, m), value);
  }

  lemma AppliedEffect(less: Order, db: Db, m: Id, writes: Writes, e: EffectKey)
    ensures var effects := Applied(less, db, m, writes).effects;
            if e.id == m && e.record in writes then e in effects && effects[e] == writes[e.record]
            else (e in effects <==> e in db.effects) && (e in effects ==> effects[e] == db.effects[e])
  {
  }

  lemma OneEffectAdded(
    before: map<EffectKey, Option<ModelValue>>, after: map<EffectKey, Option<ModelValue>>,
    e: EffectKey, value: Option<ModelValue>)
    requires forall f :: f != e ==> (f in after <==> f in before) && (f in after ==> after[f] == before[f])
    requires e in after && after[e] == value
    ensures after == before[e := value]
  {
  }

  lemma TablesOneMore(less: Order, db: Db, m: Id, writes: Writes, k: RecordKey, value: Option<ModelValue>)
    requires k !in writes
    ensures Applied(less, db, m, writes[k := value]).tables
         == Landed(less, db, m, k, value, Applied(less, db, m, writes)).tables
  {
    var before, after := Applied(less, db, m, writes).tables, Applied(less, db, m, writes[k := value]).tables;
    forall r: RecordKey | r != k ensures (r in after <==> r in before) && (r in after ==> after[r] == before[r]) {
      assert Lands(less, db, m, writes[k := value], r) <==> Lands(less, db, m, writes, r);
    }
    OneRecordChanged(before, after, k,
      if Superseded(less, db, m, k) then (if k in before then Some(before[k]) else None) else value);
  }

  lemma OneRecordChanged(
    before: map<RecordKey, ModelValue>, after: map<RecordKey, ModelValue>, k: RecordKey, value: Option<ModelValue>)
    requires forall r :: r != k ==> (r in after <==> r in before) && (r in after ==> after[r] == before[r])
    requires value == if k in after then Some(after[k]) else None
    ensures after == if value.Some? then before[k := value.value] else before - {k}
    ensures (value == if k in before then Some(before[k]) else None) ==> after == before
  {
  }

  lemma AppliedNothing(less: Order, db: Db, m: Id)
    ensures Applied(less, db, m, map[]) == db
  {
  }

  lemma StoreOneMore(
    w: World, rows: map<string, Option<ModelValue>>, effects: map<EffectKey, Option<ModelValue>>,
    e: EffectKey, value: Option<ModelValue>)
    requires OrderedByKey(w) && Stored(w, rows, effects) && e.id in w.dag
    ensures Stored(w, rows[Rendered(e.record, e.id) := value], effects[e := value])
  {
    var key := Rendered(e.record, e.id);
    var rows', effects' := rows[key := value], effects[e := value];
    forall f | f in effects' ensures HasRow(w, rows', f, effects'[f]) {
      if f != e {
        assert HasRow(w, rows, f, effects[f]);
        RenderedInjective(e.record, e.id, f.record, f.id);
      }
    }
    forall s | s in rows' ensures HasEffect(w, effects', s) {
      if s != key {
        assert HasEffect(w, effects, s);
        var f :| f in effects && f.id in w.dag && s == Rendered(f.record, f.id);
        assert f in effects';
      } else {
        assert e in effects';
      }
    }
  }

  /** The supersession query finds a row exactly if a greater effect is recorded. */
  lemma RowSupersedes(w: World, rows: map<string, Option<ModelValue>>, db: Db, m: Id, k: RecordKey)
    requires OrderedByKey(w) && Stored(w, rows, db.effects) && m in w.dag
    ensures (exists s :: s in rows && StringLess(Rendered(k, m), s) && !StringLess(PrefixOf(k) + MAX_MESSAGE_ID, s))
            <==> Superseded(w.less, db, m, k)
  {
    forall s | s in rows && StringLess(Rendered(k, m), s) && !StringLess(PrefixOf(k) + MAX_MESSAGE_ID, s)
      ensures Superseded(w.less, db, m, k)
    {
      assert HasEffect(w, db.effects, s);
      var e :| e in db.effects && e.id in w.dag && s == Rendered(e.record, e.id);
      ScanAbove(e.record, e.id, k, m);
      assert e.id in Writers(db, k);
    }
    forall x | x in Writers(db, k) && w.less(m, x)
      ensures exists s :: s in rows && StringLess(Rendered(k, m), s) && !StringLess(PrefixOf(k) + MAX_MESSAGE_ID, s)
    {
      RowOfWriter(w, rows, db, k, x);
      ScanAbove(k, x, k, m);
    }
  }

  lemma WithEffectsOf(
    rows: Rows, batch: seq<Effect>, k: RecordKey, id: Id, value: Option<ModelValue>, superseded: bool,
    more: seq<Effect>)
    requires ValidId(id)
    requires more == [RecordEffect(Rendered(k, id), value)]
                     + if superseded then [] else [if value.None? then DeleteRecord(k) else SetRecord(k, value.value)]
    ensures var was := WithEffects(rows, batch);
            WithEffects(rows, batch + more)
            == Rows(was.effects[Rendered(k, id) := value],
                    if superseded then was.tables
                    else if value.Some? then was.tables[k := value.value]
                    else was.tables - {k})
  {
    if superseded {
      assert more == [more[0]];
      WithOneMore(rows, batch, more[0]);
    } else {
      assert more == [more[0], more[1]];
      WithTwoMore(rows, batch, more[0], more[1]);
    }
  }

  lemma RepresentsLanded(
    w: World, rows: Rows, db: Db, batch: seq<Effect>, k: RecordKey, id: Id, value: Option<ModelValue>,
    superseded: bool, more: seq<Effect>, into: Db)
    requires Sound(w) && OrderedByKey(w) && id in w.dag && Represents(w, WithEffects(rows, batch), into)
    requires superseded <==> Superseded(w.less, db, id, k)
    requires more == [RecordEffect(Rendered(k, id), value)]
                     + if superseded then [] else [if value.None? then DeleteRecord(k) else SetRecord(k, value.value)]
    ensures Represents(w, WithEffects(rows, batch + more), Landed(w.less, db, id, k, value, into))
  {
    WithEffectsOf(rows, batch, k, id, value, superseded, more);
    StoreOneMore(w, WithEffects(rows, batch).effects, into.effects, EffectKey(k, id), value);
  }

  // ----- the runtime -----

  /** What an action's API object works on. */
  datatype Context = Context(id: Id, parents: seq<Id>, entries: Writes)

  class FunctionRuntime {
    ghost const world: World
    ghost var db: Db
    /** The `$effects` table. */
    var effects: map<string, Option<ModelValue>>
    /** The model tables. */
    var tables: map<RecordKey, ModelValue>
    var context: Option<Context>

    ghost predicate Valid()
      reads this
    {
      Sound(world) && OrderedByKey(world) && Represents(world, Rows(effects, tables), db)
    }

    constructor (ghost world: World)
      requires Sound(world) && OrderedByKey(world)
      ensures Valid() && this.world == world && db == Db(map[], map[]) && context == None
    {
      this.world := world;
      db, effects, tables, context := Db(map[], map[]), map[], map[], None;
    }

    /** The query for the last row in a range of keys. */
    method QueryLast(lower: string, upper: string) returns (found: Option<string>)
      ensures found.None? ==> forall s :: s in effects ==> !InRange(s, lower, upper)
      ensures found.Some? ==> LastBetween(effects.Keys, lower, upper, found.value)
    {
      found := None;
      var rest := effects.Keys;
      while rest != {}
        invariant rest <= effects.Keys
        invariant found.None? ==> forall s :: s in effects.Keys - rest ==> !InRange(s, lower, upper)
        invariant found.Some? ==> LastBetween(effects.Keys - rest, lower, upper, found.value)
      {
        var s :| s in rest;
        if InRange(s, lower, upper) && (found.None? || StringLess(found.value, s)) {
          ghost var seen := effects.Keys - rest;
          forall t | t in seen + {s} && InRange(t, lower, upper) ensures !StringLess(s, t) {
            LexTotal(Codes(s), Codes(t));
            if found.Some? && StringLess(s, t) {
              LexTransitive(Codes(found.value), Codes(s), Codes(t));
            }
          }
          found := Some(s);
        }
        rest := rest - {s};
      }
    }

    /** `get`: the action's own pending write if it has one, else the greatest effect among
        those the ancestor check confirms, else null.  Over exact rows these are all effects of
        the message's ancestors; otherwise some may be missed (MissedRead.ReadMissesAncestor). */
    method GetModelValue(idx: Index, k: RecordKey) returns (value: Option<ModelValue>)
      requires Valid() && context.Some? && InTransaction(world, idx, context.value.id)
      requires context.value.parents == world.dag[context.value.id]
      ensures value == if k in context.value.entries then context.value.entries[k]
                       else ReadDb(world, db, context.value.id, k)
      ensures k !in context.value.entries && RowsExact(world.dag, world.index) ==>
                value == EffectOf(db, k, LastWriter(world, db, context.value.id, k))
    {
      if RowsExact(world.dag, world.index) {
        ExactRowsReadLastWriter(world, db, context.value.id, k);
      }
      if k in context.value.entries {
        return context.value.entries[k];
      }
      ghost var m := context.value.id;
      var lower, upper := PrefixOf(k) + MIN_MESSAGE_ID, PrefixOf(k) + MAX_MESSAGE_ID;
      NothingPassedYet(world, db, m, k);
      LexTotal(Codes(upper), Codes(upper));
      while true
        invariant Passed(world, db, m, k, upper) && !StringLess(PrefixOf(k) + MAX_MESSAGE_ID, upper)
        decreases |RowsBelow(effects.Keys, upper)|
      {
        var found := QueryLast(lower, upper);
        if found.None? {
          NothingSeen(world, effects, db, m, k, upper);
          return None;
        }
        ghost var id := FoundRow(world, effects, db, k, upper, found.value);
        var messageId := ParseId(Split(found.value, '/')[2]);
        SeesThroughTransaction(world, idx, m, id);
        var isAncestor := AnyParentReaches(idx, context.value.parents, messageId);
        if isAncestor {
          FoundIsGreatest(world, effects, db, m, k, upper, id);
          return effects[found.value];
        }
        PassRow(world, effects, db, m, k, upper, id);
        BelowMax(found.value, upper, PrefixOf(k) + MAX_MESSAGE_ID);
        FewerRows(effects.Keys, found.value, upper);
        upper := found.value;
      }
    }

    /** `set` and `delete` only note the write. */
    method Write(k: RecordKey, value: Option<ModelValue>)
      requires context.Some?
      modifies this`context
      ensures context == Some(old(context.value).(entries := old(context.value.entries)[k := value]))
    {
      context := Some(context.value.(entries := context.value.entries[k := value]));
    }

    method Perform(idx: Index, command: Command) returns (reply: Reply)
      requires Valid() && context.Some? && InTransaction(world, idx, context.value.id) && !command.Finish?
      requires context.value.parents == world.dag[context.value.id]
      modifies this`context
      ensures context.Some? && context.value.id == old(context.value.id)
              && context.value.parents == old(context.value.parents)
      ensures (reply, context.value.entries)
           == Respond(command, old(context.value.entries),
                      if command.Get? then ReadDb(world, db, old(context.value.id), command.record) else None)
      ensures command.Get? ==>
                context.value.entries == old(context.value.entries)
                && reply == Reply.Answer(
                     if command.record in old(context.value.entries) then old(context.value.entries)[command.record]
                     else ReadDb(world, db, old(context.value.id), command.record))
      ensures command.Set? ==>
                context.value.entries == old(context.value.entries)[command.record := Some(command.value)]
                && reply == Ack
      ensures command.Delete? ==>
                context.value.entries == old(context.value.entries)[command.record := None] && reply == Ack
    {
      match command
      case Get(k) =>
        var value := GetModelValue(idx, k);
        reply := Reply.Answer(value);
      case Set(k, v) =>
        Write(k, Some(v));
        reply := Ack;
      case Delete(k) =>
        Write(k, None);
        reply := Ack;
    }

    /** `execute`: runs an action with the context set, and clears it.  Every `get` is answered
        with the last write to the record before it, or else from the database, and what is
        returned is the last write to every record written. */
    method Execute(idx: Index, id: Id, parents: seq<Id>, action: Action)
      returns (entries: Writes, ghost trace: seq<Reply>)
      requires Valid() && InTransaction(world, idx, id) && world.dag[id] == parents
      modifies this`context
      ensures context == None
      ensures entries == Run(action, Reads(world, db, id), [], map[])
      ensures Executed(action, Reads(world, db, id), trace, entries)
    {
      context := Some(Context(id, parents, map[]));
      var replies := [];
      ghost var read := Reads(world, db, id);
      NothingTraced(action, read);
      while |replies| < action.limit && !action.next(replies).Finish?
        invariant context.Some? && context.value.id == id && context.value.parents == parents
        invariant Run(action, read, replies, context.value.entries) == Run(action, read, [], map[])
        invariant Traced(action, read, replies, context.value.entries)
        decreases action.limit - |replies|
      {
        ghost var before := context.value.entries;
        var reply := Perform(idx, action.next(replies));
        TracedNext(action, read, replies, before, reply, context.value.entries);
        replies := replies + [reply];
      }
      entries, trace := context.value.entries, replies;
      context := None;
    }

    /** The consumer's loop over the written records: every write is recorded; one that a
        greater recorded effect supersedes changes nothing else. */
    method Collect(id: Id, entries: Writes) returns (batch: seq<Effect>)
      requires Valid() && id in world.dag
      ensures Represents(world, WithEffects(Rows(effects, tables), batch), Applied(world.less, db, id, entries))
    {
      batch := [];
      var rest := entries.Keys;
      ghost var rows, done := Rows(effects, tables), {};
      assert Part(entries, done) == map[];
      AppliedNothing(world.less, db, id);
      while rest != {}
        invariant done + rest == entries.Keys && done !! rest
        invariant Represents(world, WithEffects(rows, batch), Applied(world.less, db, id, Part(entries, done)))
      {
        var k :| k in rest;
        AppliedOneMore(world.less, db, id, entries, done, k);
        var more := EffectsOf(id, k, entries[k], batch, Applied(world.less, db, id, Part(entries, done)));
        batch := batch + more;
        rest, done := rest - {k}, done + {k};
      }
      assert Part(entries, done) == entries;
    }

    method EffectsOf(id: Id, k: RecordKey, value: Option<ModelValue>, ghost batch: seq<Effect>, ghost into: Db)
      returns (more: seq<Effect>)
      requires Valid() && id in world.dag && Represents(world, WithEffects(Rows(effects, tables), batch), into)
      ensures Represents(world, WithEffects(Rows(effects, tables), batch + more),
                         Landed(world.less, db, id, k, value, into))
    {
      var effectKey := Rendered(k, id);
      var superseded := exists s ::
        s in effects && StringLess(effectKey, s) && !StringLess(PrefixOf(k) + MAX_MESSAGE_ID, s);
      RowSupersedes(world, effects, db, id, k);
      more := [RecordEffect(effectKey, value)];
      if !superseded {
        more := more + [if value.None? then DeleteRecord(k) else SetRecord(k, value.value)];
      }
      RepresentsLanded(world, Rows(effects, tables), db, batch, k, id, value, superseded, more, into);
    }

    /** `db.apply`. */
    method Apply(batch: seq<Effect>)
      modifies this`effects, this`tables
      ensures Rows(effects, tables) == WithEffects(old(Rows(effects, tables)), batch)
    {
      ghost var rows := Rows(effects, tables);
      for i := 0 to |batch|
        invariant Rows(effects, tables) == WithEffects(rows, batch[..i])
      {
        WithOneMore(rows, batch[..i], batch[i]);
        assert batch[..i + 1] == batch[..i] + [batch[i]];
        match batch[i] {
          case RecordEffect(key, effect) => effects := effects[key := effect];
          case SetRecord(k, v) => tables := tables[k := v];
          case DeleteRecord(k) => tables := tables - {k};
        }
      }
      assert batch[..|batch|] == batch;
    }

    /** Consuming one message takes the database one Step. */
    method Consume(idx: Index, id: Id, parents: seq<Id>, action: Action)
      requires Valid() && InTransaction(world, idx, id) && world.dag[id] == parents && world.actions[id] == action
      modifies this
      ensures Valid() && context == None && db == Step(world, old(db), id)
    {
      var entries, _ := Execute(idx, id, parents, action);
      var batch := Collect(id, entries);
      if |batch| > 0 {
        Apply(batch);
      }
      db := Applied(world.less, db, id, entries);
    }
  }

  ghost function RowsBelow(rows: set<string>, upper: string): set<string> {
    set s | s in rows && StringLess(s, upper)
  }

  lemma FewerRows(rows: set<string>, s: string, upper: string)
    requires s in rows && StringLess(s, upper)
    ensures |RowsBelow(rows, s)| < |RowsBelow(rows, upper)|
  {
    LexTotal(Codes(s), Codes(s));
    forall t | t in RowsBelow(rows, s) ensures t in RowsBelow(rows, upper) {
      LexTransitive(Codes(t), Codes(s), Codes(upper));
    }
    FewerElements(RowsBelow(rows, s), RowsBelow(rows, upper), s);
  }

  lemma FewerElements(a: set<string>, b: set<string>, s: string)
    requires a <= b && s in b && s !in a
    ensures |a| < |b|
  {
    assert a <= b - {s};
    Smaller(a, b - {s});
  }

  lemma {:induction false} Smaller(a: set<string>, b: set<string>)
    requires a <= b
    ensures |a| <= |b|
  {
    if a != {} {
      var x :| x in a;
      Smaller(a - {x}, b - {x});
    }
  }
}
