/** A read that returns null from a record that an ancestor wrote. */
module MissedRead {
  import opened Positional
  import opened Clock
  import opened MessageKeys
  import opened CausalHistory
  import opened AncestorIndex
  import opened AncestorSearch
  import opened IsAncestor
  import opened Delivery
  import opened DroppedLinks
  import opened EffectKeys
  import opened Options
  import opened Runtime
  import opened Consumer

  const RECORD: RecordKey := RecordName("", MIN_MESSAGE_ID)
  const VALUE: ModelValue := map[]

  /** The second root of the history writes the record; nobody else writes anything. */
  function Actions(m: Id): Action {
    if m == x2 then Action(1, _ => Set(RECORD, VALUE)) else Action(0, _ => Finish)
  }

  ghost predicate OneWrite(w: World) {
    Sound(w) && OrderedByKey(w) && Stores(w.dag, w.index) && forall m :: m in w.dag ==> w.actions[m] == Actions(m)
  }

  lemma OneWriteExists() returns (w: World)
    ensures OneWrite(w)
  {
    var dag, idx := SomeLogStoresIt();
    w := MakeWorld(dag, idx, (a: Id, b: Id) => IdLess(a, b));
  }

  lemma MakeWorld(dag: Dag, idx: Index, less: Order) returns (w: World)
    requires Stores(dag, idx) && OnlyHistory(dag) && idx.Keys == dag.Keys && RowsSound(dag, idx)
    requires forall a, b :: less(a, b) <==> IdLess(a, b)
    ensures OneWrite(w)
  {
    HistoryIsValid(dag);
    KeyOrderIsTotal(less, dag.Keys);
    w := World(dag, idx, map m | m in dag :: Actions(m), less);
  }

  lemma HistoryIsValid(dag: Dag)
    requires OnlyHistory(dag)
    ensures Closed(dag, dag.Keys) && forall m :: m in dag ==> ValidId(m)
  {
    forall m | m in dag ensures ValidId(m) && HasParents(dag, dag.Keys, m) {
      HistoryIsSmall(m);
      SmallIsValid(m);
      ParentsInHistory(dag, m);
    }
  }

  lemma SmallIsValid(m: Id)
    requires 1 <= m.clock <= 18 && m.hash <= 1
    ensures ValidId(m)
  {
    EncodedLengths(m.clock);
    assert Power(256, 1) == 256;
    PowerStep(256, 1, KEY_LENGTH - |Encoded(m.clock)| - 1);
  }

  lemma WhatIsWritten(w: World, m: Id)
    requires OneWrite(w) && m in w.dag
    ensures WritesOf(w, m) == if m == x2 then map[RECORD := Some(VALUE)] else map[]
  {
    var action, read := w.actions[m], (k: RecordKey) => ReadPast(w, m, k);
    assert action == Actions(m);
    if m == x2 {
      assert action.next([]) == Set(RECORD, VALUE);
      assert Run(action, read, [] + [Ack], map[RECORD := Some(VALUE)]) == map[RECORD := Some(VALUE)];
    }
  }

  lemma OnlyWriter(w: World, ms: set<Id>, db: Db)
    requires OneWrite(w) && ms <= w.dag.Keys && x2 in ms && EffectsMatch(w, ms, db)
    ensures Writers(db, RECORD) == {x2} && EffectOf(db, RECORD, Some(x2)) == Some(VALUE)
  {
    SameWriters(w, ms, db, RECORD);
    forall m ensures m in WritersIn(w, ms, RECORD) <==> m == x2 {
      if m in ms {
        WhatIsWritten(w, m);
      }
    }
    WhatIsWritten(w, x2);
    var e := EffectKey(RECORD, x2);
    assert e in db.effects <==> e.id in ms && e.record in WritesOf(w, e.id);
  }

  lemma LastOfHistory(w: World)
    requires IsHistory(w.dag)
    ensures x2 in w.dag && last in w.dag && w.dag[last] == [merge]
  {
    assert HistoryAt(w.dag, x2) && HistoryAt(w.dag, last);
  }

  lemma OneParentDenies(idx: Index, parents: seq<Id>, p: Id, a: Id)
    requires Shaped(idx) && a.clock >= 1 && parents == [p] && p in idx && !Query(idx, p, a, {}).found
    ensures !QueryParents(idx, parents, a, {})
  {
    assert parents[1..] == [];
    assert !QueryParents(idx, parents[1..], a, Query(idx, p, a, {}).visited);
  }

  lemma LastMisses(w: World)
    requires OneWrite(w) && last in w.dag && x2 in w.dag && w.dag[last] == [merge]
    ensures !Sees(w, last, x2)
  {
    ParentsInWorld(w, last);
    StoredRowLosesAnAncestor(w.dag, w.index);
    OneParentDenies(w.index, w.dag[last], merge, x2);
  }

  lemma OneWriterMissed(w: World, db: Db, m: Id, k: RecordKey, a: Id)
    requires Sound(w) && m in w.dag && a in w.dag && Writers(db, k) == {a}
    requires Reaches(w.dag, m, a) && a != m && !Sees(w, m, a)
    ensures LastWriter(w, db, m, k) == Some(a) && ReadDb(w, db, m, k) == None
  {
    assert AncestorWriters(w, db, m, k) == {a};
    assert Writers(db, k) * Past(w, m) == {};
  }

  /** After the whole history is delivered, the action of its last message reads null from the
      record, although its ancestor x2 wrote it. */
  lemma ReadMissesAncestor() returns (w: World, order: seq<Id>)
    ensures Sound(w) && OrderedByKey(w) && Built(w.dag, w.index) && last in w.dag
    ensures IsDelivery(w.dag, order) && Elements(order) == w.dag.Keys
    ensures LastWriter(w, RunAll(w, order), last, RECORD) == Some(x2)
    ensures EffectOf(RunAll(w, order), RECORD, Some(x2)) == Some(VALUE)
    ensures ReadDb(w, RunAll(w, order), last, RECORD) == None
  {
    w := OneWriteExists();
    order := DeliveryExists(w.dag, w.dag.Keys);
    RunAllMatches(w, order);
    LastOfHistory(w);
    OnlyWriter(w, w.dag.Keys, RunAll(w, order));
    Descends(w.dag);
    LastMisses(w);
    OneWriterMissed(w, RunAll(w, order), last, RECORD, x2);
  }
}
