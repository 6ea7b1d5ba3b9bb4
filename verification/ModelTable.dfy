/** The tables of a model (ModelAPI and RelationAPI): one table of columns, and for every
    relation a table of source and target pairs that follows it. */
module ModelTable {
  import opened Options
  import opened PropertyOrders
  import opened Where
  import opened WhereMeaning

  type Links = seq<(string, string)>

  // ----- relation tables -----

  /** The targets of a source, in the order they were added. */
  function TargetsOf(links: Links, source: string): seq<string> {
    if links == [] then []
    else
      var front := TargetsOf(links[..|links| - 1], source);
      var last := links[|links| - 1];
      if last.0 == source then front + [last.1] else front
  }

  /** The rows left by deleting a source. */
  function Without(links: Links, source: string): Links {
    if links == [] then []
    else
      var front := Without(links[..|links| - 1], source);
      if links[|links| - 1].0 == source then front else front + [links[|links| - 1]]
  }

  lemma TargetsOfNext(links: Links, row: (string, string), source: string)
    ensures TargetsOf(links + [row], source) == TargetsOf(links, source) + if row.0 == source then [row.1] else []
  {
  }

  lemma {:induction false} DeletedTargets(links: Links, source: string, other: string)
    ensures TargetsOf(Without(links, source), other) == if other == source then [] else TargetsOf(links, other)
    ensures forall row :: row in Without(links, source) ==> row in links
  {
    if links != [] {
      var front, last := links[..|links| - 1], links[|links| - 1];
      DeletedTargets(front, source, other);
      TargetsOfNext(Without(front, source), last, other);
      assert links == front + [last];
    }
  }

  /** The table of a relation. */
  class RelationApi {
    var links: Links

    constructor ()
      ensures links == []
    {
      links := [];
    }

    method Add(source: string, targets: seq<string>)
      modifies this
      ensures forall s :: TargetsOf(links, s) == TargetsOf(old(links), s) + if s == source then targets else []
    {
      ghost var before := links;
      for i := 0 to |targets|
        invariant forall s :: TargetsOf(links, s) == TargetsOf(before, s) + if s == source then targets[..i] else []
      {
        forall s
          ensures TargetsOf(links + [(source, targets[i])], s)
               == TargetsOf(before, s) + if s == source then targets[..i + 1] else []
        {
          TargetsOfNext(links, (source, targets[i]), s);
        }
        links := links + [(source, targets[i])];
      }
      assert targets[..|targets|] == targets;
    }

    /** Replacing the links of a source.  A source that did not exist has no links. */
    method Relink(source: string, targets: seq<string>, existing: bool)
      requires !existing ==> TargetsOf(links, source) == []
      modifies this
      ensures forall s :: TargetsOf(links, s) == if s == source then targets else TargetsOf(old(links), s)
    {
      if existing {
        Delete(source);
      }
      Add(source, targets);
    }

    method Delete(source: string)
      modifies this
      ensures forall s :: TargetsOf(links, s) == if s == source then [] else TargetsOf(old(links), s)
    {
      forall s ensures TargetsOf(Without(links, source), s) == if s == source then [] else TargetsOf(links, s) {
        DeletedTargets(links, source, s);
      }
      links := Without(links, source);
    }
  }

  // ----- the model's own table -----

  ghost predicate WellNamed(properties: Properties, primaryKey: string) {
    (forall n :: n in properties ==> properties[n].name == n)
    && primaryKey in properties && properties[primaryKey].Primary?
  }

  predicate Complete(properties: Properties, value: Row) {
    forall n :: n in properties ==> n in value && Valid(properties[n], value[n])
  }

  /** The number is this integer, which JavaScript represents exactly. */
  predicate IsSafe(x: real, z: int) {
    x == z as real && -0x20_0000_0000_0000 < z < 0x20_0000_0000_0000
  }

  /** The values a property takes, by their types: null where it is optional, safe integers for
      an integer property, lists of keys for a relation. */
  ghost predicate Takes(p: Property, v: PropertyValue) {
    if v.Null? then (p.Primitive? || p.Reference?) && p.optional
    else
      ((p.Primary? || p.Reference?) ==> v.Text?) && (p.Relation? ==> v.Texts?)
      && (p.Primitive? ==>
            match p.kind
            case Integer => v.Number? && exists z :: IsSafe(v.number, z)
            case Float => v.Number?
            case String => v.Text?
            case Blob => v.Bytes?
            case Bool => v.Boolean?
            case Json => true)
  }

  lemma ValidIsTaken(p: Property, v: PropertyValue)
    ensures Valid(p, v) <==> Takes(p, v)
  {
    if v.Number? && IsInteger(v.number) {
      assert IsSafe(v.number, v.number.Floor);
    }
    forall z | v.Number? && IsSafe(v.number, z) ensures v.number.Floor == z {
    }
  }

  lemma CompleteIsTaken(properties: Properties, value: Row)
    ensures Complete(properties, value)
            <==> forall n :: n in properties ==> n in value && Takes(properties[n], value[n])
  {
    forall n | n in properties && n in value
      ensures Valid(properties[n], value[n]) <==> Takes(properties[n], value[n])
    {
      ValidIsTaken(properties[n], value[n]);
    }
  }

  /** The part of a value the model has properties for. */
  function Visible(properties: Properties, value: Row): Row
    requires Complete(properties, value)
  {
    map n | n in properties :: value[n]
  }

  function ColumnsOf(properties: Properties, value: Row): Row
    requires Complete(properties, value)
  {
    map n | n in properties && !properties[n].Relation? :: value[n]
  }

  /** The tables as values. */
  datatype Tables = Tables(records: map<string, Row>, links: map<string, Links>)

  /** Every column has a valid value, and the primary key column has the key. */
  ghost predicate Columned(properties: Properties, primaryKey: string, k: string, columns: Row) {
    (forall n :: n in columns <==> n in properties && !properties[n].Relation?)
    && (forall n :: n in columns ==> Valid(properties[n], columns[n]))
    && primaryKey in columns && columns[primaryKey] == Text(k)
  }

  ghost predicate Unlinked(links: map<string, Links>, k: string) {
    forall n :: n in links ==> TargetsOf(links[n], k) == []
  }

  /** Records are complete, and relation tables have no rows for records that do not exist. */
  ghost predicate Sane(properties: Properties, primaryKey: string, t: Tables) {
    WellNamed(properties, primaryKey)
    && (forall n :: n in t.links <==> n in properties && properties[n].Relation?)
    && (forall k {:trigger Columned(properties, primaryKey, k, t.records[k])} ::
          k in t.records ==> Columned(properties, primaryKey, k, t.records[k]))
    && forall k {:trigger Unlinked(t.links, k)} :: k !in t.records ==> Unlinked(t.links, k)
  }

  /** The value of a record: its columns, and the targets its relation tables link it to. */
  function RowIn(properties: Properties, t: Tables, k: string): Row
    requires k in t.records
  {
    map n | n in properties && (n in t.links || n in t.records[k]) ::
      if n in t.links then Texts(TargetsOf(t.links[n], k)) else t.records[k][n]
  }

  function ContentsOf(properties: Properties, t: Tables): map<string, Row> {
    map k | k in t.records :: RowIn(properties, t, k)
  }

  ghost predicate Relinked(before: map<string, Links>, after: map<string, Links>, key: string, value: Row) {
    after.Keys == before.Keys
    && forall n, k :: n in after ==>
         TargetsOf(after[n], k) == if k == key then (if n in value && value[n].Texts? then value[n].texts else [])
                                   else TargetsOf(before[n], k)
  }

  lemma SetTables(properties: Properties, primaryKey: string, t: Tables, t': Tables, value: Row)
    requires Sane(properties, primaryKey, t) && Complete(properties, value) && value[primaryKey].Text?
    requires t'.records == t.records[value[primaryKey].text := ColumnsOf(properties, value)]
    requires Relinked(t.links, t'.links, value[primaryKey].text, value)
    ensures Sane(properties, primaryKey, t')
    ensures ContentsOf(properties, t')
            == ContentsOf(properties, t)[value[primaryKey].text := Visible(properties, value)]
  {
    SetSane(properties, primaryKey, t, t', value);
    var key := value[primaryKey].text;
    assert RowIn(properties, t', key) == Visible(properties, value);
    forall k | k in t.records && k != key ensures RowIn(properties, t', k) == RowIn(properties, t, k) {
    }
  }

  lemma SetSane(properties: Properties, primaryKey: string, t: Tables, t': Tables, value: Row)
    requires Sane(properties, primaryKey, t) && Complete(properties, value) && value[primaryKey].Text?
    requires t'.records == t.records[value[primaryKey].text := ColumnsOf(properties, value)]
    requires Relinked(t.links, t'.links, value[primaryKey].text, value)
    ensures Sane(properties, primaryKey, t')
  {
    var key := value[primaryKey].text;
    forall k | k in t'.records ensures Columned(properties, primaryKey, k, t'.records[k]) {
      if k != key {
        assert Columned(properties, primaryKey, k, t.records[k]);
      }
    }
    forall k | k !in t'.records ensures Unlinked(t'.links, k) {
      assert Unlinked(t.links, k);
    }
  }

  lemma DeleteTables(properties: Properties, primaryKey: string, t: Tables, t': Tables, key: string)
    requires Sane(properties, primaryKey, t)
    requires t'.records == t.records - {key} && Relinked(t.links, t'.links, key, map[])
    ensures Sane(properties, primaryKey, t')
    ensures ContentsOf(properties, t') == ContentsOf(properties, t) - {key}
  {
    DeleteSane(properties, primaryKey, t, t', key);
    forall k | k in t'.records ensures RowIn(properties, t', k) == RowIn(properties, t, k) {
    }
  }

  lemma DeleteSane(properties: Properties, primaryKey: string, t: Tables, t': Tables, key: string)
    requires Sane(properties, primaryKey, t)
    requires t'.records == t.records - {key} && Relinked(t.links, t'.links, key, map[])
    ensures Sane(properties, primaryKey, t')
  {
    forall k | k in t'.records ensures Columned(properties, primaryKey, k, t'.records[k]) {
      assert Columned(properties, primaryKey, k, t.records[k]);
    }
    forall k | k !in t'.records ensures Unlinked(t'.links, k) {
      assert k != key ==> Unlinked(t.links, k);
    }
  }

  class ModelApi {
    const properties: Properties
    const primaryKey: string
    const relations: map<string, RelationApi>
    var records: map<string, Row>

    constructor (properties: Properties, primaryKey: string)
      requires WellNamed(properties, primaryKey)
      ensures this.properties == properties && this.primaryKey == primaryKey
      ensures Consistent() && Contents() == map[]
    {
      var tables: map<string, RelationApi> := map[];
      var rest := set n | n in properties && properties[n].Relation?;
      while rest != {}
        invariant tables.Keys + rest == set n | n in properties && properties[n].Relation?
        invariant tables.Keys !! rest
        invariant forall n :: n in tables ==> fresh(tables[n]) && tables[n].links == []
        invariant forall m, n :: m in tables && n in tables && m != n ==> tables[m] != tables[n]
      {
        var n :| n in rest;
        var relation := new RelationApi();
        tables := tables[n := relation];
        rest := rest - {n};
      }
      this.properties, this.primaryKey := properties, primaryKey;
      relations, records := tables, map[];
    }

    function View(): Tables
      reads this, relations.Values
    {
      Tables(records, map n | n in relations :: relations[n].links)
    }

    ghost predicate Consistent()
      reads this, relations.Values
    {
      Sane(properties, primaryKey, View()) && Separate()
    }

    function Contents(): map<string, Row>
      reads this, relations.Values
    {
      ContentsOf(properties, View())
    }

    /** `get`. */
    method Get(k: string) returns (value: Option<Row>)
      ensures value == if k in Contents() then Some(Contents()[k]) else None
    {
      value := if k in records then Some(RowIn(properties, View(), k)) else None;
    }

    /** `set`: an invalid value is rejected; a valid one replaces the whole record. */
    method Set(value: Row) returns (ok: bool)
      requires Consistent()
      modifies this, relations.Values
      ensures Consistent() && (ok <==> Complete(properties, value))
      ensures !ok ==> Contents() == old(Contents())
      ensures ok ==>
                value[primaryKey].Text?
                && Contents() == old(Contents())[value[primaryKey].text := Visible(properties, value)]
      ensures ok <==> forall n :: n in properties ==> n in value && Takes(properties[n], value[n])
      ensures ok ==>
                var key := value[primaryKey].text;
                key in Contents() && Contents()[key].Keys == properties.Keys
                && forall n :: n in properties ==> Contents()[key][n] == value[n]
    {
      CompleteIsTaken(properties, value);
      ok := Complete(properties, value);
      if !ok {
        return;
      }
      Replace(value[primaryKey].text, value);
    }

    method Replace(key: string, value: Row)
      requires Consistent() && Complete(properties, value) && value[primaryKey] == Text(key)
      modifies this, relations.Values
      ensures Consistent() && Contents() == old(Contents())[key := Visible(properties, value)]
    {
      ghost var before := View();
      assert key !in records ==> Unlinked(before.links, key);
      Relink(key, value, key in records);
      records := records[key := ColumnsOf(properties, value)];
      SetTables(properties, primaryKey, before, View(), value);
    }

    ghost predicate Separate()
      reads this
    {
      forall m, n :: m in relations && n in relations && m != n ==> relations[m] != relations[n]
    }

    /** The loop over the relations: the links of a record that existed go first. */
    method Relink(key: string, value: Row, existing: bool)
      requires Separate() && forall n :: n in relations ==> n in value && value[n].Texts?
      requires !existing ==> Unlinked(View().links, key)
      modifies relations.Values
      ensures Relinked(old(View()).links, View().links, key, value)
    {
      var rest := relations.Keys;
      assert !existing ==> forall n :: n in relations ==> TargetsOf(View().links[n], key) == [];
      while rest != {}
        invariant rest <= relations.Keys
        invariant forall n :: n in rest ==> relations[n].links == old(relations[n].links)
        invariant forall n, k :: n in relations.Keys - rest ==>
                    TargetsOf(relations[n].links, k) == if k == key then value[n].texts
                                                        else TargetsOf(old(relations[n].links), k)
      {
        var n :| n in rest;
        assert !existing ==> TargetsOf(old(View()).links[n], key) == [];
        relations[n].Relink(key, value[n].texts, existing);
        rest := rest - {n};
      }
    }

    /** `delete`. */
    method Delete(key: string)
      requires Consistent()
      modifies this, relations.Values
      ensures Consistent() && Contents() == old(Contents()) - {key}
    {
      if key !in records {
        assert Contents() - {key} == Contents();
        return;
      }
      ghost var before := View();
      DeleteLinks(key);
      records := records - {key};
      DeleteTables(properties, primaryKey, before, View(), key);
    }

    method DeleteLinks(key: string)
      requires Separate()
      modifies relations.Values
      ensures Relinked(old(View()).links, View().links, key, map[])
    {
      var rest := relations.Keys;
      while rest != {}
        invariant rest <= relations.Keys
        invariant forall n :: n in rest ==> relations[n].links == old(relations[n].links)
        invariant forall n, k :: n in relations.Keys - rest ==>
                    TargetsOf(relations[n].links, k) == if k == key then [] else TargetsOf(old(relations[n].links), k)
      {
        var n :| n in rest;
        relations[n].Delete(key);
        rest := rest - {n};
      }
    }

    /** `query`, for the keys of the selected records; it throws where the clause does not
        compile, which does not happen where the filter can be built.  There it selects exactly
        the records that have what every condition asks for, that is, on which it accepts the
        value or parts from its filter, not both; for plain clauses, the records whose values
        the filter accepts. */
    method Query(clause: Clause) returns (ok: bool, keys: set<string>)
      requires Consistent()
      ensures ok <==> ClauseSql(properties, clause, |clause|).Some?
      ensures keys == if ok then Select(View(), ClauseSql(properties, clause, |clause|).value) else {}
      ensures keys <= Contents().Keys
      ensures BuildableClause(properties, clause) ==>
                ok && forall k :: k in Contents() ==>
                  (k in keys <==> SelectsRow(properties, clause, |clause|, Contents()[k]))
      ensures BuildableClause(properties, clause) ==>
                ok && forall k :: k in Contents() ==> (k in keys <==> AskedOf(properties, clause, Contents()[k]))
      ensures PlainClause(properties, clause) ==>
                ok && forall k :: k in Contents() ==>
                  (k in keys <==> AcceptsRow(properties, clause, |clause|, Contents()[k]))
    {
      FilterCompiles(properties, clause);
      var compiled := GetWhereExpression(properties, clause);
      if compiled.None? {
        return false, {};
      }
      ok, keys := true, Select(View(), compiled.value);
      forall k | k in records && BuildableClause(properties, clause)
        ensures k in keys <==> SelectsRow(properties, clause, |clause|, Contents()[k])
        ensures k in keys <==> AskedOf(properties, clause, Contents()[k])
        ensures PlainClause(properties, clause) ==>
                  (k in keys <==> AcceptsRow(properties, clause, |clause|, Contents()[k]))
      {
        QueryMeaning(properties, primaryKey, View(), clause, k);
      }
    }
  }

  lemma FilterCompiles(properties: Properties, clause: Clause)
    ensures PlainClause(properties, clause) ==> BuildableClause(properties, clause)
    ensures BuildableClause(properties, clause) ==> ClauseSql(properties, clause, |clause|).Some?
  {
    if PlainClause(properties, clause) {
      forall i: nat | i < |clause| ensures Buildable(properties, clause, i) {
        assert PlainCondition(properties, clause, i);
      }
    }
    if BuildableClause(properties, clause) {
      CompilerSucceeds(properties, clause, |clause|);
    }
  }

  /** The records of which every filter is true. */
  function Select(t: Tables, c: Compiled): set<string> {
    set k | k in t.records && forall i :: 0 <= i < |c.filters| ==> Eval(c.filters[i], RecordOf(t, k), c.params) == True
  }

  /** What SQL sees of a record. */
  function RecordOf(t: Tables, k: string): Record
    requires k in t.records
  {
    Record(t.records[k], map n | n in t.links :: set target | target in TargetsOf(t.links[n], k))
  }

  lemma RecordShows(properties: Properties, primaryKey: string, t: Tables, k: string)
    requires Sane(properties, primaryKey, t) && k in t.records
    ensures ShowsRow(RecordOf(t, k), properties, RowIn(properties, t, k))
  {
    assert Columned(properties, primaryKey, k, t.records[k]);
  }

  lemma QueryMeaning(properties: Properties, primaryKey: string, t: Tables, clause: Clause, k: string)
    requires Sane(properties, primaryKey, t) && k in t.records && BuildableClause(properties, clause)
    requires ClauseSql(properties, clause, |clause|).Some?
    ensures k in Select(t, ClauseSql(properties, clause, |clause|).value)
            <==> SelectsRow(properties, clause, |clause|, RowIn(properties, t, k))
    ensures k in Select(t, ClauseSql(properties, clause, |clause|).value)
            <==> AskedOf(properties, clause, RowIn(properties, t, k))
    ensures PlainClause(properties, clause) ==>
              (k in Select(t, ClauseSql(properties, clause, |clause|).value)
               <==> AcceptsRow(properties, clause, |clause|, RowIn(properties, t, k)))
  {
    var c := ClauseSql(properties, clause, |clause|).value;
    RecordShows(properties, primaryKey, t, k);
    ClauseExact(properties, clause, |clause|, RecordOf(t, k), RowIn(properties, t, k), c.params);
    SelectedRowIsAsked(properties, clause, RecordOf(t, k), RowIn(properties, t, k));
    if PlainClause(properties, clause) {
      ClauseMeaning(properties, clause, |clause|, RecordOf(t, k), RowIn(properties, t, k), c.params);
    }
  }
}
