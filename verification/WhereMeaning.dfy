/** The compiled where clause means what the filter means. */
module WhereMeaning {
  import opened Positional
  import opened MessageKeys
  import opened Options
  import opened EffectKeys
  import opened Placeholders
  import opened PropertyOrders
  import opened Where

  /** All the filters are true of a record. */
  ghost predicate Holds(filters: seq<Sql>, r: Record, params: Params) {
    forall i {:trigger filters[i]} :: 0 <= i < |filters| ==> Eval(filters[i], r, params) == True
  }

  lemma HoldsPlus(a: seq<Sql>, b: seq<Sql>, r: Record, params: Params)
    ensures Holds(a + b, r, params) <==> Holds(a, r, params) && Holds(b, r, params)
  {
    if Holds(a + b, r, params) {
      forall i | 0 <= i < |a| ensures Eval(a[i], r, params) == True {
        assert (a + b)[i] == a[i];
      }
      forall i | 0 <= i < |b| ensures Eval(b[i], r, params) == True {
        assert (a + b)[|a| + i] == b[i];
      }
    }
  }

  lemma {:induction false} JoinAndHolds(tests: seq<Sql>, r: Record, params: Params)
    requires tests != []
    ensures Eval(JoinAnd(tests), r, params) == True <==> Holds(tests, r, params)
  {
    var n := |tests| - 1;
    assert tests == tests[..n] + [tests[n]];
    HoldsPlus(tests[..n], [tests[n]], r, params);
    assert Holds([tests[n]], r, params) <==> Eval([tests[n]][0], r, params) == True;
    if n > 0 {
      JoinAndHolds(tests[..n], r, params);
    }
  }

  /** What a record shows of a property value: the column, or the links of the relation. */
  ghost predicate Shows(r: Record, p: Property, v: PropertyValue) {
    Valid(p, v)
    && if p.Relation? then LinksOf(r, p.name) == (set t | t in v.texts) else Lookup(r.columns, p.name) == v
  }

  ghost predicate Extends(params: Params, part: Params) {
    forall k :: k in part ==> k in params && params[k] == part[k]
  }

  /** Booleans cannot be bound to placeholders, and json is not compiled. */
  predicate Comparable(p: Property) {
    p.Primitive? ==> !p.kind.Bool? && !p.kind.Json?
  }

  lemma TextsEqual(a: string, b: string)
    ensures !(StringLess(a, b) && StringLess(b, a)) && !StringLess(a, a)
    ensures StringLess(a, b) || StringLess(b, a) || a == b
  {
    LexTotal(Codes(a), Codes(b));
    LexTotal(Codes(a), Codes(a));
    if Codes(a) == Codes(b) {
      SameCodes(a, b);
    }
  }

  /** Values of one property are totally ordered. */
  lemma LessIsTotal(p: Property, a: PropertyValue, b: PropertyValue)
    requires Comparable(p) && !p.Relation? && Valid(p, a) && Valid(p, b)
    ensures !(Less(a, b) && Less(b, a)) && (a == b ==> !Less(a, b))
    ensures Less(a, b) || Less(b, a) || a == b
  {
    if a.Text? && b.Text? {
      TextsEqual(a.text, b.text);
    } else if a.Bytes? && b.Bytes? {
      LexTotal(a.bytes, b.bytes);
    }
  }

  // ----- ranges -----

  /** What the compiled bound accepts. */
  predicate BoundHolds(p: Property, b: Bound, limit: PropertyValue, v: PropertyValue) {
    Within(b, limit, v) || (p.Primitive? && b.Lte? && limit.Null?)
  }

  lemma BoundMeaning(
    p: Property, i: nat, j: nat, b: Bound, limit: PropertyValue, r: Record, v: PropertyValue, params: Params)
    requires (p.Primary? || p.Primitive?) && Comparable(p) && Valid(p, limit) && Shows(r, p, v)
    ensures BoundSql(p, i, j, b, limit).Some?
    ensures Extends(params, BoundSql(p, i, j, b, limit).value.params)
            ==> (Holds(BoundSql(p, i, j, b, limit).value.filters, r, params) <==> BoundHolds(p, b, limit, v))
  {
    var c := BoundSql(p, i, j, b, limit).value;
    if Extends(params, c.params) {
      HoldsAtMostOne(c.filters, r, params);
      if !limit.Null? {
        assert Q(i, j) in c.params;
        BoundTruth(p, b, limit, r, v, Q(i, j), params);
      }
    }
  }

  lemma BoundTruth(
    p: Property, b: Bound, limit: PropertyValue, r: Record, v: PropertyValue, name: string, params: Params)
    requires !p.Relation? && Comparable(p) && Valid(p, limit) && !limit.Null? && Shows(r, p, v)
    requires Lookup(params, name) == limit
    ensures Eval(Compare(p.name, OpOf(b), name), r, params) == if v.Null? then Unknown else TruthOf(Within(b, limit, v))
    ensures Eval(And(NotNull(p.name), Compare(p.name, OpOf(b), name)), r, params)
            == TruthOf(!v.Null? && Within(b, limit, v))
    ensures Eval(Or(IsNull(p.name), Compare(p.name, OpOf(b), name)), r, params)
            == TruthOf(v.Null? || Within(b, limit, v))
    ensures v.Null? ==> (Within(b, limit, v) <==> b.Lt? || b.Lte?)
  {
    ComparisonMeaning(p, b, limit, v);
    var compare := Compare(p.name, OpOf(b), name);
    assert Eval(compare, r, params) == CompareValues(OpOf(b), v, limit);
    assert Eval(NotNull(p.name), r, params) == TruthOf(!v.Null?) && Eval(IsNull(p.name), r, params) == TruthOf(v.Null?);
  }

  /** A comparison against a value is true exactly of the non-null values the bound admits;
      null itself is below every value. */
  lemma ComparisonMeaning(p: Property, b: Bound, limit: PropertyValue, v: PropertyValue)
    requires !p.Relation? && Comparable(p) && Valid(p, limit) && Valid(p, v) && !limit.Null?
    ensures CompareValues(OpOf(b), v, limit) == if v.Null? then Unknown else TruthOf(Within(b, limit, v))
    ensures v.Null? ==> (Within(b, limit, v) <==> b.Lt? || b.Lte?)
  {
    LessIsTotal(p, v, limit);
  }

  lemma HoldsAtMostOne(filters: seq<Sql>, r: Record, params: Params)
    requires |filters| <= 1
    ensures Holds(filters, r, params) <==> (filters == [] || Eval(filters[0], r, params) == True)
  {
  }

  lemma {:induction false} RangeMeaning(
    p: Property, i: nat, bounds: seq<(Bound, PropertyValue)>, n: nat, r: Record, v: PropertyValue, params: Params)
    requires (p.Primary? || p.Primitive?) && Comparable(p) && Shows(r, p, v) && n <= |bounds|
    requires forall j :: 0 <= j < |bounds| ==> Valid(p, bounds[j].1)
    ensures RangeSql(p, i, bounds, n).Some?
    ensures Extends(params, RangeSql(p, i, bounds, n).value.params)
            ==> (Holds(RangeSql(p, i, bounds, n).value.filters, r, params)
                 <==> forall j :: 0 <= j < n ==> BoundHolds(p, bounds[j].0, bounds[j].1, v))
  {
    if n > 0 {
      var m := n - 1;
      RangeMeaning(p, i, bounds, m, r, v, params);
      BoundMeaning(p, i, m, bounds[m].0, bounds[m].1, r, v, params);
      RangePlaces(p, i, bounds, n);
      var front, last := RangeSql(p, i, bounds, m).value, BoundSql(p, i, m, bounds[m].0, bounds[m].1).value;
      HoldsPlus(front.filters, last.filters, r, params);
      PlusExtends(front.params, last.params, params);
    }
  }

  lemma RangePlaces(p: Property, i: nat, bounds: seq<(Bound, PropertyValue)>, n: nat)
    requires (p.Primary? || p.Primitive?) && 0 < n <= |bounds| && RangeSql(p, i, bounds, n).Some?
    ensures BoundSql(p, i, n - 1, bounds[n - 1].0, bounds[n - 1].1).value.params.Keys
            !! RangeSql(p, i, bounds, n - 1).value.params.Keys
  {
    RangeNames(p, i, bounds, n - 1);
    BoundNames(p, i, n - 1, bounds[n - 1].0, bounds[n - 1].1);
  }

  /** The placeholders of the first n bounds of the i-th condition. */
  ghost predicate NamedBelow(params: Params, i: nat, n: nat) {
    forall k :: k in params ==> exists j: nat :: j < n && k == Q(i, j)
  }

  lemma BoundNames(p: Property, i: nat, j: nat, b: Bound, limit: PropertyValue)
    requires p.Primary? || p.Primitive?
    ensures BoundSql(p, i, j, b, limit).Some? ==>
              forall k :: k in BoundSql(p, i, j, b, limit).value.params ==> k == Q(i, j)
  {
  }

  lemma {:induction false} RangeNames(p: Property, i: nat, bounds: seq<(Bound, PropertyValue)>, n: nat)
    requires (p.Primary? || p.Primitive?) && n <= |bounds|
    ensures RangeSql(p, i, bounds, n).Some? ==> NamedBelow(RangeSql(p, i, bounds, n).value.params, i, n)
    ensures RangeSql(p, i, bounds, n).Some? ==> Q(i, n) !in RangeSql(p, i, bounds, n).value.params
  {
    if n > 0 && RangeSql(p, i, bounds, n).Some? {
      RangeNames(p, i, bounds, n - 1);
      BoundNames(p, i, n - 1, bounds[n - 1].0, bounds[n - 1].1);
      var params := RangeSql(p, i, bounds, n).value.params;
      forall k | k in params ensures exists j: nat :: j < n && k == Q(i, j) {
        if k != Q(i, n - 1) {
          assert k in RangeSql(p, i, bounds, n - 1).value.params;
        }
      }
    }
    forall j: nat | j < n ensures Q(i, j) != Q(i, n) {
      NamesDiffer(i, j, i, n);
    }
  }

  lemma PlusExtends(front: Params, last: Params, params: Params)
    requires last.Keys !! front.Keys
    ensures Extends(params, front + last) <==> Extends(params, front) && Extends(params, last)
  {
  }

  /** With each bound given once, checking them in the filter's order or in the order they
      are written is the same. */
  lemma WithinAll(bounds: seq<(Bound, PropertyValue)>, v: PropertyValue)
    requires DistinctBounds(bounds)
    ensures (forall j :: 0 <= j < |bounds| ==> Within(bounds[j].0, bounds[j].1, v))
            <==> WithinAt(bounds, Gt, v) && WithinAt(bounds, Gte, v) && WithinAt(bounds, Lt, v)
                 && WithinAt(bounds, Lte, v)
  {
    OneBound(bounds, Gt, v);
    OneBound(bounds, Gte, v);
    OneBound(bounds, Lt, v);
    OneBound(bounds, Lte, v);
  }

  lemma {:induction false} OneBound(bounds: seq<(Bound, PropertyValue)>, b: Bound, v: PropertyValue)
    requires DistinctBounds(bounds)
    ensures WithinAt(bounds, b, v) <==> forall j :: 0 <= j < |bounds| && bounds[j].0 == b ==> Within(b, bounds[j].1, v)
    ensures BoundAt(bounds, b).Some? <==> exists j :: 0 <= j < |bounds| && bounds[j].0 == b
  {
    if bounds != [] {
      var rest := bounds[1..];
      OneBound(rest, b, v);
      assert forall j :: 0 <= j < |rest| ==> rest[j] == bounds[j + 1];
      assert forall j :: 1 <= j < |bounds| ==> bounds[j] == rest[j - 1];
    }
  }

  // ----- relations -----

  lemma {:induction false} LinkParamsBind(i: nat, targets: seq<string>, n: nat, j: nat)
    requires j < n <= |targets|
    ensures Q(i, j) in LinkParams(i, targets, n) && LinkParams(i, targets, n)[Q(i, j)] == Text(targets[j])
  {
    NamesDiffer(i, j, i, n - 1);
    if j < n - 1 {
      LinkParamsBind(i, targets, n - 1, j);
    }
  }

  lemma {:induction false} LinkNames(i: nat, targets: seq<string>, n: nat)
    requires n <= |targets|
    ensures NamedBelow(LinkParams(i, targets, n), i, n)
  {
    if n > 0 {
      LinkNames(i, targets, n - 1);
      forall k | k in LinkParams(i, targets, n) ensures exists j: nat :: j < n && k == Q(i, j) {
        if k != Q(i, n - 1) {
          assert k in LinkParams(i, targets, n - 1);
        }
      }
    }
  }

  lemma LinkMeaning(name: string, i: nat, targets: seq<string>, negated: bool, r: Record, params: Params)
    requires Extends(params, LinkSql(name, i, targets, negated).params)
    ensures Holds(LinkSql(name, i, targets, negated).filters, r, params)
            <==> forall t :: t in targets ==> (t in LinksOf(r, name)) != negated
  {
    HoldsAtMostOne(LinkSql(name, i, targets, negated).filters, r, params);
    if targets != [] {
      JoinAndHolds(LinkTests(name, i, targets, negated, |targets|), r, params);
      LinkTestsMeaning(name, i, targets, negated, r, params);
    }
  }

  lemma LinkTestsMeaning(name: string, i: nat, targets: seq<string>, negated: bool, r: Record, params: Params)
    requires Extends(params, LinkParams(i, targets, |targets|))
    ensures Holds(LinkTests(name, i, targets, negated, |targets|), r, params)
            <==> forall t :: t in targets ==> (t in LinksOf(r, name)) != negated
  {
    var tests := LinkTests(name, i, targets, negated, |targets|);
    forall j: nat | j < |targets|
      ensures Eval(tests[j], r, params) == TruthOf((targets[j] in LinksOf(r, name)) != negated)
    {
      LinkParamsBind(i, targets, |targets|, j);
      assert Q(i, j) in LinkParams(i, targets, |targets|);
      assert Lookup(params, Q(i, j)) == Text(targets[j]);
    }
    if Holds(tests, r, params) {
      forall t | t in targets ensures (t in LinksOf(r, name)) != negated {
        var j: nat :| j < |targets| && targets[j] == t;
        assert Eval(tests[j], r, params) == True;
      }
    }
  }

  // ----- one condition -----

  /** Where the two meanings part: `lte: null` on a value that is not null and within the
      other bounds, and `neq` of a string on a reference that is null. */
  predicate Parts(p: Property, e: Expression, v: PropertyValue) {
    match e
    case Literal(_) => false
    case Neq(ref) => p.Reference? && !ref.Null? && v.Null?
    case Range(bounds) =>
      p.Primitive? && !v.Null? && (exists j :: 0 <= j < |bounds| && IsLteNull(bounds[j]))
      && forall j :: 0 <= j < |bounds| && !IsLteNull(bounds[j]) ==> Within(bounds[j].0, bounds[j].1, v)
  }

  predicate IsLteNull(b: (Bound, PropertyValue)) {
    b.0.Lte? && b.1.Null?
  }

  /** The compiled condition is true of exactly the records the filter accepts, except at
      the values where the two part, and there they always differ. */
  lemma ConditionExact(p: Property, i: nat, e: Expression, r: Record, v: PropertyValue, params: Params)
    requires Comparable(p) && FilterExists(p, e) && WellFormed(e) && Shows(r, p, v)
    ensures ConditionSql(p, i, e).Some?
    ensures Extends(params, ConditionSql(p, i, e).value.params)
            ==> ((Holds(ConditionSql(p, i, e).value.filters, r, params) <==> Accepts(p, e, v)) <==> !Parts(p, e, v))
  {
    if e.Range? {
      RangeExact(p, i, e.bounds, r, v, params);
    } else if p.Relation? {
      RelationExact(p, i, e, r, v, params);
    } else {
      ScalarExact(p, i, e, r, v, params);
    }
  }

  /** `{ x: { lte: null } }` on a number: the filter rejects the record and SQL selects it. */
  lemma LteNullDiffers(p: Property, e: Expression, v: PropertyValue, r: Record)
    requires p == Primitive("x", Float, true) && e == Range([(Lte, PropertyValue.Null)])
    requires v == Number(1.0) && r == Record(map["x" := v], map[])
    ensures FilterExists(p, e) && !Accepts(p, e, v)
    ensures ConditionSql(p, 0, e).Some?
            && Holds(ConditionSql(p, 0, e).value.filters, r, ConditionSql(p, 0, e).value.params)
  {
    assert e.bounds[0] == (Lte, PropertyValue.Null);
    ConditionSucceeds(p, 0, e);
    ConditionExact(p, 0, e, r, v, ConditionSql(p, 0, e).value.params);
  }

  /** `{ x: { neq: "a" } }` on a null reference: the filter accepts the record and SQL does not
      select it. */
  lemma NeqNullDiffers(p: Property, e: Expression, v: PropertyValue, r: Record)
    requires p == Reference("x", "y", true) && e == Neq(Text("a"))
    requires v == PropertyValue.Null && r == Record(map["x" := v], map[])
    ensures FilterExists(p, e) && Accepts(p, e, v)
    ensures ConditionSql(p, 0, e).Some?
            && !Holds(ConditionSql(p, 0, e).value.filters, r, ConditionSql(p, 0, e).value.params)
  {
    ConditionExact(p, 0, e, r, v, ConditionSql(p, 0, e).value.params);
  }

  lemma RangeExact(
    p: Property, i: nat, bounds: seq<(Bound, PropertyValue)>, r: Record, v: PropertyValue, params: Params)
    requires Comparable(p) && FilterExists(p, Range(bounds)) && DistinctBounds(bounds) && Shows(r, p, v)
    ensures ConditionSql(p, i, Range(bounds)).Some?
    ensures Extends(params, ConditionSql(p, i, Range(bounds)).value.params)
            ==> ((Holds(ConditionSql(p, i, Range(bounds)).value.filters, r, params) <==> Accepts(p, Range(bounds), v))
                 <==> !Parts(p, Range(bounds), v))
  {
    RangeMeaning(p, i, bounds, |bounds|, r, v, params);
    WithinAll(bounds, v);
    BoundsPart(p, bounds, v);
  }

  lemma BoundsPart(p: Property, bounds: seq<(Bound, PropertyValue)>, v: PropertyValue)
    requires Comparable(p) && FilterExists(p, Range(bounds)) && Valid(p, v)
    ensures ((forall j :: 0 <= j < |bounds| ==> BoundHolds(p, bounds[j].0, bounds[j].1, v))
             <==> forall j :: 0 <= j < |bounds| ==> Within(bounds[j].0, bounds[j].1, v))
            <==> !Parts(p, Range(bounds), v)
  {
  }

  lemma RelationExact(p: Property, i: nat, e: Expression, r: Record, v: PropertyValue, params: Params)
    requires p.Relation? && !e.Range? && FilterExists(p, e) && Shows(r, p, v)
    ensures ConditionSql(p, i, e).Some?
    ensures Extends(params, ConditionSql(p, i, e).value.params)
            ==> (Holds(ConditionSql(p, i, e).value.filters, r, params) <==> Accepts(p, e, v))
  {
    if Extends(params, ConditionSql(p, i, e).value.params) {
      LinkMeaning(p.name, i, e.value.texts, e.Neq?, r, params);
    }
  }

  lemma ScalarExact(p: Property, i: nat, e: Expression, r: Record, v: PropertyValue, params: Params)
    requires Comparable(p) && !p.Relation? && !e.Range? && FilterExists(p, e) && Shows(r, p, v)
    ensures ConditionSql(p, i, e).Some?
    ensures Extends(params, ConditionSql(p, i, e).value.params)
            ==> ((Holds(ConditionSql(p, i, e).value.filters, r, params) <==> Accepts(p, e, v)) <==> !Parts(p, e, v))
  {
    var c := ConditionSql(p, i, e).value;
    HoldsAtMostOne(c.filters, r, params);
    if Extends(params, c.params) && !e.value.Null? {
      assert P(i) in c.params;
      var op := if e.Literal? then Equal else NotEqual;
      var compare := Compare(p.name, op, P(i));
      assert Eval(compare, r, params) == CompareValues(op, v, e.value);
      assert Eval(IsNull(p.name), r, params) == TruthOf(v.Null?);
      assert Eval(Or(IsNull(p.name), compare), r, params)
          == Either(Eval(IsNull(p.name), r, params), Eval(compare, r, params));
    }
  }

  // ----- the whole clause -----

  /** The placeholder belongs to the i-th condition. */
  ghost predicate BelongsTo(k: string, i: nat) {
    k == P(i) || exists j: nat :: k == Q(i, j)
  }

  lemma BelongsToOne(k: string, i: nat, l: nat)
    requires BelongsTo(k, i) && BelongsTo(k, l)
    ensures i == l
  {
    var j: nat := if k == P(i) then 0 else var j: nat :| k == Q(i, j); j;
    var m: nat := if k == P(l) then 0 else var m: nat :| k == Q(l, m); m;
    NamesDiffer(i, j, l, m);
    NamesDiffer(l, m, i, j);
  }

  lemma ConditionNames(p: Property, i: nat, e: Expression)
    ensures ConditionSql(p, i, e).Some? ==> forall k :: k in ConditionSql(p, i, e).value.params ==> BelongsTo(k, i)
  {
    if e.Range? && (p.Primary? || p.Primitive?) {
      RangeNames(p, i, e.bounds, |e.bounds|);
    } else if !e.Range? && p.Relation? && e.value.Texts? {
      LinkNames(i, e.value.texts, |e.value.texts|);
    }
  }

  lemma {:induction false} ClauseNames(properties: Properties, clause: Clause, n: nat)
    requires n <= |clause|
    ensures ClauseSql(properties, clause, n).Some? ==>
              forall k :: k in ClauseSql(properties, clause, n).value.params ==>
                exists i: nat :: i < n && BelongsTo(k, i)
  {
    if n > 0 && ClauseSql(properties, clause, n).Some? {
      ClauseNames(properties, clause, n - 1);
      ConditionNames(properties[clause[n - 1].0], n - 1, clause[n - 1].1);
    }
  }

  lemma ClausePlaces(properties: Properties, clause: Clause, n: nat)
    requires 0 < n <= |clause| && ClauseSql(properties, clause, n).Some?
    ensures ConditionSql(properties[clause[n - 1].0], n - 1, clause[n - 1].1).value.params.Keys
            !! ClauseSql(properties, clause, n - 1).value.params.Keys
  {
    ClauseNames(properties, clause, n - 1);
    ConditionNames(properties[clause[n - 1].0], n - 1, clause[n - 1].1);
    var front := ClauseSql(properties, clause, n - 1).value.params;
    var last := ConditionSql(properties[clause[n - 1].0], n - 1, clause[n - 1].1).value.params;
    forall k | k in last ensures k !in front {
      if k in front {
        var i: nat :| i < n - 1 && BelongsTo(k, i);
        BelongsToOne(k, i, n - 1);
      }
    }
  }

  /** Every placeholder keeps its own value: no later condition rebinds it. */
  lemma {:induction false} PlaceholdersKeep(properties: Properties, clause: Clause, i: nat, n: nat)
    requires i < n <= |clause| && ClauseSql(properties, clause, n).Some?
    ensures clause[i].0 in properties && ConditionSql(properties[clause[i].0], i, clause[i].1).Some?
    ensures Extends(ClauseSql(properties, clause, n).value.params,
                    ConditionSql(properties[clause[i].0], i, clause[i].1).value.params)
  {
    ClausePlaces(properties, clause, n);
    if i < n - 1 {
      PlaceholdersKeep(properties, clause, i, n - 1);
    }
  }

  /** A record with the value of each property. */
  type Row = map<string, PropertyValue>

  ghost predicate ShowsRow(r: Record, properties: Properties, row: Row) {
    forall name {:trigger name in properties} ::
      name in properties ==> name in row && properties[name].name == name && Shows(r, properties[name], row[name])
  }

  /** Conditions the filter accepts to build, on properties that can be compiled. */
  ghost predicate Buildable(properties: Properties, clause: Clause, i: nat)
    requires i < |clause|
  {
    clause[i].0 in properties && Comparable(properties[clause[i].0])
    && FilterExists(properties[clause[i].0], clause[i].1) && WellFormed(clause[i].1)
  }

  ghost predicate BuildableClause(properties: Properties, clause: Clause) {
    forall i: nat {:trigger Buildable(properties, clause, i)} :: i < |clause| ==> Buildable(properties, clause, i)
  }

  /** A guard on the condition alone: no `lte: null` on a primitive property and no `neq` of
      a string on an optional reference. */
  predicate Plain(p: Property, e: Expression) {
    match e
    case Literal(_) => true
    case Neq(ref) => !(p.Reference? && p.optional && !ref.Null?)
    case Range(bounds) => p.Primitive? ==> forall j :: 0 <= j < |bounds| ==> !IsLteNull(bounds[j])
  }

  ghost predicate PlainCondition(properties: Properties, clause: Clause, i: nat)
    requires i < |clause|
  {
    Buildable(properties, clause, i) && Plain(properties[clause[i].0], clause[i].1)
  }

  ghost predicate PlainClause(properties: Properties, clause: Clause) {
    forall i: nat {:trigger PlainCondition(properties, clause, i)} :: i < |clause| ==>
      PlainCondition(properties, clause, i)
  }

  ghost predicate AcceptsAt(properties: Properties, clause: Clause, i: nat, row: Row)
    requires i < |clause|
  {
    Buildable(properties, clause, i) ==>
      clause[i].0 in row && Accepts(properties[clause[i].0], clause[i].1, row[clause[i].0])
  }

  /** The filter of the first n conditions accepts a row. */
  ghost predicate AcceptsRow(properties: Properties, clause: Clause, n: nat, row: Row)
    requires n <= |clause|
  {
    forall i: nat {:trigger AcceptsAt(properties, clause, i, row)} :: i < n ==> AcceptsAt(properties, clause, i, row)
  }

  /** The condition accepts the value, or parts from its filter there, but not both. */
  ghost predicate SelectsAt(properties: Properties, clause: Clause, i: nat, row: Row)
    requires i < |clause|
  {
    Buildable(properties, clause, i) ==>
      clause[i].0 in row
      && (Accepts(properties[clause[i].0], clause[i].1, row[clause[i].0])
          <==> !Parts(properties[clause[i].0], clause[i].1, row[clause[i].0]))
  }

  /** What the first n compiled conditions select. */
  ghost predicate SelectsRow(properties: Properties, clause: Clause, n: nat, row: Row)
    requires n <= |clause|
  {
    forall i: nat {:trigger SelectsAt(properties, clause, i, row)} :: i < n ==> SelectsAt(properties, clause, i, row)
  }

  /** A plain condition never parts from its filter. */
  lemma PlainNeverParts(p: Property, e: Expression, v: PropertyValue)
    requires Plain(p, e) && Valid(p, v)
    ensures !Parts(p, e, v)
  {
  }

  /** The compiler succeeds where the filter can be built. */
  lemma {:induction false} CompilerSucceeds(properties: Properties, clause: Clause, n: nat)
    requires n <= |clause| && BuildableClause(properties, clause)
    ensures ClauseSql(properties, clause, n).Some?
  {
    if n > 0 {
      CompilerSucceeds(properties, clause, n - 1);
      assert Buildable(properties, clause, n - 1);
      ConditionSucceeds(properties[clause[n - 1].0], n - 1, clause[n - 1].1);
    }
  }

  lemma ConditionSucceeds(p: Property, i: nat, e: Expression)
    requires Comparable(p) && FilterExists(p, e)
    ensures ConditionSql(p, i, e).Some?
  {
    if e.Range? {
      RangeSucceeds(p, i, e.bounds, |e.bounds|);
    }
  }

  lemma {:induction false} RangeSucceeds(p: Property, i: nat, bounds: seq<(Bound, PropertyValue)>, n: nat)
    requires (p.Primary? || p.Primitive?) && n <= |bounds| && forall j :: 0 <= j < |bounds| ==> Valid(p, bounds[j].1)
    ensures RangeSql(p, i, bounds, n).Some?
  {
    if n > 0 {
      RangeSucceeds(p, i, bounds, n - 1);
    }
  }

  /** The compiled clause is true of exactly the records on whose values every condition either
      accepts or parts from its filter, not both. */
  lemma {:induction false} ClauseExact(
    properties: Properties, clause: Clause, n: nat, r: Record, row: Row, params: Params)
    requires n <= |clause| && ShowsRow(r, properties, row) && BuildableClause(properties, clause)
    requires ClauseSql(properties, clause, n).Some? && Extends(params, ClauseSql(properties, clause, n).value.params)
    ensures Holds(ClauseSql(properties, clause, n).value.filters, r, params) <==> SelectsRow(properties, clause, n, row)
  {
    if n > 0 {
      var m := n - 1;
      assert Buildable(properties, clause, m);
      var p, e := properties[clause[m].0], clause[m].1;
      var front, last := ClauseSql(properties, clause, m).value, ConditionSql(p, m, e).value;
      ClausePlaces(properties, clause, n);
      PlusExtends(front.params, last.params, params);
      HoldsPlus(front.filters, last.filters, r, params);
      ClauseExact(properties, clause, m, r, row, params);
      ConditionExact(p, m, e, r, row[clause[m].0], params);
      assert SelectsRow(properties, clause, n, row)
        <==> SelectsRow(properties, clause, m, row) && SelectsAt(properties, clause, m, row);
    }
  }

  /** With plain conditions that are the records the filter accepts. */
  lemma ClauseMeaning(
    properties: Properties, clause: Clause, n: nat, r: Record, row: Row, params: Params)
    requires n <= |clause| && ShowsRow(r, properties, row) && PlainClause(properties, clause)
    requires ClauseSql(properties, clause, n).Some? && Extends(params, ClauseSql(properties, clause, n).value.params)
    ensures Holds(ClauseSql(properties, clause, n).value.filters, r, params) <==> AcceptsRow(properties, clause, n, row)
  {
    forall i: nat | i < |clause|
      ensures Buildable(properties, clause, i)
      ensures AcceptsAt(properties, clause, i, row) <==> SelectsAt(properties, clause, i, row)
    {
      assert PlainCondition(properties, clause, i);
      PlainSelects(properties, clause, r, row, i);
    }
    ClauseExact(properties, clause, n, r, row, params);
    if AcceptsRow(properties, clause, n, row) {
      forall i: nat | i < n ensures SelectsAt(properties, clause, i, row) {
        assert AcceptsAt(properties, clause, i, row);
      }
    }
    if SelectsRow(properties, clause, n, row) {
      forall i: nat | i < n ensures AcceptsAt(properties, clause, i, row) {
        assert SelectsAt(properties, clause, i, row);
      }
    }
  }

  lemma PlainSelects(properties: Properties, clause: Clause, r: Record, row: Row, i: nat)
    requires i < |clause| && ShowsRow(r, properties, row) && PlainClause(properties, clause)
    ensures AcceptsAt(properties, clause, i, row) <==> SelectsAt(properties, clause, i, row)
  {
    assert PlainCondition(properties, clause, i);
    PlainNeverParts(properties[clause[i].0], clause[i].1, row[clause[i].0]);
  }

  // ----- what a clause asks for, in plain terms -----

  /** A bound as SQL applies it, with the comparison written out: numbers by size, texts by
      character codes, byte strings by bytes.  Null is below every value; `gte` and `lte` of null
      ask for nothing. */
  predicate Meets(b: Bound, limit: PropertyValue, v: PropertyValue) {
    if limit.Null? then !b.Lt? && (b.Gt? ==> !v.Null?)
    else if v.Null? then b.Lt? || b.Lte?
    else if v.Number? && limit.Number? then
      match b
      case Gt => v.number > limit.number
      case Gte => v.number >= limit.number
      case Lt => v.number < limit.number
      case Lte => v.number <= limit.number
    else if v.Text? && limit.Text? then
      match b
      case Gt => StringLess(limit.text, v.text)
      case Gte => !StringLess(v.text, limit.text)
      case Lt => StringLess(v.text, limit.text)
      case Lte => !StringLess(limit.text, v.text)
    else
      v.Bytes? && limit.Bytes?
      && match b
         case Gt => LexLess(limit.bytes, v.bytes)
         case Gte => !LexLess(v.bytes, limit.bytes)
         case Lt => LexLess(v.bytes, limit.bytes)
         case Lte => !LexLess(limit.bytes, v.bytes)
  }

  /** What a condition asks of a value, as SQL applies it. */
  predicate Asks(p: Property, e: Expression, v: PropertyValue) {
    match e
    case Literal(ref) =>
      if p.Relation? then v.Texts? && ref.Texts? && forall t :: t in ref.texts ==> t in v.texts else v == ref
    case Neq(ref) =>
      if p.Relation? then v.Texts? && ref.Texts? && forall t :: t in ref.texts ==> t !in v.texts
      else v != ref && !(p.Reference? && v.Null?)
    case Range(bounds) => forall j :: 0 <= j < |bounds| ==> Meets(bounds[j].0, bounds[j].1, v)
  }

  lemma MeetsIfWithin(p: Property, b: Bound, limit: PropertyValue, v: PropertyValue)
    requires (p.Primary? || p.Primitive?) && Comparable(p) && Valid(p, limit) && Valid(p, v)
    ensures Meets(b, limit, v) <==> Within(b, limit, v) || (b.Lte? && limit.Null?)
  {
    if v.Text? && limit.Text? {
      TextsEqual(v.text, limit.text);
    } else if v.Bytes? && limit.Bytes? {
      LexTotal(v.bytes, limit.bytes);
      LexTotal(v.bytes, v.bytes);
    }
  }

  /** What the compiled condition selects is what it asks for. */
  lemma SelectedIsAsked(p: Property, e: Expression, v: PropertyValue)
    requires Comparable(p) && FilterExists(p, e) && WellFormed(e) && Valid(p, v)
    ensures Asks(p, e, v) <==> (Accepts(p, e, v) <==> !Parts(p, e, v))
  {
    if e.Range? {
      WithinAll(e.bounds, v);
      forall j | 0 <= j < |e.bounds|
        ensures Meets(e.bounds[j].0, e.bounds[j].1, v)
                <==> Within(e.bounds[j].0, e.bounds[j].1, v) || IsLteNull(e.bounds[j])
      {
        MeetsIfWithin(p, e.bounds[j].0, e.bounds[j].1, v);
      }
      RangeAsked(p, e.bounds, v);
    }
  }

  lemma RangeAsked(p: Property, bounds: seq<(Bound, PropertyValue)>, v: PropertyValue)
    requires Comparable(p) && FilterExists(p, Range(bounds)) && Valid(p, v)
    requires forall j :: 0 <= j < |bounds| ==>
               (Meets(bounds[j].0, bounds[j].1, v) <==> Within(bounds[j].0, bounds[j].1, v) || IsLteNull(bounds[j]))
    ensures (forall j :: 0 <= j < |bounds| ==> Meets(bounds[j].0, bounds[j].1, v))
            <==> ((forall j :: 0 <= j < |bounds| ==> Within(bounds[j].0, bounds[j].1, v))
                  <==> !Parts(p, Range(bounds), v))
  {
  }

  /** Two bounds on a number ask for the interval between them. */
  lemma NumbersBetween(p: Property, low: real, high: real, v: PropertyValue)
    ensures Asks(p, Range([(Gt, Number(low)), (Lt, Number(high))]), v) <==> v.Number? && low < v.number < high
    ensures Asks(p, Range([(Gte, Number(low)), (Lte, Number(high))]), v) <==> v.Number? && low <= v.number <= high
  {
    var open, closed := [(Gt, Number(low)), (Lt, Number(high))], [(Gte, Number(low)), (Lte, Number(high))];
    assert Asks(p, Range(open), v) <==> Meets(open[0].0, open[0].1, v) && Meets(open[1].0, open[1].1, v);
    assert Asks(p, Range(closed), v) <==> Meets(closed[0].0, closed[0].1, v) && Meets(closed[1].0, closed[1].1, v);
  }

  /** Every condition of a clause asks for what the row has. */
  ghost predicate AskedOf(properties: Properties, clause: Clause, row: Row) {
    forall i: nat {:trigger AsksAt(properties, clause, i, row)} :: i < |clause| ==> AsksAt(properties, clause, i, row)
  }

  ghost predicate AsksAt(properties: Properties, clause: Clause, i: nat, row: Row)
    requires i < |clause|
  {
    clause[i].0 in properties && clause[i].0 in row
    && Asks(properties[clause[i].0], clause[i].1, row[clause[i].0])
  }

  lemma SelectedRowIsAsked(properties: Properties, clause: Clause, r: Record, row: Row)
    requires ShowsRow(r, properties, row) && BuildableClause(properties, clause)
    ensures SelectsRow(properties, clause, |clause|, row) <==> AskedOf(properties, clause, row)
  {
    forall i: nat | i < |clause| ensures SelectsAt(properties, clause, i, row) <==> AsksAt(properties, clause, i, row) {
      assert Buildable(properties, clause, i);
      SelectedIsAsked(properties[clause[i].0], clause[i].1, row[clause[i].0]);
    }
  }

  /** `{ score: { gt: 5 } }` can be asked, and asks for the scores above five. */
  lemma ScoresAboveFive(properties: Properties, clause: Clause, row: Row)
    requires "score" in properties && properties["score"] == Primitive("score", Float, false)
    requires clause == [("score", Range([(Gt, Number(5.0))]))] && "score" in row && row["score"].Number?
    ensures BuildableClause(properties, clause)
    ensures AskedOf(properties, clause, row) <==> row["score"].number > 5.0
  {
    var bounds := [(Gt, Number(5.0))];
    assert bounds[0] == (Gt, Number(5.0));
    assert Buildable(properties, clause, 0);
    assert AsksAt(properties, clause, 0, row) <==> Meets(bounds[0].0, bounds[0].1, row["score"]);
  }
}
