/** Compiling a where clause to SQL (ModelAPI.getWhereExpression), and its direct meaning
    (getFilter).  The compiled form is a syntax tree under three-valued logic. */
module Where {
  import opened Positional
  import opened MessageKeys
  import opened Options
  import opened Placeholders
  import opened PropertyOrders

  // ----- models and clauses -----

  datatype PrimitiveType = Integer | Float | String | Blob | Bool | Json

  datatype Property =
    | Primary(name: string)
    | Primitive(name: string, kind: PrimitiveType, optional: bool)
    | Reference(name: string, target: string, optional: bool)
    | Relation(name: string, target: string)

  datatype Bound = Gt | Gte | Lt | Lte

  datatype Expression =
    | Literal(value: PropertyValue)
    | Neq(value: PropertyValue)
    | Range(bounds: seq<(Bound, PropertyValue)>)

  type Clause = seq<(string, Expression)>

  type Properties = map<string, Property>

  /** An object has each key once. */
  ghost predicate DistinctBounds(bounds: seq<(Bound, PropertyValue)>) {
    forall i, j :: 0 <= i < j < |bounds| ==> bounds[i].0 != bounds[j].0
  }

  ghost predicate WellFormed(e: Expression) {
    e.Range? ==> DistinctBounds(e.bounds)
  }

  predicate IsInteger(x: real) {
    x.Floor as real == x && -0x1f_ffff_ffff_ffff <= x.Floor <= 0x1f_ffff_ffff_ffff
  }

  /** validatePropertyValue does not throw. */
  predicate Valid(p: Property, v: PropertyValue) {
    match p
    case Primary(_) => v.Text?
    case Primitive(_, kind, optional) => (optional && v.Null?) || ValidPrimitive(kind, v)
    case Reference(_, _, optional) => (optional && v.Null?) || v.Text?
    case Relation(_, _) => v.Texts?
  }

  predicate ValidPrimitive(kind: PrimitiveType, v: PropertyValue) {
    match kind
    case Integer => v.Number? && IsInteger(v.number)
    case Float => v.Number?
    case String => v.Text?
    case Blob => v.Bytes?
    case Bool => v.Boolean?
    case Json => !v.Null?
  }

  // ----- the direct meaning -----

  /** The orders of query.ts: null comes first, values of one type compare as usual. */
  predicate Less(a: PropertyValue, b: PropertyValue) {
    if a.Null? then !b.Null?
    else if a.Number? && b.Number? then a.number < b.number
    else if a.Text? && b.Text? then StringLess(a.text, b.text)
    else if a.Bytes? && b.Bytes? then LexLess(a.bytes, b.bytes)
    else a.Boolean? && b.Boolean? && !a.boolean && b.boolean
  }

  /** The value a range expression gives for a bound, if it has it. */
  function BoundAt(bounds: seq<(Bound, PropertyValue)>, b: Bound): Option<PropertyValue> {
    if bounds == [] then None
    else if bounds[0].0 == b then Some(bounds[0].1)
    else BoundAt(bounds[1..], b)
  }

  predicate Within(b: Bound, limit: PropertyValue, v: PropertyValue) {
    match b
    case Gt => !(Less(v, limit) || v == limit)
    case Gte => !Less(v, limit)
    case Lt => Less(v, limit)
    case Lte => Less(v, limit) || v == limit
  }

  predicate WithinAt(bounds: seq<(Bound, PropertyValue)>, b: Bound, v: PropertyValue) {
    BoundAt(bounds, b).Some? ==> Within(b, BoundAt(bounds, b).value, v)
  }

  /** Building the filter of a property does not throw. */
  predicate FilterExists(p: Property, e: Expression) {
    match e
    case Literal(v) => if p.Reference? then v.Null? || v.Text? else Valid(p, v)
    case Neq(v) => if p.Reference? then v.Null? || v.Text? else Valid(p, v)
    case Range(bounds) =>
      (p.Primary? || p.Primitive?) && forall i :: 0 <= i < |bounds| ==> Valid(p, bounds[i].1)
  }

  /** The filter of a property accepts a value. */
  predicate Accepts(p: Property, e: Expression, v: PropertyValue)
    requires FilterExists(p, e)
  {
    match e
    case Literal(ref) =>
      if p.Relation? then forall t :: t in ref.texts ==> v.Texts? && t in v.texts else v == ref
    case Neq(ref) =>
      if p.Relation? then forall t :: t in ref.texts ==> v.Texts? && t !in v.texts else v != ref
    case Range(bounds) =>
      WithinAt(bounds, Gt, v) && WithinAt(bounds, Gte, v) && WithinAt(bounds, Lt, v) && WithinAt(bounds, Lte, v)
  }

  // ----- SQL -----

  datatype Op = Equal | NotEqual | Greater | GreaterEqual | Smaller | SmallerEqual

  datatype Sql =
    | IsNull(column: string)
    | NotNull(column: string)
    | Compare(column: string, op: Op, placeholder: string)
    | ZeroEqualsOne
    | And(left: Sql, right: Sql)
    | Or(left: Sql, right: Sql)
    /** The primary key is (not) among the sources that a relation links to a target. */
    | Linked(relation: string, placeholder: string)
    | NotLinked(relation: string, placeholder: string)

  datatype Truth = True | False | Unknown

  function TruthOf(b: bool): Truth {
    if b then True else False
  }

  function Both(a: Truth, b: Truth): Truth {
    if a == False || b == False then False
    else if a == Unknown || b == Unknown then Unknown
    else True
  }

  function Either(a: Truth, b: Truth): Truth {
    if a == True || b == True then True
    else if a == Unknown || b == Unknown then Unknown
    else False
  }

  type Params = map<string, PropertyValue>

  /** What a query sees of one record: its columns, and the targets each relation table
      links its primary key to. */
  datatype Record = Record(columns: map<string, PropertyValue>, links: map<string, set<string>>)

  function CompareValues(op: Op, a: PropertyValue, b: PropertyValue): Truth {
    if a.Null? || b.Null? then Unknown
    else
      match op
      case Equal => TruthOf(a == b)
      case NotEqual => TruthOf(a != b)
      case Greater => TruthOf(Less(b, a))
      case GreaterEqual => TruthOf(Less(b, a) || a == b)
      case Smaller => TruthOf(Less(a, b))
      case SmallerEqual => TruthOf(Less(a, b) || a == b)
  }

  /** A column or placeholder without a value is null. */
  function Lookup(values: map<string, PropertyValue>, name: string): PropertyValue {
    if name in values then values[name] else Null
  }

  function LinksOf(r: Record, relation: string): set<string> {
    if relation in r.links then r.links[relation] else {}
  }

  function Eval(sql: Sql, r: Record, params: Params): Truth {
    match sql
    case IsNull(c) => TruthOf(Lookup(r.columns, c).Null?)
    case NotNull(c) => TruthOf(!Lookup(r.columns, c).Null?)
    case Compare(c, op, p) => CompareValues(op, Lookup(r.columns, c), Lookup(params, p))
    case ZeroEqualsOne => False
    case And(a, b) => Both(Eval(a, r, params), Eval(b, r, params))
    case Or(a, b) => Either(Eval(a, r, params), Eval(b, r, params))
    case Linked(relation, p) => TruthOf(Lookup(params, p).Text? && Lookup(params, p).text in LinksOf(r, relation))
    case NotLinked(relation, p) => TruthOf(!(Lookup(params, p).Text? && Lookup(params, p).text in LinksOf(r, relation)))
  }

  // ----- compilation -----

  /** Filters to be joined by AND, and the values of their placeholders. */
  datatype Compiled = Compiled(filters: seq<Sql>, params: Params)

  function Plus(a: Compiled, b: Compiled): Compiled {
    Compiled(a.filters + b.filters, a.params + b.params)
  }

  function OpOf(b: Bound): Op {
    match b
    case Gt => Greater
    case Gte => GreaterEqual
    case Lt => Smaller
    case Lte => SmallerEqual
  }

  /** The j-th bound of the i-th condition, on a primary key. */
  function PrimaryBound(name: string, i: nat, j: nat, b: Bound, v: PropertyValue): Option<Compiled> {
    if !v.Text? then None
    else Some(Compiled([Compare(name, OpOf(b), Q(i, j))], map[Q(i, j) := v]))
  }

  /** The j-th bound of the i-th condition, on a primitive property. */
  function PrimitiveBound(name: string, i: nat, j: nat, b: Bound, v: PropertyValue): Option<Compiled> {
    if v.Null? then
      match b
      case Gt => Some(Compiled([NotNull(name)], map[]))
      case Gte => Some(Compiled([], map[]))
      case Lt => Some(Compiled([ZeroEqualsOne], map[]))
      case Lte => Some(Compiled([], map[]))
    else
      var compare := Compare(name, OpOf(b), Q(i, j));
      Some(Compiled([if b.Gt? || b.Gte? then And(NotNull(name), compare) else Or(IsNull(name), compare)],
                    map[Q(i, j) := v]))
  }

  function BoundSql(p: Property, i: nat, j: nat, b: Bound, v: PropertyValue): Option<Compiled>
    requires p.Primary? || p.Primitive?
  {
    if p.Primary? then PrimaryBound(p.name, i, j, b, v) else PrimitiveBound(p.name, i, j, b, v)
  }

  /** The first n bounds of a range. */
  function RangeSql(p: Property, i: nat, bounds: seq<(Bound, PropertyValue)>, n: nat): Option<Compiled>
    requires (p.Primary? || p.Primitive?) && n <= |bounds|
  {
    if n == 0 then Some(Compiled([], map[]))
    else
      var front, last := RangeSql(p, i, bounds, n - 1), BoundSql(p, i, n - 1, bounds[n - 1].0, bounds[n - 1].1);
      if front.None? || last.None? then None else Some(Plus(front.value, last.value))
  }

  /** The tests of the first n targets of a relation condition. */
  function LinkTests(name: string, i: nat, targets: seq<string>, negated: bool, n: nat): (tests: seq<Sql>)
    requires n <= |targets|
    ensures |tests| == n
  {
    seq(n, j requires 0 <= j < n => if negated then NotLinked(name, Q(i, j)) else Linked(name, Q(i, j)))
  }

  function LinkParams(i: nat, targets: seq<string>, n: nat): Params
    requires n <= |targets|
  {
    if n == 0 then map[] else LinkParams(i, targets, n - 1)[Q(i, n - 1) := Text(targets[n - 1])]
  }

  /** `targets.join(" AND ")`. */
  function JoinAnd(tests: seq<Sql>): Sql
    requires tests != []
  {
    if |tests| == 1 then tests[0] else And(JoinAnd(tests[..|tests| - 1]), tests[|tests| - 1])
  }

  function LinkSql(name: string, i: nat, targets: seq<string>, negated: bool): Compiled {
    Compiled(if targets == [] then [] else [JoinAnd(LinkTests(name, i, targets, negated, |targets|))],
             LinkParams(i, targets, |targets|))
  }

  /** The i-th condition of a clause; None where the compiler throws. */
  function ConditionSql(p: Property, i: nat, e: Expression): Option<Compiled> {
    if p.Primitive? && p.kind.Json? then None
    else
      match e
      case Literal(v) =>
        if p.Relation? then (if v.Texts? then Some(LinkSql(p.name, i, v.texts, false)) else None)
        else if v.Null? && !p.Primary? then Some(Compiled([IsNull(p.name)], map[]))
        else if v.Texts? || (!p.Primitive? && !v.Text?) then None
        else Some(Compiled([Compare(p.name, Equal, P(i))], map[P(i) := v]))
      case Neq(v) =>
        if p.Relation? then (if v.Texts? then Some(LinkSql(p.name, i, v.texts, true)) else None)
        else if v.Null? && !p.Primary? then Some(Compiled([NotNull(p.name)], map[]))
        else if v.Texts? || (!p.Primitive? && !v.Text?) then None
        else
          var differs := Compare(p.name, NotEqual, P(i));
          Some(Compiled([if p.Primitive? && p.optional then Or(IsNull(p.name), differs) else differs], map[P(i) := v]))
      case Range(bounds) =>
        if p.Primary? || p.Primitive? then RangeSql(p, i, bounds, |bounds|) else None
  }

  /** The first n conditions of a clause. */
  function ClauseSql(properties: Properties, clause: Clause, n: nat): Option<Compiled>
    requires n <= |clause|
  {
    if n == 0 then Some(Compiled([], map[]))
    else if clause[n - 1].0 !in properties then None
    else
      var front, last := ClauseSql(properties, clause, n - 1),
                         ConditionSql(properties[clause[n - 1].0], n - 1, clause[n - 1].1);
      if front.None? || last.None? then None else Some(Plus(front.value, last.value))
  }

  /** `getWhereExpression`: numbers the conditions and their parts, and assigns the values
      of the placeholders into one table. */
  method GetWhereExpression(properties: Properties, clause: Clause) returns (r: Option<Compiled>)
    ensures r == ClauseSql(properties, clause, |clause|)
  {
    var filters, params := [], map[];
    for i := 0 to |clause|
      invariant ClauseSql(properties, clause, i) == Some(Compiled(filters, params))
    {
      var (name, expression) := clause[i];
      if name !in properties {
        FailsFrom(properties, clause, i + 1, |clause|);
        return None;
      }
      var more := ConditionSql(properties[name], i, expression);
      if more.None? {
        FailsFrom(properties, clause, i + 1, |clause|);
        return None;
      }
      filters, params := filters + more.value.filters, params + more.value.params;
    }
    r := Some(Compiled(filters, params));
  }

  lemma {:induction false} FailsFrom(properties: Properties, clause: Clause, i: nat, n: nat)
    requires i <= n <= |clause| && ClauseSql(properties, clause, i).None?
    ensures ClauseSql(properties, clause, n).None?
  {
    if i < n {
      FailsFrom(properties, clause, i, n - 1);
    }
  }
}
