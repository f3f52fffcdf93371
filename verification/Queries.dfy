// Query semantics (internal/query/query.go): filters, effective ordering,
// cursors. This is the reference every execution path must agree with.
module Queries {
  import opened Bytes
  import opened Numbers
  import opened Values
  import opened SortKeys
  import opened FieldPaths

  // "__name__"
  const NAME: Str := [0x5F, 0x5F, 0x6E, 0x61, 0x6D, 0x65, 0x5F, 0x5F]

  datatype Op = Lt | Le | Gt | Ge | Eq | Ne | In | NotIn | ArrayContains | ArrayContainsAny | NoOp

  datatype UnaryOp = IsNull | IsNotNull | IsNaNOp | IsNotNaN

  datatype Junction = And | Or | Unspecified

  datatype Filter =
    | Composite(junction: Junction, filters: seq<Filter>)
    | FieldFilter(path: Str, op: Op, operand: Value)
    | Unary(path: Str, uop: UnaryOp)
    | NoFilter

  datatype OrderSpec = OrderSpec(path: Path, isName: bool, desc: bool)

  datatype Cursor = Cursor(values: seq<Value>, before: bool)

  datatype Query = Query(
    parent: Str, collectionId: Str, allDescendants: bool,
    where_: Option<Filter>, order: seq<OrderSpec>,
    start: Option<Cursor>, end: Option<Cursor>,
    offset: Int32, limit: Int32)

  // A row of the documents table.
  datatype Doc = Doc(name: Str, parentPath: Str, collectionId: Str, fields: Fields)

  // ------------------------------------------------------------------ filters

  function ListOf(v: Value): seq<Value> {
    if v.Array? then v.elems else []
  }

  predicate ArrayHas(field: Value, el: Value) {
    && field.Array? && !IsNaNValue(el)
    && exists i :: 0 <= i < |field.elems| && !IsNaNValue(field.elems[i]) && Compare(field.elems[i], el) == 0
  }

  predicate Searchable(v: Value) { !IsNullValue(v) && !IsNaNValue(v) }

  // Null and NaN in the list match nothing.
  predicate IsIn(v: Value, list: seq<Value>) {
    exists i :: 0 <= i < |list| && Searchable(list[i]) && !IsNaNValue(v) && Compare(v, list[i]) == 0
  }

  // Null in the list matches nothing, NaN excludes nothing.
  predicate IsNotIn(v: Value, list: seq<Value>) {
    !IsNullValue(v) && forall i :: 0 <= i < |list| ==> !IsNullValue(list[i]) && (IsNaNValue(list[i]) || Compare(v, list[i]) != 0)
  }

  predicate HasAny(v: Value, list: seq<Value>) {
    exists i :: 0 <= i < |list| && Searchable(list[i]) && ArrayHas(v, list[i])
  }

  predicate EvalOp(v: Value, op: Op, operand: Value) {
    match op
    case Eq => Compare(v, operand) == 0
    case Ne => !IsNullValue(v) && Compare(v, operand) != 0
    case Lt => SameRange(v, operand) && Compare(v, operand) < 0
    case Le => SameRange(v, operand) && Compare(v, operand) <= 0
    case Gt => SameRange(v, operand) && Compare(v, operand) > 0
    case Ge => SameRange(v, operand) && Compare(v, operand) >= 0
    case In => IsIn(v, ListOf(operand))
    case NotIn => IsNotIn(v, ListOf(operand))
    case ArrayContains => Searchable(operand) && ArrayHas(v, operand)
    case ArrayContainsAny => HasAny(v, ListOf(operand))
    case NoOp => false
  }

  // Range comparisons apply only within the operand's type, and never to NaN.
  predicate SameRange(v: Value, operand: Value) {
    TypeOrder(v) == TypeOrder(operand) && !IsNaNValue(v) && !IsNaNValue(operand)
  }

  predicate EvalUnary(v: Value, op: UnaryOp) {
    match op
    case IsNull => IsNullValue(v)
    case IsNotNull => !IsNullValue(v)
    case IsNaNOp => IsNaNValue(v)
    case IsNotNaN => !IsNaNValue(v) && !IsNullValue(v)
  }

  // A field of a document: nothing when the path does not parse or is missing.
  function FieldAt(fields: Fields, path: Str): Option<Value> {
    if Parse(path).None? then None else GetField(fields, Parse(path).value)
  }

  predicate EvalField(path: Str, op: Op, operand: Value, name: Str, fields: Fields) {
    if path == NAME then EvalOp(Reference(name), op, operand)
    else FieldAt(fields, path).Some? && EvalOp(FieldAt(fields, path).value, op, operand)
  }

  predicate EvalFilter(f: Filter, name: Str, fields: Fields)
    decreases f
  {
    match f
    case Composite(j, fs) =>
      if j == Or then exists i :: 0 <= i < |fs| && EvalFilter(fs[i], name, fields)
      else forall i :: 0 <= i < |fs| ==> EvalFilter(fs[i], name, fields)
    case FieldFilter(p, op, operand) => EvalField(p, op, operand, name, fields)
    case Unary(p, op) => FieldAt(fields, p).Some? && EvalUnary(FieldAt(fields, p).value, op)
    case NoFilter => false
  }

  predicate Matches(q: Query, name: Str, fields: Fields) {
    && (forall i :: 0 <= i < |q.order| ==> q.order[i].isName || GetField(fields, q.order[i].path).Some?)
    && (q.where_.Some? ==> EvalFilter(q.where_.value, name, fields))
  }

  // ---------------------------------------------------- the source's filter loops

  // evalFilter: each composite walks its members and leaves at the first that decides.
  method Eval(f: Filter, name: Str, fields: Fields) returns (r: bool)
    ensures r == EvalFilter(f, name, fields)
    decreases f
  {
    match f
    case Composite(j, fs) =>
      var isOr := j == Or;
      for i := 0 to |fs|
        invariant forall k :: 0 <= k < i ==> EvalFilter(fs[k], name, fields) == !isOr
      {
        var ok := Eval(fs[i], name, fields);
        if isOr && ok { return true; }
        if !isOr && !ok { return false; }
      }
      r := !isOr;
    case FieldFilter(p, op, operand) => r := EvalFieldFilter(p, op, operand, name, fields);
    case Unary(p, op) => r := EvalUnaryFilter(p, op, fields);
    case NoFilter => r := false;
  }

  method EvalUnaryFilter(path: Str, op: UnaryOp, fields: Fields) returns (r: bool)
    ensures r == (FieldAt(fields, path).Some? && EvalUnary(FieldAt(fields, path).value, op))
  {
    hide TypeOrder;
    var p := ParseFieldPath(path);
    if p.None? { return false; }
    var v := GetField(fields, p.value);
    if v.None? { return false; }
    match op
    case IsNull => return IsNullValue(v.value);
    case IsNotNull => return !IsNullValue(v.value);
    case IsNaNOp => return IsNaNValue(v.value);
    case IsNotNaN => return !IsNaNValue(v.value) && !IsNullValue(v.value);
  }

  // evalFieldFilter: the name as a reference, or the field.
  method EvalFieldFilter(path: Str, op: Op, operand: Value, name: Str, fields: Fields) returns (r: bool)
    ensures r == EvalField(path, op, operand, name, fields)
  {
    hide EvalOp;
    if path == NAME {
      r := EvalValue(Reference(name), op, operand);
      return;
    }
    var p := ParseFieldPath(path);
    if p.None? { return false; }
    var v := GetField(fields, p.value);
    if v.None? { return false; }
    r := EvalValue(v.value, op, operand);
  }

  // Its switch; lists are walked.
  method EvalValue(v: Value, op: Op, operand: Value) returns (r: bool)
    ensures r == EvalOp(v, op, operand)
  {
    hide EvalOp, Compare, TypeOrder, ArrayHas, ListOf, IsIn, IsNotIn, HasAny, SameRange, Searchable;
    OpMeans(v, operand);
    match op
    case Eq => r := Compare(v, operand) == 0;
    case Ne => r := if IsNullValue(v) then false else Compare(v, operand) != 0;
    case In => r := EvalIn(v, operand);
    case NotIn => r := EvalNotIn(v, operand);
    case ArrayContains =>
      if IsNullValue(operand) || IsNaNValue(operand) { return false; }
      r := HasElement(v, operand);
    case ArrayContainsAny => r := EvalContainsAny(v, operand);
    case NoOp => r := false;
    case _ => r := EvalRange(v, op, operand);
  }

  lemma OpMeans(v: Value, operand: Value)
    ensures EvalOp(v, Eq, operand) <==> Compare(v, operand) == 0
    ensures EvalOp(v, Ne, operand) <==> !IsNullValue(v) && Compare(v, operand) != 0
    ensures EvalOp(v, In, operand) <==> IsIn(v, ListOf(operand))
    ensures EvalOp(v, NotIn, operand) <==> IsNotIn(v, ListOf(operand))
    ensures EvalOp(v, ArrayContains, operand) <==> !IsNullValue(operand) && !IsNaNValue(operand) && ArrayHas(v, operand)
    ensures EvalOp(v, ArrayContainsAny, operand) <==> HasAny(v, ListOf(operand))
    ensures !EvalOp(v, NoOp, operand)
  {
    hide EvalOp;
    EqualMeans(v, operand);
    ListMeans(v, operand);
    ContainsMeans(v, operand);
  }

  lemma EqualMeans(v: Value, operand: Value)
    ensures EvalOp(v, Eq, operand) <==> Compare(v, operand) == 0
    ensures EvalOp(v, Ne, operand) <==> !IsNullValue(v) && Compare(v, operand) != 0
    ensures !EvalOp(v, NoOp, operand)
  {
    hide Compare, TypeOrder, ArrayHas, ListOf, IsIn, IsNotIn, HasAny, SameRange, Searchable;
  }

  lemma ListMeans(v: Value, operand: Value)
    ensures EvalOp(v, In, operand) <==> IsIn(v, ListOf(operand))
    ensures EvalOp(v, NotIn, operand) <==> IsNotIn(v, ListOf(operand))
  {
    hide Compare, TypeOrder, ArrayHas, ListOf, IsIn, IsNotIn, HasAny, SameRange, Searchable;
  }

  lemma ContainsMeans(v: Value, operand: Value)
    ensures EvalOp(v, ArrayContains, operand) <==> !IsNullValue(operand) && !IsNaNValue(operand) && ArrayHas(v, operand)
    ensures EvalOp(v, ArrayContainsAny, operand) <==> HasAny(v, ListOf(operand))
  {
    hide Compare, TypeOrder, ArrayHas, ListOf, IsIn, IsNotIn, HasAny, SameRange;
  }

  lemma RangeMeans(v: Value, operand: Value)
    ensures EvalOp(v, Lt, operand) <==> SameRange(v, operand) && Compare(v, operand) < 0
    ensures EvalOp(v, Le, operand) <==> SameRange(v, operand) && Compare(v, operand) <= 0
    ensures EvalOp(v, Gt, operand) <==> SameRange(v, operand) && Compare(v, operand) > 0
    ensures EvalOp(v, Ge, operand) <==> SameRange(v, operand) && Compare(v, operand) >= 0
  {
    hide Compare, TypeOrder, ArrayHas, ListOf, IsIn, IsNotIn, HasAny, SameRange, Searchable;
  }

  method EvalRange(v: Value, op: Op, operand: Value) returns (r: bool)
    requires op in {Lt, Le, Gt, Ge}
    ensures r == EvalOp(v, op, operand)
  {
    hide EvalOp, Compare, TypeOrder;
    RangeMeans(v, operand);
    if TypeOrder(v) != TypeOrder(operand) || IsNaNValue(v) || IsNaNValue(operand) { return false; }
    var c := Compare(v, operand);
    match op
    case Lt => return c < 0;
    case Le => return c <= 0;
    case Gt => return c > 0;
    case _ => return c >= 0;
  }

  method EvalIn(v: Value, operand: Value) returns (r: bool)
    ensures r == IsIn(v, ListOf(operand))
  {
    hide Compare, TypeOrder;
    var list := ListOf(operand);
    for i := 0 to |list|
      invariant !exists k :: 0 <= k < i && Searchable(list[k]) && !IsNaNValue(v) && Compare(v, list[k]) == 0
    {
      if IsNullValue(list[i]) { continue; }
      if !IsNaNValue(list[i]) && !IsNaNValue(v) && Compare(v, list[i]) == 0 { return true; }
    }
    return false;
  }

  method EvalNotIn(v: Value, operand: Value) returns (r: bool)
    ensures r == IsNotIn(v, ListOf(operand))
  {
    hide Compare, TypeOrder;
    if IsNullValue(v) { return false; }
    var list := ListOf(operand);
    for i := 0 to |list|
      invariant forall k :: 0 <= k < i ==> !IsNullValue(list[k]) && (IsNaNValue(list[k]) || Compare(v, list[k]) != 0)
    {
      if IsNullValue(list[i]) { return false; }
      if IsNaNValue(list[i]) { continue; }
      if Compare(v, list[i]) == 0 { return false; }
    }
    return true;
  }

  method EvalContainsAny(v: Value, operand: Value) returns (r: bool)
    ensures r == HasAny(v, ListOf(operand))
  {
    hide Compare, TypeOrder, ArrayHas;
    var list := ListOf(operand);
    for i := 0 to |list|
      invariant !exists k :: 0 <= k < i && Searchable(list[k]) && ArrayHas(v, list[k])
    {
      if IsNullValue(list[i]) || IsNaNValue(list[i]) { continue; }
      var has := HasElement(v, list[i]);
      if has { return true; }
    }
    return false;
  }

  // arrayContains.
  method HasElement(field: Value, el: Value) returns (r: bool)
    ensures r == ArrayHas(field, el)
  {
    hide Compare, TypeOrder;
    if !field.Array? || IsNaNValue(el) { return false; }
    for i := 0 to |field.elems|
      invariant !exists k :: 0 <= k < i && !IsNaNValue(field.elems[k]) && Compare(field.elems[k], el) == 0
    {
      if !IsNaNValue(field.elems[i]) && Compare(field.elems[i], el) == 0 { return true; }
    }
    return false;
  }

  // ----------------------------------------------------------------- ordering

  // One term of a document's ordering tuple.
  function Term(spec: OrderSpec, name: Str, fields: Fields): Value {
    if spec.isName then Reference(name)
    else if GetField(fields, spec.path).Some? then GetField(fields, spec.path).value else Null
  }

  function OrderKey(order: seq<OrderSpec>, name: Str, fields: Fields): (key: seq<Value>)
    ensures |key| == |order|
    ensures forall i :: 0 <= i < |order| ==> key[i] == Term(order[i], name, fields)
  {
    seq(|order|, i requires 0 <= i < |order| => Term(order[i], name, fields))
  }

  function DirCompare(desc: bool, a: Value, b: Value): int {
    if desc then -Compare(a, b) else Compare(a, b)
  }

  // The first n terms of two tuples, compared under the query's directions.
  function CompareTerms(order: seq<OrderSpec>, a: seq<Value>, b: seq<Value>, n: nat): int
    requires n <= |order| && n <= |a| && n <= |b|
    decreases n
  {
    if n == 0 then 0
    else Then(CompareTerms(order, a, b, n - 1), DirCompare(order[n - 1].desc, a[n - 1], b[n - 1]))
  }

  function CompareKeys(order: seq<OrderSpec>, a: seq<Value>, b: seq<Value>): int
    requires |a| == |b| == |order|
  {
    CompareTerms(order, a, b, |order|)
  }

  // The source's loop with early return.
  method CompareKeysLoop(order: seq<OrderSpec>, a: seq<Value>, b: seq<Value>) returns (r: int)
    requires |a| == |b| == |order|
    ensures r == CompareKeys(order, a, b)
  {
    for i := 0 to |order|
      invariant CompareTerms(order, a, b, i) == 0
    {
      var c := Compare(a[i], b[i]);
      if c != 0 {
        r := if order[i].desc then -c else c;
        DecidedEarly(order, a, b, i + 1, |order|);
        return;
      }
    }
    r := 0;
  }

  lemma {:induction false} DecidedEarly(order: seq<OrderSpec>, a: seq<Value>, b: seq<Value>, n: nat, m: nat)
    requires n <= m <= |order| && m <= |a| && m <= |b| && CompareTerms(order, a, b, n) != 0
    ensures CompareTerms(order, a, b, m) == CompareTerms(order, a, b, n)
    decreases m
  {
    if n < m {
      DecidedEarly(order, a, b, n, m - 1);
      assert CompareTerms(order, a, b, m) == CompareTerms(order, a, b, m - 1);
    }
  }

  function Min(a: nat, b: nat): nat { if a < b then a else b }

  // Values beyond the ordering are ignored.
  function CompareToCursor(order: seq<OrderSpec>, key: seq<Value>, cur: Cursor): int
    requires |key| == |order|
  {
    CompareTerms(order, key, cur.values, Min(|cur.values|, |order|))
  }

  predicate AfterStart(c: int, cur: Cursor) { c > 0 || (c == 0 && cur.before) }

  predicate BeforeEnd(c: int, cur: Cursor) { c < 0 || (c == 0 && !cur.before) }

  predicate InCursorRange(q: Query, key: seq<Value>)
    requires |key| == |q.order|
  {
    && (q.start.Some? ==> AfterStart(CompareToCursor(q.order, key, q.start.value), q.start.value))
    && (q.end.Some? ==> BeforeEnd(CompareToCursor(q.order, key, q.end.value), q.end.value))
  }

  // ------------------------------------------------------- effective ordering

  datatype OrderBy = OrderBy(field: Str, desc: bool)

  // The raw path of the first range or not-equal filter, or the empty string.
  function FirstInequality(f: Filter): Str
    decreases f
  {
    match f
    case Composite(_, fs) => FirstInequalityIn(fs)
    case FieldFilter(p, op, _) => if op in {Lt, Le, Gt, Ge, Ne, NotIn} then p else []
    case Unary(p, op) => if op in {IsNotNaN, IsNotNull} then p else []
    case NoFilter => []
  }

  function FirstInequalityIn(fs: seq<Filter>): Str
    decreases fs
  {
    if fs == [] then []
    else var p := FirstInequality(fs[0]); if p != [] then p else FirstInequalityIn(fs[1..])
  }

  predicate IsTermOf(ob: OrderBy, spec: OrderSpec) {
    && spec.desc == ob.desc && spec.isName == (ob.field == NAME)
    && (!spec.isName ==> Parse(ob.field) == Some(spec.path))
  }

  predicate DistinctFields(orderBy: seq<OrderBy>) {
    forall i, j :: 0 <= i < j < |orderBy| ==> orderBy[i].field != orderBy[j].field
  }

  predicate HasName(order: seq<OrderSpec>) {
    exists i :: 0 <= i < |order| && order[i].isName
  }

  predicate AllParse(orderBy: seq<OrderBy>) {
    forall i :: 0 <= i < |orderBy| ==> orderBy[i].field == NAME || Parse(orderBy[i].field).Some?
  }

  predicate NamesName(orderBy: seq<OrderBy>) {
    exists i :: 0 <= i < |orderBy| && orderBy[i].field == NAME
  }

  // The implicit ordering field of a query without explicit terms, empty when none.
  function ImplicitField(orderBy: seq<OrderBy>, where_: Option<Filter>): Str {
    if orderBy == [] && where_.Some? && FirstInequality(where_.value) != NAME then FirstInequality(where_.value) else []
  }

  // One for an implicit field, one for the name when no explicit term is.
  function AddedTerms(orderBy: seq<OrderBy>, where_: Option<Filter>): nat {
    (if ImplicitField(orderBy, where_) != [] then 1 else 0) + (if NamesName(orderBy) then 0 else 1)
  }

  // The explicit terms; None is InvalidArgument, for a repeated or bad field.
  method ExplicitOrder(orderBy: seq<OrderBy>) returns (r: Option<seq<OrderSpec>>)
    ensures r.Some? <==> DistinctFields(orderBy) && AllParse(orderBy)
    ensures r.Some? ==> DistinctFields(orderBy) && |r.value| == |orderBy|
    ensures r.Some? ==> forall i :: 0 <= i < |orderBy| ==> IsTermOf(orderBy[i], r.value[i])
  {
    var order: seq<OrderSpec> := [];
    var seen: set<Str> := {};
    for k := 0 to |orderBy|
      invariant |order| == k && DistinctFields(orderBy[..k])
      invariant forall x :: x in seen <==> exists i :: 0 <= i < k && orderBy[i].field == x
      invariant AllParse(orderBy[..k])
      invariant forall i :: 0 <= i < k ==> IsTermOf(orderBy[i], order[i])
    {
      var ob := orderBy[k];
      if ob.field in seen { return None; }
      seen := seen + {ob.field};
      if ob.field == NAME {
        order := order + [OrderSpec([], true, ob.desc)];
        continue;
      }
      var p := ParseFieldPath(ob.field);
      if p.None? { return None; }
      order := order + [OrderSpec(p.value, false, ob.desc)];
    }
    assert orderBy[..|orderBy|] == orderBy;
    return Some(order);
  }

  // q.Order: the explicit terms, else an implicit inequality term, and always a
  // name term, which takes the last direction when it is implicit.
  method EffectiveOrder(orderBy: seq<OrderBy>, where_: Option<Filter>) returns (r: Option<seq<OrderSpec>>)
    ensures r.Some? <==>
      && DistinctFields(orderBy) && AllParse(orderBy)
      && (ImplicitField(orderBy, where_) != [] ==> Parse(ImplicitField(orderBy, where_)).Some?)
    ensures r.Some? ==> HasName(r.value) && |r.value| == |orderBy| + AddedTerms(orderBy, where_)
    ensures r.Some? ==> forall i :: 0 <= i < |orderBy| ==> IsTermOf(orderBy[i], r.value[i])
    ensures r.Some? && |r.value| > |orderBy| ==>
      var n := |r.value| - 1;
      r.value[n].isName && (if n == 0 then !r.value[n].desc else r.value[n].desc == r.value[n - 1].desc)
    ensures r.Some? && orderBy == [] && where_.Some? ==>
      var p := FirstInequality(where_.value);
      if p == [] || p == NAME then |r.value| == 1
      else |r.value| == 2 && !r.value[0].isName && !r.value[0].desc && Parse(p) == Some(r.value[0].path)
  {
    var explicit := ExplicitOrder(orderBy);
    if explicit.None? { return None; }
    var order := explicit.value;
    if order == [] && where_.Some? {
      var ineq := FirstInequality(where_.value);
      if ineq != [] && ineq != NAME {
        var p := ParseFieldPath(ineq);
        if p.None? { return None; }
        order := [OrderSpec(p.value, false, false)];
      }
    }
    assert HasName(order) <==> NamesName(orderBy) by {
      if i :| 0 <= i < |order| && order[i].isName { assert orderBy != [] ==> orderBy[i].field == NAME; }
      if i :| 0 <= i < |orderBy| && orderBy[i].field == NAME { assert order[i].isName; }
    }
    if !HasName(order) {
      var lastDesc := order != [] && order[|order| - 1].desc;
      order := order + [OrderSpec([], true, lastDesc)];
      assert order[|order| - 1].isName;
    }
    return Some(order);
  }
}
