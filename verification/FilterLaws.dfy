// What filters mean, operator by operator, without the evaluator: each law speaks of
// the field's value, of comparisons, and of other filters (evalFilter in
// internal/query/query.go).
module FilterLaws {
  import opened Bytes
  import opened Numbers
  import opened Values
  import opened Orders
  import opened FieldPaths
  import opened Queries

  // The document satisfies one filter on the field.
  predicate Holds(path: Str, op: Op, operand: Value, name: Str, fields: Fields) {
    EvalFilter(FieldFilter(path, op, operand), name, fields)
  }

  predicate HoldsUnary(path: Str, op: UnaryOp, fields: Fields) {
    EvalFilter(Unary(path, op), [], fields)
  }

  // The value a filter looks at: the name as a reference, or the field.
  function Looked(path: Str, name: Str, fields: Fields): Option<Value> {
    if path == NAME then Some(Reference(name)) else FieldAt(fields, path)
  }

  lemma HoldsIs(path: Str, op: Op, operand: Value, name: Str, fields: Fields)
    ensures Holds(path, op, operand, name, fields) <==>
      Looked(path, name, fields).Some? && EvalOp(Looked(path, name, fields).value, op, operand)
  {
    hide EvalOp;
  }

  predicate NaNDouble(v: Value) { v.DoubleV? && IsNaN(v.d) }

  lemma NullIs(v: Value)
    ensures (IsNullValue(v) <==> v.Null?) && (IsNaNValue(v) <==> NaNDouble(v))
  {}

  // ------------------------------------------------------------------ equality

  // Equality is comparing equal; a missing field equals nothing.
  lemma EqLaw(path: Str, operand: Value, name: Str, fields: Fields)
    ensures var v := Looked(path, name, fields);
      Holds(path, Eq, operand, name, fields) <==> v.Some? && Compare(v.value, operand) == 0
  {
    hide Compare, Holds, Looked;
    HoldsIs(path, Eq, operand, name, fields);
  }

  // Inequality holds of a present field that is not null exactly where equality fails.
  lemma NeLaw(path: Str, operand: Value, name: Str, fields: Fields)
    ensures var v := Looked(path, name, fields);
      Holds(path, Ne, operand, name, fields) <==>
        v.Some? && !v.value.Null? && !Holds(path, Eq, operand, name, fields)
  {
    hide Compare, Holds, Looked, IsNullValue;
    HoldsIs(path, Ne, operand, name, fields);
    EqLaw(path, operand, name, fields);
    if Looked(path, name, fields).Some? { NullIs(Looked(path, name, fields).value); }
  }

  // ------------------------------------------------------------------- ranges

  // Values of one kind, neither of them NaN.
  predicate SameKind(v: Value, w: Value) {
    match v
    case Integer(_) => w.Integer? || (w.DoubleV? && !IsNaN(w.d))
    case DoubleV(d) => !IsNaN(d) && (w.Integer? || (w.DoubleV? && !IsNaN(w.d)))
    case Map(m) => w.Map? && (IsVector(m) <==> IsVector(w.fields))
    case Null => w.Null?
    case Bool(_) => w.Bool?
    case Timestamp(_, _) => w.Timestamp?
    case String(_) => w.String?
    case BytesV(_) => w.BytesV?
    case Reference(_) => w.Reference?
    case GeoPoint(_, _) => w.GeoPoint?
    case Array(_) => w.Array?
    case Unknown => w.Unknown?
  }

  lemma KindIs(v: Value, w: Value)
    ensures SameKind(v, w) <==> SameRange(v, w)
  {}

  // The four range operators are the strict and the weak sides of the order, among
  // values of the operand's kind.
  lemma RangeLaw(path: Str, operand: Value, name: Str, fields: Fields)
    ensures var v := Looked(path, name, fields);
      && (Holds(path, Lt, operand, name, fields) <==> v.Some? && SameKind(v.value, operand) && Compare(v.value, operand) == -1)
      && (Holds(path, Gt, operand, name, fields) <==> v.Some? && SameKind(v.value, operand) && Compare(v.value, operand) == 1)
      && (Holds(path, Le, operand, name, fields) <==>
            Holds(path, Lt, operand, name, fields) || (v.Some? && SameKind(v.value, operand) && Holds(path, Eq, operand, name, fields)))
      && (Holds(path, Ge, operand, name, fields) <==>
            Holds(path, Gt, operand, name, fields) || (v.Some? && SameKind(v.value, operand) && Holds(path, Eq, operand, name, fields)))
  {
    hide Compare, SameRange, SameKind, Holds, Looked, EvalOp;
    var v := Looked(path, name, fields);
    HoldsIs(path, Lt, operand, name, fields);
    HoldsIs(path, Le, operand, name, fields);
    HoldsIs(path, Gt, operand, name, fields);
    HoldsIs(path, Ge, operand, name, fields);
    EqLaw(path, operand, name, fields);
    if v.Some? {
      KindIs(v.value, operand);
      RangeOps(v.value, operand);
    }
  }

  lemma RangeOps(v: Value, w: Value)
    ensures EvalOp(v, Lt, w) <==> SameRange(v, w) && Compare(v, w) == -1
    ensures EvalOp(v, Gt, w) <==> SameRange(v, w) && Compare(v, w) == 1
    ensures EvalOp(v, Le, w) <==> SameRange(v, w) && Compare(v, w) in {-1, 0}
    ensures EvalOp(v, Ge, w) <==> SameRange(v, w) && Compare(v, w) in {0, 1}
  {
    hide EvalOp, Compare, SameRange;
    RangeMeans(v, w);
    Swaps(v, w);
  }

  // -------------------------------------------------------------------- lists

  // In is equality with one of the elements; null and NaN are never among them.
  lemma InLaw(path: Str, list: seq<Value>, name: Str, fields: Fields)
    ensures Holds(path, In, Array(list), name, fields) <==>
      exists i :: 0 <= i < |list| && !list[i].Null? && !NaNDouble(list[i]) && Holds(path, Eq, list[i], name, fields)
  {
    hide Compare, IsNullValue, IsNaNValue, Holds, Looked, NaNDouble, EvalOp;
    HoldsIs(path, In, Array(list), name, fields);
    var v := Looked(path, name, fields);
    if v.Some? { OpMeans(v.value, Array(list)); }
    forall i | 0 <= i < |list|
      ensures !list[i].Null? && !NaNDouble(list[i]) && Holds(path, Eq, list[i], name, fields) <==>
        v.Some? && Searchable(list[i]) && !IsNaNValue(v.value) && Compare(v.value, list[i]) == 0
    {
      NullIs(list[i]);
      EqLaw(path, list[i], name, fields);
      if v.Some? && Compare(v.value, list[i]) == 0 {
        NullIs(v.value);
        NaNApart(v.value, list[i]);
      }
    }
  }

  lemma NaNApart(v: Value, w: Value)
    requires Compare(v, w) == 0
    ensures NaNDouble(v) <==> NaNDouble(w)
  {}

  // A null in the list matches nothing; NaN is skipped; otherwise not-in is inequality
  // with every element, and of an empty list with null.
  lemma NotInLaw(path: Str, list: seq<Value>, name: Str, fields: Fields)
    ensures Holds(path, NotIn, Array(list), name, fields) <==>
      && Looked(path, name, fields).Some? && !Looked(path, name, fields).value.Null?
      && forall i :: 0 <= i < |list| ==> !list[i].Null? && (NaNDouble(list[i]) || Holds(path, Ne, list[i], name, fields))
  {
    hide Compare, IsNullValue, IsNaNValue, Holds, Looked, NaNDouble, EvalOp;
    HoldsIs(path, NotIn, Array(list), name, fields);
    var v := Looked(path, name, fields);
    if v.Some? {
      OpMeans(v.value, Array(list));
      NullIs(v.value);
      forall i | 0 <= i < |list|
        ensures (IsNullValue(list[i]) <==> list[i].Null?) && (IsNaNValue(list[i]) <==> NaNDouble(list[i]))
        ensures !v.value.Null? ==> (Holds(path, Ne, list[i], name, fields) <==> Compare(v.value, list[i]) != 0)
      {
        NullIs(list[i]);
        EqLaw(path, list[i], name, fields);
        NeLaw(path, list[i], name, fields);
      }
    }
  }

  // Where it is not null and the list has neither, not-in is the complement of in.
  lemma NotInComplement(path: Str, list: seq<Value>, name: Str, fields: Fields)
    requires forall i :: 0 <= i < |list| ==> !list[i].Null? && !NaNDouble(list[i])
    ensures Holds(path, NotIn, Array(list), name, fields) <==>
      && Looked(path, name, fields).Some? && !Looked(path, name, fields).value.Null?
      && !Holds(path, In, Array(list), name, fields)
  {
    hide Holds, Looked;
    InLaw(path, list, name, fields);
    NotInLaw(path, list, name, fields);
    forall i | 0 <= i < |list|
      ensures Holds(path, Ne, list[i], name, fields) <==>
        Looked(path, name, fields).Some? && !Looked(path, name, fields).value.Null? && !Holds(path, Eq, list[i], name, fields)
    {
      NeLaw(path, list[i], name, fields);
    }
  }

  // ------------------------------------------------------------------- arrays

  // Array-contains is equality with an element, for operands that are neither null nor
  // NaN.
  lemma ContainsLaw(path: Str, operand: Value, name: Str, fields: Fields)
    ensures var v := Looked(path, name, fields);
      Holds(path, ArrayContains, operand, name, fields) <==>
        && !operand.Null? && !NaNDouble(operand) && v.Some? && v.value.Array?
        && exists i :: 0 <= i < |v.value.elems| && Compare(v.value.elems[i], operand) == 0
  {
    hide Compare, IsNullValue, IsNaNValue, Holds, Looked, NaNDouble;
    HoldsIs(path, ArrayContains, operand, name, fields);
    NullIs(operand);
    var v := Looked(path, name, fields);
    if v.Some? && v.value.Array? {
      forall i | 0 <= i < |v.value.elems| && Compare(v.value.elems[i], operand) == 0
        ensures IsNaNValue(v.value.elems[i]) <==> IsNaNValue(operand)
      {
        NullIs(v.value.elems[i]);
        NaNApart(v.value.elems[i], operand);
      }
    }
  }

  lemma ContainsOp(v: Value, w: Value)
    ensures EvalOp(v, ArrayContains, w) <==> Searchable(w) && ArrayHas(v, w)
  {
    hide Searchable, ArrayHas;
  }

  // Array-contains-any is array-contains of one of the elements.
  lemma ContainsAnyLaw(path: Str, list: seq<Value>, name: Str, fields: Fields)
    ensures Holds(path, ArrayContainsAny, Array(list), name, fields) <==>
      exists i :: 0 <= i < |list| && Holds(path, ArrayContains, list[i], name, fields)
  {
    hide Compare, ArrayHas, Searchable, Holds, Looked, EvalOp;
    HoldsIs(path, ArrayContainsAny, Array(list), name, fields);
    if Looked(path, name, fields).Some? { OpMeans(Looked(path, name, fields).value, Array(list)); }
    forall i | 0 <= i < |list|
      ensures Holds(path, ArrayContains, list[i], name, fields) <==>
        Looked(path, name, fields).Some? && Searchable(list[i]) && ArrayHas(Looked(path, name, fields).value, list[i])
    {
      HoldsIs(path, ArrayContains, list[i], name, fields);
      if Looked(path, name, fields).Some? { ContainsOp(Looked(path, name, fields).value, list[i]); }
    }
  }

  // Operands of the list operators that are no list match as the empty list, and an
  // operator that is none matches nothing.
  lemma NoList(path: Str, op: Op, operand: Value, name: Str, fields: Fields)
    ensures !operand.Array? && op in {In, NotIn, ArrayContainsAny} ==>
      (Holds(path, op, operand, name, fields) <==> Holds(path, op, Array([]), name, fields))
    ensures !Holds(path, NoOp, operand, name, fields)
  {}

  // -------------------------------------------------------------------- unary

  // The unary filters are equality and inequality with null and with NaN, on fields;
  // IS_NOT_NAN leaves null out too.
  lemma UnaryLaw(path: Str, name: Str, fields: Fields, nan: Double)
    requires path != NAME && IsNaN(nan)
    ensures HoldsUnary(path, IsNull, fields) <==> Holds(path, Eq, Null, name, fields)
    ensures HoldsUnary(path, IsNaNOp, fields) <==> Holds(path, Eq, DoubleV(nan), name, fields)
    ensures HoldsUnary(path, IsNotNull, fields) <==> FieldAt(fields, path).Some? && !HoldsUnary(path, IsNull, fields)
    ensures HoldsUnary(path, IsNotNaN, fields) <==>
      FieldAt(fields, path).Some? && !HoldsUnary(path, IsNaNOp, fields) && !HoldsUnary(path, IsNull, fields)
    ensures HoldsUnary(path, IsNotNull, fields) <==> Holds(path, Ne, Null, name, fields)
    ensures HoldsUnary(path, IsNotNaN, fields) <==> Holds(path, Ne, DoubleV(nan), name, fields)
  {
    var v := FieldAt(fields, path);
    if v.Some? {
      AgainstNull(v.value);
      AgainstNaN(v.value, nan);
    }
  }

  lemma AgainstNull(v: Value)
    ensures Compare(v, Null) == 0 <==> v.Null?
    ensures IsNullValue(v) <==> v.Null?
  {}

  lemma AgainstNaN(v: Value, nan: Double)
    requires IsNaN(nan)
    ensures Compare(v, DoubleV(nan)) == 0 <==> NaNDouble(v)
    ensures IsNaNValue(v) <==> NaNDouble(v)
  {}

  // --------------------------------------------------------------- composites

  // The documents a filter selects.
  function Selected(f: Filter, docs: set<Doc>): set<Doc> {
    set d | d in docs && EvalFilter(f, d.name, d.fields)
  }

  // Or selects the union of what its members select, And the intersection, and so does
  // a composite without an operator.
  lemma CompositeLaw(fs: seq<Filter>, docs: set<Doc>, d: Doc)
    ensures d in Selected(Composite(Or, fs), docs) <==> exists i :: 0 <= i < |fs| && d in Selected(fs[i], docs)
    ensures d in Selected(Composite(And, fs), docs) <==> d in docs && forall i :: 0 <= i < |fs| ==> d in Selected(fs[i], docs)
    ensures d in Selected(Composite(Unspecified, fs), docs) <==> d in Selected(Composite(And, fs), docs)
    ensures Selected(NoFilter, docs) == {}
  {}

  // So one member is no composite, and two can be told apart.
  lemma PairLaw(f: Filter, g: Filter, docs: set<Doc>)
    ensures Selected(Composite(Or, [f, g]), docs) == Selected(f, docs) + Selected(g, docs)
    ensures Selected(Composite(And, [f, g]), docs) == Selected(f, docs) * Selected(g, docs)
    ensures Selected(Composite(Or, []), docs) == {} && Selected(Composite(And, []), docs) == docs
  {
    hide EvalFilter, Selected;
    forall d ensures
      && (d in Selected(Composite(Or, [f, g]), docs) <==> d in Selected(f, docs) + Selected(g, docs))
      && (d in Selected(Composite(And, [f, g]), docs) <==> d in Selected(f, docs) * Selected(g, docs))
      && d !in Selected(Composite(Or, []), docs) && (d in Selected(Composite(And, []), docs) <==> d in docs)
    {
      CompositeLaw([f, g], docs, d);
      CompositeLaw([], docs, d);
      InDocs(f, docs, d);
      assert [f, g][0] == f && [f, g][1] == g;
    }
  }

  lemma InDocs(f: Filter, docs: set<Doc>, d: Doc)
    ensures d in Selected(f, docs) ==> d in docs
  {}

  // A document without an ordering field matches no query, and one that has them all
  // matches as the filter says.
  lemma MatchLaw(q: Query, d: Doc)
    ensures Matches(q, d.name, d.fields) <==>
      && (forall o :: o in q.order && !o.isName ==> GetField(d.fields, o.path).Some?)
      && (q.where_.Some? ==> d in Selected(q.where_.value, {d}))
  {
    hide EvalFilter;
  }

  // ------------------------------------------------- the implicit ordering field

  // The filters of a tree, from left to right.
  function Leaves(f: Filter): seq<Filter>
    decreases f
  {
    if f.Composite? then LeavesOf(f.filters) else [f]
  }

  function LeavesOf(fs: seq<Filter>): seq<Filter>
    decreases fs
  {
    if fs == [] then [] else Leaves(fs[0]) + LeavesOf(fs[1..])
  }

  // The path of a filter that is no equality test: a range, an inequality, or one of
  // the two negated unary ones.
  function RangePath(f: Filter): Str {
    if f.FieldFilter? && (f.op.Lt? || f.op.Le? || f.op.Gt? || f.op.Ge? || f.op.Ne? || f.op.NotIn?) then f.path
    else if f.Unary? && (f.uop.IsNotNull? || f.uop.IsNotNaN?) then f.path
    else []
  }

  predicate FirstOf(p: Str, ls: seq<Filter>) {
    if p == [] then forall i :: 0 <= i < |ls| ==> RangePath(ls[i]) == []
    else exists i :: 0 <= i < |ls| && RangePath(ls[i]) == p && forall j :: 0 <= j < i ==> RangePath(ls[j]) == []
  }

  // The implicit ordering field is that of the first such filter of the tree.
  lemma {:induction false} FirstInequalityIs(f: Filter)
    ensures FirstOf(FirstInequality(f), Leaves(f))
    decreases f
  {
    if f.Composite? {
      FirstInequalityInIs(f.filters);
    } else {
      assert [f][0] == f;
      assert RangePath(f) == FirstInequality(f);
    }
  }

  lemma {:induction false} FirstInequalityInIs(fs: seq<Filter>)
    ensures FirstOf(FirstInequalityIn(fs), LeavesOf(fs))
    decreases fs
  {
    if fs != [] {
      FirstInequalityIs(fs[0]);
      FirstInequalityInIs(fs[1..]);
      FirstJoins(FirstInequality(fs[0]), Leaves(fs[0]), FirstInequalityIn(fs[1..]), LeavesOf(fs[1..]));
    }
  }

  lemma FirstJoins(p: Str, a: seq<Filter>, q: Str, b: seq<Filter>)
    requires FirstOf(p, a) && FirstOf(q, b)
    ensures FirstOf(if p != [] then p else q, a + b)
  {
    hide RangePath;
    if p != [] {
      var i :| 0 <= i < |a| && RangePath(a[i]) == p && forall j :: 0 <= j < i ==> RangePath(a[j]) == [];
      assert (a + b)[i] == a[i];
    } else if q != [] {
      var i :| 0 <= i < |b| && RangePath(b[i]) == q && forall j :: 0 <= j < i ==> RangePath(b[j]) == [];
      assert (a + b)[|a| + i] == b[i];
    }
  }
}
