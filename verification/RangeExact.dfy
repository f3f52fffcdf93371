// Range exactness: the documents whose key lies in a planned [lo, hi) are
// exactly the ones that meet the equality filters, the inequality and both
// cursors.
module RangeExact {
  import opened Bytes
  import opened Values
  import opened SortKeys
  import opened FieldPaths
  import opened Queries
  import opened Indexes
  import opened Plans
  import opened Spans
  import opened Layouts

  // --------------------------------------------------------------- hypotheses

  // What serving a query asks of a definition: distinct paths, the name only
  // last, no direction on an array-contains field.
  ghost predicate SoundDef(d: Def) {
    && (forall i, j :: 0 <= i < j < |d.fields| ==> d.fields[i].path != d.fields[j].path)
    && (forall i :: 0 <= i < |d.fields| - 1 ==> d.fields[i].path != NAME)
    && (forall i :: 0 <= i < |d.fields| && d.fields[i].contains ==> !d.fields[i].desc)
  }

  // ... of an ordering: a name term, and parsed paths, which are not empty.
  ghost predicate SoundOrder(order: seq<OrderSpec>) {
    HasName(order) && forall i :: 0 <= i < |order| ==> order[i].isName || order[i].path != []
  }

  // ... and of the equality values one range is planned for.
  ghost predicate SoundEq(eq: map<Str, Value>, cPath: Str) {
    NAME !in eq && forall p :: p in eq ==> WellFormed(eq[p]) && (p == cPath && p != [] ==> Searchable(eq[p]))
  }

  // The operator an equality value stands for.
  function EqOp(cPath: Str, p: Str): Op { if p == cPath && p != [] then ArrayContains else Eq }

  predicate EqAll(eq: map<Str, Value>, cPath: Str, name: Str, fields: Fields) {
    forall p :: p in eq ==> EvalField(p, EqOp(cPath, p), eq[p], name, fields)
  }

  // ---------------------------------------------------- from a match to a layout

  // One range: the definition, the equality values and the query's ordering.
  datatype Serving = Serving(d: Def, eq: map<Str, Value>, cPath: Str, order: seq<OrderSpec>)

  ghost predicate Served(s: Serving) {
    && SoundDef(s.d) && SoundOrder(s.order) && SoundEq(s.eq, s.cPath)
    && Match(s.d, s.eq, s.cPath, s.order).Some?
    && (forall i :: 0 <= i < |s.d.fields| && s.d.fields[i].contains ==> s.d.fields[i].path in s.eq)
  }

  function Matching(s: Serving): Matched
    requires Match(s.d, s.eq, s.cPath, s.order).Some?
  {
    Match(s.d, s.eq, s.cPath, s.order).value
  }

  lemma MatchFits(s: Serving)
    requires Match(s.d, s.eq, s.cPath, s.order).Some?
    ensures var fs, n := EffectiveFields(s.d), |s.eq|;
      && n + |s.order| <= |fs| && PrefixFits(fs, s.eq, s.cPath) && OrderFits(fs[n..], s.order)
      && Matching(s) == Matched(PrefixKey(s.d, EqValues(fs, s.eq)), s.order != [] && fs[n].desc != s.order[0].desc)
  {}

  function LayoutOf(s: Serving): Layout
    requires Match(s.d, s.eq, s.cPath, s.order).Some?
  {
    MatchFits(s);
    var fs, n := EffectiveFields(s.d), |s.eq|;
    Layout(fs[..n], EqValues(fs, s.eq), seq(n, i requires 0 <= i < n => EqOp(s.cPath, fs[i].path)),
           fs[n..], s.order, Matching(s).reversed)
  }

  // The name field comes last among the effective fields, and only there.
  lemma NameLast(d: Def)
    requires SoundDef(d)
    ensures var fs := EffectiveFields(d);
      && fs != [] && |d.fields| <= |fs| <= |d.fields| + 1
      && (forall i :: 0 <= i < |fs| ==> (fs[i].path == NAME <==> i == |fs| - 1))
      && (forall i :: 0 <= i < |d.fields| ==> fs[i] == d.fields[i])
      && (|d.fields| < |fs| ==> !fs[|d.fields|].contains)
      && (forall i, j :: 0 <= i < j < |fs| ==> fs[i].path != fs[j].path)
  {
    var fs := EffectiveFields(d);
    forall i, j | 0 <= i < j < |fs| ensures fs[i].path != fs[j].path {
      if j < |d.fields| { assert d.fields[i].path != d.fields[j].path; }
    }
  }

  // The ordering ends with the name, and fills the fields after the prefix.
  lemma OrderFills(s: Serving)
    requires Served(s)
    ensures |EffectiveFields(s.d)| == |s.eq| + |s.order| && s.order != []
    ensures forall i :: 0 <= i < |s.order| ==> (s.order[i].isName <==> i == |s.order| - 1)
  {
    hide Match, EffectiveFields, SoundDef, SoundEq, PrefixFits, PrefixKey, OrderFits;
    MatchFits(s);
    forall i | 0 <= i < |s.order| && s.order[i].isName ensures |s.eq| + i == |EffectiveFields(s.d)| - 1 { NameTerm(s, i); }
    NamedOrder(s.order);
    var last :| 0 <= last < |s.order| && s.order[last].isName;
    assert |s.eq| + last == |EffectiveFields(s.d)| - 1;
  }

  lemma NamedOrder(order: seq<OrderSpec>)
    requires SoundOrder(order)
    ensures exists i :: 0 <= i < |order| && order[i].isName
  {}

  // A name term lines up with the last effective field.
  lemma NameTerm(s: Serving, i: nat)
    requires SoundDef(s.d) && Match(s.d, s.eq, s.cPath, s.order).Some? && i < |s.order| && s.order[i].isName
    ensures |s.eq| + i == |EffectiveFields(s.d)| - 1
  {
    hide Match, EffectiveFields, PrefixFits, PrefixKey, SoundDef;
    MatchFits(s);
    NameLast(s.d);
    TermField(EffectiveFields(s.d), |s.eq|, s.order, i);
  }

  lemma TermField(fs: seq<Field>, n: nat, order: seq<OrderSpec>, i: nat)
    requires n + |order| <= |fs| && OrderFits(fs[n..], order) && i < |order|
    ensures fs[n + i].path == Want(order[i])
  {
    assert fs[n..][i] == fs[n + i];
  }

  lemma RestFitsAt(s: Serving, i: nat)
    requires Served(s) && i < |s.order|
    ensures |s.eq| + i < |EffectiveFields(s.d)|
    ensures RestFits(s.order[i], EffectiveFields(s.d)[|s.eq| + i], Matching(s).reversed)
  {
    hide Match, EffectiveFields, PrefixKey;
    var fs, n := EffectiveFields(s.d), |s.eq|;
    OrderFills(s);
    MatchFits(s);
    NameLast(s.d);
    assert fs[n..][i] == fs[n + i] && fs[n..][0] == fs[n];
    if fs[n + i].contains && !s.order[i].isName {
      var j := CoverIndex(s, fs[n + i].path);
      assert false;
    }
  }

  lemma EqFitsAt(s: Serving, i: nat)
    requires Served(s) && i < |s.eq|
    ensures i < |s.d.fields| && i < |EffectiveFields(s.d)| && EffectiveFields(s.d)[i] == s.d.fields[i]
    ensures s.d.fields[i].path in s.eq
    ensures EqFits(s.d.fields[i], EqOp(s.cPath, s.d.fields[i].path), s.eq[s.d.fields[i].path])
  {
    OrderFills(s);
    MatchFits(s);
    NameLast(s.d);
    var f := EffectiveFields(s.d)[i];
    assert f.path in s.eq && f.contains == (s.cPath != [] && f.path == s.cPath);
  }

  // The leading fields are exactly the equality set.
  lemma CoverIndex(s: Serving, p: Str) returns (i: nat)
    requires Served(s) && p in s.eq
    ensures i < |s.eq| <= |EffectiveFields(s.d)| && EffectiveFields(s.d)[i].path == p
  {
    var fs, n := EffectiveFields(s.d), |s.eq|;
    MatchFits(s);
    NameLast(s.d);
    DistinctCount(fs, n);
    forall x | x in Paths(fs, n) ensures x in s.eq.Keys { var j := PathIndex(fs, n, x); }
    SubsetFull(Paths(fs, n), s.eq.Keys);
    i := PathIndex(fs, n, p);
  }

  function Paths(fs: seq<Field>, n: nat): set<Str>
    requires n <= |fs|
  {
    if n == 0 then {} else Paths(fs, n - 1) + {fs[n - 1].path}
  }

  lemma {:induction false} PathIndex(fs: seq<Field>, n: nat, p: Str) returns (i: nat)
    requires n <= |fs| && p in Paths(fs, n)
    ensures i < n && fs[i].path == p
  {
    if p == fs[n - 1].path { i := n - 1; } else { i := PathIndex(fs, n - 1, p); }
  }

  lemma {:induction false} DistinctCount(fs: seq<Field>, n: nat)
    requires n <= |fs| && forall i, j :: 0 <= i < j < n ==> fs[i].path != fs[j].path
    ensures |Paths(fs, n)| == n
    decreases n
  {
    if n > 0 {
      DistinctCount(fs, n - 1);
      if fs[n - 1].path in Paths(fs, n - 1) { var j := PathIndex(fs, n - 1, fs[n - 1].path); }
    }
  }

  lemma SubsetFull<T>(a: set<T>, b: set<T>)
    requires a <= b && |a| == |b|
    ensures a == b
  {
    assert b == a + (b - a);
    assert |b| == |a| + |b - a|;
  }

  // A served match is a layout of its definition, with the planned prefix.
  lemma LaidOut(s: Serving)
    requires Served(s)
    ensures var l := LayoutOf(s);
      && Laid(l) && EffectiveFields(s.d) == l.eqs + l.rest && |l.eqs| == |s.eq| && l.order == s.order
      && Prefix(l) == Matching(s).prefix && l.reversed == Matching(s).reversed
  {
    OrderFills(s);
    PrefixLaid(s);
    LaidShape(s);
    LaidEqs(s);
    LaidRest(s);
  }

  lemma LaidShape(s: Serving)
    requires Match(s.d, s.eq, s.cPath, s.order).Some? && |EffectiveFields(s.d)| == |s.eq| + |s.order|
    ensures var l := LayoutOf(s);
      && |l.eqs| == |l.vals| == |l.ops| == |s.eq| && |l.rest| == |l.order| && l.order == s.order
      && EffectiveFields(s.d) == l.eqs + l.rest && l.reversed == Matching(s).reversed
  {
    hide Match, EqValues, EffectiveFields, EqOp, PrefixKey, PrefixFits, OrderFits;
    MatchFits(s);
    var fs, n := EffectiveFields(s.d), |s.eq|;
    assert fs == fs[..n] + fs[n..] && |fs[n..]| == |fs| - n;
    ValuesCount(fs, s.eq, s.cPath);
  }

  lemma ValuesCount(fs: seq<Field>, eq: map<Str, Value>, cPath: Str)
    requires |eq| <= |fs| && PrefixFits(fs, eq, cPath)
    ensures |EqValues(fs, eq)| == |eq|
  {}

  lemma LaidEqs(s: Serving)
    requires Served(s) && |LayoutOf(s).eqs| == |LayoutOf(s).vals| == |LayoutOf(s).ops| == |s.eq|
    ensures var l := LayoutOf(s); forall i :: 0 <= i < |l.eqs| ==> EqFits(l.eqs[i], l.ops[i], l.vals[i])
  {
    MatchFits(s);
    var l := LayoutOf(s);
    forall i | 0 <= i < |l.eqs| ensures EqFits(l.eqs[i], l.ops[i], l.vals[i]) { EqFitsAt(s, i); }
  }

  lemma LaidRest(s: Serving)
    requires Served(s) && |LayoutOf(s).rest| == |LayoutOf(s).order|
    ensures var l := LayoutOf(s); forall i :: 0 <= i < |l.order| ==> RestFits(l.order[i], l.rest[i], l.reversed)
  {
    MatchFits(s);
    var l := LayoutOf(s);
    forall i | 0 <= i < |l.order| ensures RestFits(l.order[i], l.rest[i], l.reversed) { RestFitsAt(s, i); }
  }

  lemma PrefixLaid(s: Serving)
    requires Served(s)
    ensures var l := LayoutOf(s); |l.eqs| == |l.vals| && Prefix(l) == Matching(s).prefix
  {
    MatchFits(s);
    var l := LayoutOf(s);
    if s.eq != map[] { EqFitsAt(s, |s.eq| - 1); }
    forall i | 0 <= i < |s.eq| ensures s.d.fields[i] == l.eqs[i] { EqFitsAt(s, i); }
    assert l.vals[..|l.vals|] == l.vals;
    assert PrefixComps(s.d.fields, l.vals) == PrefixComps(l.eqs, l.vals);
  }

  lemma EqHoldsIs(s: Serving, name: Str, fields: Fields)
    requires Served(s)
    ensures Laid(LayoutOf(s))
    ensures EqHolds(LayoutOf(s), name, fields) <==> EqAll(s.eq, s.cPath, name, fields)
  {
    hide Match, PrefixFits, OrderFits, EvalField, Laid, SoundDef, SoundOrder, SoundEq;
    LaidOut(s);
    MatchFits(s);
    var l := LayoutOf(s);
    if EqHolds(l, name, fields) {
      forall p | p in s.eq ensures EvalField(p, EqOp(s.cPath, p), s.eq[p], name, fields) {
        var i := CoverIndex(s, p);
        assert EvalField(l.eqs[i].path, l.ops[i], l.vals[i], name, fields);
      }
    }
  }

  // --------------------------------------------------------- what filters mean

  // The conjunction of everything collect has found.
  ghost predicate FoundHolds(c: Found, name: Str, fields: Fields) {
    && (forall p :: p in c.eq ==> EvalField(p, Eq, c.eq[p], name, fields))
    && IneqHolds(c.ineq, name, fields)
    && (c.in_.Some? ==> ListHolds(c.in_.value, name, fields))
    && (c.contains.Some? ==> EvalField(c.contains.value.path, ArrayContains, c.contains.value.value, name, fields))
  }

  predicate IneqHolds(ineq: Option<Inequality>, name: Str, fields: Fields) {
    ineq.Some? ==> EvalField(ineq.value.path, ineq.value.op, ineq.value.value, name, fields)
  }

  predicate ListHolds(in_: InList, name: Str, fields: Fields) {
    EvalField(in_.path, if in_.contains then ArrayContainsAny else In, Array(in_.values), name, fields)
  }

  // collect gathers field filters off the pseudo-field, and range operators only.
  ghost predicate FoundShape(c: Found) {
    && NAME !in c.eq
    && (c.ineq.Some? ==> c.ineq.value.path != NAME && IsRangeOp(c.ineq.value.op))
    && (c.in_.Some? ==> c.in_.value.path != NAME)
    && (c.contains.Some? ==> c.contains.value.path != NAME)
  }

  lemma CollectFieldHolds(path: Str, op: Op, operand: Value, acc: Found, name: Str, fields: Fields)
    requires FoundShape(acc) && CollectField(path, op, operand, acc).Some?
    ensures var c := CollectField(path, op, operand, acc).value;
      FoundShape(c) && (FoundHolds(c, name, fields) <==> FoundHolds(acc, name, fields) && EvalField(path, op, operand, name, fields))
  {
    hide Compare, FieldAt;
    var c := CollectField(path, op, operand, acc).value;
    if op == Eq {
      assert forall p :: p in c.eq <==> p in acc.eq || p == path;
      assert c.eq[path] == operand && forall p :: p in acc.eq ==> c.eq[p] == acc.eq[p];
    } else if op == In || op == ArrayContainsAny {
      assert operand == Array(ListOf(operand));
    }
  }

  // Collecting a filter tree loses nothing: what was found holds exactly when
  // the tree does.
  lemma {:induction false} CollectHolds(f: Filter, acc: Found, name: Str, fields: Fields)
    requires FoundShape(acc) && Collect(f, acc).Some?
    ensures var c := Collect(f, acc).value;
      FoundShape(c) && (FoundHolds(c, name, fields) <==> FoundHolds(acc, name, fields) && EvalFilter(f, name, fields))
    decreases f
  {
    match f
    case Composite(j, fs) => CollectAllHolds(fs, acc, name, fields);
    case FieldFilter(p, op, v) => CollectFieldHolds(p, op, v, acc, name, fields);
  }

  lemma {:induction false} CollectAllHolds(fs: seq<Filter>, acc: Found, name: Str, fields: Fields)
    requires FoundShape(acc) && CollectAll(fs, acc).Some?
    ensures var c := CollectAll(fs, acc).value;
      && FoundShape(c)
      && (FoundHolds(c, name, fields) <==>
            FoundHolds(acc, name, fields) && forall i :: 0 <= i < |fs| ==> EvalFilter(fs[i], name, fields))
    decreases fs
  {
    if fs != [] {
      var r := Collect(fs[0], acc).value;
      CollectHolds(fs[0], acc, name, fields);
      CollectAllHolds(fs[1..], r, name, fields);
      assert (forall i :: 0 <= i < |fs| ==> EvalFilter(fs[i], name, fields)) <==>
        EvalFilter(fs[0], name, fields) && (forall i :: 0 <= i < |fs[1..]| ==> EvalFilter(fs[1..][i], name, fields));
    }
  }

  lemma QueryHolds(q: Query, name: Str, fields: Fields)
    requires CollectQuery(q).Some?
    ensures FoundShape(CollectQuery(q).value)
    ensures Matches(q, name, fields) <==> OrderPresent(q.order, fields) && FoundHolds(CollectQuery(q).value, name, fields)
  {
    if q.where_.Some? { CollectHolds(q.where_.value, NOTHING, name, fields); }
  }

  // ------------------------------------------------------- the planner's choices

  // What the planner's answer asks of a query's operands: well-formed values, and
  // at most one of array-contains and array-contains-any.
  ghost predicate SoundFound(c: Found) {
    && (forall p :: p in c.eq ==> WellFormed(c.eq[p]))
    && (c.ineq.Some? ==> WellFormed(c.ineq.value.value))
    && (c.in_.Some? ==> forall i :: 0 <= i < |c.in_.value.values| ==> WellFormed(c.in_.value.values[i]))
    && (c.contains.Some? ==> WellFormed(c.contains.value.value))
    && !(c.contains.Some? && c.in_.Some? && c.in_.value.contains)
  }

  // The equality values of one member of the list, or of the query without one.
  function EqWith(split: Split, v: Value): map<Str, Value> {
    if split.in_.Some? then split.eq[split.in_.value.path := v] else split.eq
  }

  // v is a value the planner builds a range for; without a list there is one
  // range and v is immaterial.
  predicate Choice(split: Split, v: Value) {
    split.in_.Some? ==> Searchable(v) && v in split.in_.value.values
  }

  lemma SplitIs(q: Query)
    requires SplitFilters(q).Some?
    ensures CollectQuery(q).Some? && FoundShape(CollectQuery(q).value)
    ensures var c, s := CollectQuery(q).value, SplitFilters(q).value;
      && s.ineq == c.ineq && s.in_ == c.in_
      && s.eq == (if c.contains.Some? then c.eq[c.contains.value.path := c.contains.value.value] else c.eq)
      && (c.contains.Some? ==> Searchable(c.contains.value.value) && c.contains.value.path !in c.eq)
      && (s.in_.Some? ==> s.in_.value.path !in s.eq)
      && (s.ineq.Some? ==> q.order != [] && !q.order[0].isName && Print(q.order[0].path) == s.ineq.value.path)
  {
    QueryHolds(q, [], map[]);
  }

  // The equality values of every range are sound.
  lemma SubSound(q: Query, v: Value)
    requires SplitFilters(q).Some? && CollectQuery(q).Some? && SoundFound(CollectQuery(q).value)
    requires Choice(SplitFilters(q).value, v)
    ensures SoundEq(EqWith(SplitFilters(q).value, v), ContainsPath(q))
  {
    SplitIs(q);
  }

  // A range's equality values hold, inequality aside, for some choice exactly
  // when the collected filters hold.
  lemma ChoiceHolds(q: Query, name: Str, fields: Fields)
    requires SplitFilters(q).Some? && CollectQuery(q).Some? && SoundFound(CollectQuery(q).value)
    ensures FoundHolds(CollectQuery(q).value, name, fields) <==>
      && IneqHolds(SplitFilters(q).value.ineq, name, fields)
      && exists v :: Choice(SplitFilters(q).value, v) && EqAll(EqWith(SplitFilters(q).value, v), ContainsPath(q), name, fields)
  {
    SplitIs(q);
    var c, s, cPath := CollectQuery(q).value, SplitFilters(q).value, ContainsPath(q);
    EqPart(c, s, cPath, name, fields);
    if s.in_.None? {
      assert Choice(s, Null) && EqWith(s, Null) == s.eq;
    } else {
      ListPart(s, cPath, name, fields);
    }
  }

  // The fixed equality values hold exactly when the equalities and the
  // array-contains filter do.
  lemma EqPart(c: Found, s: Split, cPath: Str, name: Str, fields: Fields)
    requires FoundShape(c)
    requires s.eq == if c.contains.Some? then c.eq[c.contains.value.path := c.contains.value.value] else c.eq
    requires c.contains.Some? ==> c.contains.value.path !in c.eq && cPath == c.contains.value.path
    requires c.contains.None? ==> cPath !in c.eq || cPath == []
    ensures EqAll(s.eq, cPath, name, fields) <==>
      && (forall p :: p in c.eq ==> EvalField(p, Eq, c.eq[p], name, fields))
      && (c.contains.Some? ==> EvalField(c.contains.value.path, ArrayContains, c.contains.value.value, name, fields))
  {
    assert Parse([]).None?;
    if c.contains.Some? {
      var p0 := c.contains.value.path;
      assert forall p :: p in s.eq <==> p in c.eq || p == p0;
      assert s.eq[p0] == c.contains.value.value && forall p :: p in c.eq ==> s.eq[p] == c.eq[p];
      if p0 == [] {
        assert !EvalField(p0, Eq, s.eq[p0], name, fields);
      }
      forall p | p in c.eq ensures EqOp(cPath, p) == Eq {}
    } else {
      forall p | p in c.eq ensures EqOp(cPath, p) == Eq {}
    }
  }

  // A list filter holds exactly when one of its searchable members does.
  lemma ListPart(s: Split, cPath: Str, name: Str, fields: Fields)
    requires s.in_.Some? && s.in_.value.path !in s.eq && s.in_.value.path != NAME
    requires if s.in_.value.contains then cPath == s.in_.value.path else cPath != s.in_.value.path || cPath == []
    ensures EqAll(s.eq, cPath, name, fields) && ListHolds(s.in_.value, name, fields) <==>
      exists v :: Choice(s, v) && EqAll(EqWith(s, v), cPath, name, fields)
  {
    var in_ := s.in_.value;
    if EqAll(s.eq, cPath, name, fields) && ListHolds(in_, name, fields) {
      var i := ListMember(in_, cPath, name, fields);
      assert Choice(s, in_.values[i]);
      MemberPart(s, cPath, name, fields, in_.values[i]);
    }
    forall v | Choice(s, v) && EqAll(EqWith(s, v), cPath, name, fields)
      ensures EqAll(s.eq, cPath, name, fields) && ListHolds(in_, name, fields)
    {
      MemberPart(s, cPath, name, fields, v);
      var i :| 0 <= i < |in_.values| && in_.values[i] == v;
      ListHas(in_, cPath, name, fields, i);
    }
  }

  lemma MemberPart(s: Split, cPath: Str, name: Str, fields: Fields, v: Value)
    requires s.in_.Some? && s.in_.value.path !in s.eq
    ensures EqAll(EqWith(s, v), cPath, name, fields) <==>
      EqAll(s.eq, cPath, name, fields) && EvalField(s.in_.value.path, EqOp(cPath, s.in_.value.path), v, name, fields)
  {
    var p0, sub := s.in_.value.path, EqWith(s, v);
    assert sub[p0] == v && forall p :: p in s.eq ==> p in sub && sub[p] == s.eq[p];
    assert forall p :: p in sub ==> p in s.eq || p == p0;
  }

  lemma ListMember(in_: InList, cPath: Str, name: Str, fields: Fields) returns (i: nat)
    requires in_.path != NAME && ListHolds(in_, name, fields)
    requires if in_.contains then cPath == in_.path else cPath != in_.path || cPath == []
    ensures i < |in_.values| && Searchable(in_.values[i])
    ensures EvalField(in_.path, EqOp(cPath, in_.path), in_.values[i], name, fields)
  {
    assert Parse([]).None?;
    var v := FieldAt(fields, in_.path).value;
    var vs := Array(in_.values);
    assert ListOf(vs) == in_.values;
    if in_.contains {
      i :| 0 <= i < |in_.values| && Searchable(in_.values[i]) && ArrayHas(v, in_.values[i]);
    } else {
      i :| 0 <= i < |in_.values| && !IsNullValue(in_.values[i]) && !IsNaNValue(in_.values[i])
           && !IsNaNValue(v) && Compare(v, in_.values[i]) == 0;
    }
  }

  lemma ListHas(in_: InList, cPath: Str, name: Str, fields: Fields, i: nat)
    requires in_.path != NAME && i < |in_.values| && Searchable(in_.values[i])
    requires if in_.contains then cPath == in_.path else cPath != in_.path || cPath == []
    requires EvalField(in_.path, EqOp(cPath, in_.path), in_.values[i], name, fields)
    ensures ListHolds(in_, name, fields)
  {
    assert Parse([]).None?;
    assert ListOf(Array(in_.values)) == in_.values;
  }

  // ------------------------------------------------------------ range exactness

  // Bounds of a range, inequality and cursors included, read as a condition.
  ghost predicate Selected(s: Serving, q: Query, name: Str, fields: Fields)
    requires SplitFilters(q).Some?
  {
    && EqAll(s.eq, s.cPath, name, fields) && OrderPresent(q.order, fields)
    && IneqHolds(SplitFilters(q).value.ineq, name, fields)
    && InCursorRange(q, OrderKey(q.order, name, fields))
  }

  ghost predicate ServesQuery(s: Serving, q: Query) {
    && Served(s) && s.order == q.order && CursorsServed(LayoutOf(s), q)
    && SplitFilters(q).Some? && CollectQuery(q).Some? && SoundFound(CollectQuery(q).value)
  }

  function BoundsFor(s: Serving, q: Query): Span
    requires Match(s.d, s.eq, s.cPath, s.order).Some?
  {
    Bounds(s.d, |s.eq|, Matching(s).prefix, Matching(s).reversed, q)
  }

  // The inequality reads the first ordering term.
  lemma IneqIsFirst(q: Query, name: Str, fields: Fields)
    requires SplitFilters(q).Some? && SplitFilters(q).value.ineq.Some?
    requires CollectQuery(q).Some? && SoundFound(CollectQuery(q).value)
    requires OrderPresent(q.order, fields) && SoundOrder(q.order)
    ensures var ineq := SplitFilters(q).value.ineq.value;
      && q.order != [] && !q.order[0].isName && IsRangeOp(ineq.op) && WellFormed(ineq.value)
      && (EvalField(ineq.path, ineq.op, ineq.value, name, fields)
          <==> EvalOp(OrderKey(q.order, name, fields)[0], ineq.op, ineq.value))
  {
    SplitIs(q);
    FieldOfTerm(q.order[0], fields);
  }

  // The inequality's share of the bounds.
  function IneqPart(d: Def, n: nat, p: seq<byte>, ineq: Option<Inequality>): Span
    requires n < |EffectiveFields(d)|
  {
    var s0 := Span(Some(p), PrefixEnd(p));
    if ineq.None? then s0 else IneqSpan(d, n, p, ineq.value, EffectiveFields(d)[n].desc, s0)
  }

  // bounds, by cases: an inequality on NaN, or anything else.
  lemma BoundsAre(d: Def, n: nat, p: seq<byte>, reversed: bool, q: Query)
    requires n < |EffectiveFields(d)| && SplitFilters(q).Some?
    ensures var ineq, s := SplitFilters(q).value.ineq, Bounds(d, n, p, reversed, q);
      if ineq.Some? && IsNaNValue(ineq.value.value) then s.lo == s.hi && s.lo.Some?
      else s == CursorSpan(d, n, p, reversed, q, IneqPart(d, n, p, ineq))
  {}

  lemma NaNRangeEmpty(d: Def, n: nat, p: seq<byte>, reversed: bool, q: Query, k: seq<byte>)
    requires n < |EffectiveFields(d)| && SplitFilters(q).Some?
    requires SplitFilters(q).value.ineq.Some? && IsNaNValue(SplitFilters(q).value.ineq.value.value)
    ensures !InSpan(k, Bounds(d, n, p, reversed, q))
  {
    BoundsAre(d, n, p, reversed, q);
    var lo := Bounds(d, n, p, reversed, q).lo.value;
    CompareRefl(lo);
    EmptySpan(k, lo, lo);
  }

  // ... holds exactly the laid-out documents that meet the inequality.
  lemma IneqPartExact(d: Def, l: Layout, q: Query, name: Str, fields: Fields)
    requires Laid(l) && EffectiveFields(d) == l.eqs + l.rest && q.order == l.order && SoundOrder(q.order)
    requires SoundFields(fields) && OrderPresent(q.order, fields)
    requires SplitFilters(q).Some? && CollectQuery(q).Some? && SoundFound(CollectQuery(q).value)
    requires SplitFilters(q).value.ineq.Some? ==> !IsNaNValue(SplitFilters(q).value.ineq.value.value)
    ensures InSpan(Prefix(l) + Suffix(l.rest, name, fields), IneqPart(d, |l.eqs|, Prefix(l), SplitFilters(q).value.ineq))
      <==> IneqHolds(SplitFilters(q).value.ineq, name, fields)
  {
    var k := Prefix(l) + Suffix(l.rest, name, fields);
    var s0 := Span(Some(Prefix(l)), PrefixEnd(Prefix(l)));
    PrefixSpan(k, Prefix(l));
    assert EffectiveFields(d)[|l.eqs|] == l.rest[0];
    var ineq := SplitFilters(q).value.ineq;
    if ineq.Some? {
      IneqIsFirst(q, name, fields);
      IneqExact(d, l, name, fields, ineq.value, s0);
    }
  }

  // The key of a document that meets the equality filters and has every ordering
  // field lies in the range exactly when the inequality and the cursors hold.
  lemma BoundsExact(d: Def, l: Layout, q: Query, name: Str, fields: Fields)
    requires Laid(l) && EffectiveFields(d) == l.eqs + l.rest && q.order == l.order && SoundOrder(q.order)
    requires SoundFields(fields) && OrderPresent(q.order, fields) && CursorsServed(l, q)
    requires SplitFilters(q).Some? && CollectQuery(q).Some? && SoundFound(CollectQuery(q).value)
    ensures InSpan(Prefix(l) + Suffix(l.rest, name, fields), Bounds(d, |l.eqs|, Prefix(l), l.reversed, q)) <==>
      IneqHolds(SplitFilters(q).value.ineq, name, fields) && InCursorRange(q, OrderKey(q.order, name, fields))
  {
    hide Prefix, Suffix, CursorSpan, IneqPart, SoundFields;
    var n, p, ineq := |l.eqs|, Prefix(l), SplitFilters(q).value.ineq;
    if ineq.Some? && IsNaNValue(ineq.value.value) {
      IneqIsFirst(q, name, fields);
      NaNRangeEmpty(d, n, p, l.reversed, q, p + Suffix(l.rest, name, fields));
    } else {
      BoundsAre(d, n, p, l.reversed, q);
      IneqPartExact(d, l, q, name, fields);
      CursorsExact(d, l, q, name, fields, IneqPart(d, n, p, ineq));
    }
  }

  // Every range sits inside its equality prefix.
  lemma BoundsInPrefix(d: Def, n: nat, p: seq<byte>, reversed: bool, q: Query, k: seq<byte>)
    requires n < |EffectiveFields(d)| && SplitFilters(q).Some?
    requires InSpan(k, Bounds(d, n, p, reversed, q))
    ensures p <= k
  {
    var ineq := SplitFilters(q).value.ineq;
    if ineq.Some? && IsNaNValue(ineq.value.value) {
      NaNRangeEmpty(d, n, p, reversed, q, k);
      assert false;
    }
    BoundsAre(d, n, p, reversed, q);
    CursorSpanShrinks(d, n, p, reversed, q, IneqPart(d, n, p, ineq), k);
    var s0 := Span(Some(p), PrefixEnd(p));
    if ineq.Some? { IneqSpanShrinks(d, n, p, ineq.value, EffectiveFields(d)[n].desc, s0, k); }
    PrefixSpan(k, p);
  }

  lemma CursorSpanShrinks(d: Def, n: nat, p: seq<byte>, reversed: bool, q: Query, s: Span, k: seq<byte>)
    requires InSpan(k, CursorSpan(d, n, p, reversed, q, s))
    ensures InSpan(k, s)
  {
    var s1 := if q.start.Some? then StartSpan(d, n, p, reversed, q.start.value, |q.order|, s) else s;
    var s2 := if q.end.Some? then EndSpan(d, n, p, reversed, q.end.value, |q.order|, s1) else s1;
    InClip(k, s2);
    if q.end.Some? {
      var b, c := CursorKey(d, n, p, Cap(q.end.value.values, |q.order|)), q.end.value;
      InMin(k, s1.hi, EndBound(b, !c.before));
      InMax(k, s1.lo, StartBound(b, !c.before));
    }
    if q.start.Some? {
      var b, c := CursorKey(d, n, p, Cap(q.start.value.values, |q.order|)), q.start.value;
      InMin(k, s.hi, EndBound(b, c.before));
      InMax(k, s.lo, StartBound(b, c.before));
    }
  }

  lemma IneqSpanShrinks(d: Def, n: nat, p: seq<byte>, ineq: Inequality, desc: bool, s: Span, k: seq<byte>)
    requires InSpan(k, IneqSpan(d, n, p, ineq, desc, s))
    ensures InSpan(k, s)
  {
    var bucket := p + [TypeBucket(ineq.value, desc)];
    var b := CursorKey(d, n, p, [ineq.value]);
    var lo, hi := MaxBound(s.lo, Some(bucket)), MinBound(s.hi, PrefixEnd(bucket));
    NarrowBoth(k, s, Span(Some(bucket), PrefixEnd(bucket)));
    InMax(k, lo, b);
    InMax(k, lo, EndOf(b));
    InMin(k, hi, b);
    InMin(k, hi, EndOf(b));
  }

  // The one key of a document that one range can hold.
  function RangeKey(s: Serving, name: Str, fields: Fields): seq<byte>
    requires Match(s.d, s.eq, s.cPath, s.order).Some?
  {
    Matching(s).prefix + Suffix(LayoutOf(s).rest, name, fields)
  }

  // Range exactness: a key of the document lies in the planned range exactly when
  // the document meets the equality filters, the inequality and both cursors and
  // has every ordering field; there is then one such key, and its bytes after
  // the prefix are the ordering suffix.
  lemma RangeIsExact(s: Serving, q: Query, name: Str, fields: Fields, k: seq<byte>)
    requires ServesQuery(s, q) && SoundFields(fields)
    ensures k in Keys(s.d, name, fields) && InSpan(k, BoundsFor(s, q)) <==>
      Selected(s, q, name, fields) && k == RangeKey(s, name, fields)
  {
    LaidOut(s);
    EqHoldsIs(s, name, fields);
    LaidExact(s.d, LayoutOf(s), q, name, fields, k);
  }

  lemma LaidExact(d: Def, l: Layout, q: Query, name: Str, fields: Fields, k: seq<byte>)
    requires Laid(l) && EffectiveFields(d) == l.eqs + l.rest && q.order == l.order && SoundOrder(q.order)
    requires SoundFields(fields) && CursorsServed(l, q)
    requires SplitFilters(q).Some? && CollectQuery(q).Some? && SoundFound(CollectQuery(q).value)
    ensures k in Keys(d, name, fields) && InSpan(k, Bounds(d, |l.eqs|, Prefix(l), l.reversed, q)) <==>
      && EqHolds(l, name, fields) && OrderPresent(q.order, fields)
      && IneqHolds(SplitFilters(q).value.ineq, name, fields) && InCursorRange(q, OrderKey(q.order, name, fields))
      && k == Prefix(l) + Suffix(l.rest, name, fields)
  {
    if k in Keys(d, name, fields) && InSpan(k, Bounds(d, |l.eqs|, Prefix(l), l.reversed, q)) {
      BoundsInPrefix(d, |l.eqs|, Prefix(l), l.reversed, q, k);
      PrefixOfKey(d, l, name, fields, k);
      BoundsExact(d, l, q, name, fields);
    } else if EqHolds(l, name, fields) && OrderPresent(q.order, fields) {
      KeyOfMatch(d, l, name, fields);
      BoundsExact(d, l, q, name, fields);
    }
  }
}
