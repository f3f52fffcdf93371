// Where the index path and the general path part: for each hypothesis of the
// refinement, what happens without it.
module Limits {
  import opened Bytes
  import opened Numbers
  import opened Values
  import opened Orders
  import opened SortKeys
  import opened FieldPaths
  import opened Queries
  import opened Indexes
  import opened Plans
  import opened Spans
  import opened Layouts
  import opened RangeExact
  import opened Planning
  import opened Merge
  import opened General
  import opened Refinement
  import opened Engine
  import opened StoredKeys

  // "a" and "b".
  const A: Str := [0x61]
  const B: Str := [0x62]

  const BY_NAME: seq<OrderSpec> := [OrderSpec([], true, false)]

  lemma Simple(p: Str)
    requires p == A || p == B
    ensures Parse(p) == Some([p]) && Print([p]) == p && p != NAME
  {
    assert IsSimple(p);
    RoundTrip([p]);
  }

  lemma FieldOf(p: Str, fields: Fields)
    requires p == A || p == B
    ensures FieldAt(fields, p) == if p in fields then Some(fields[p]) else None
  {
    Simple(p);
  }

  // ------------------------------------------------------------------- parent

  // The table with every document moved under the query's parent.
  function Adopted(q: Query, table: Table): Table {
    map n | n in table :: table[n].(parentPath := q.parent)
  }

  // The index scan has no parent condition: it answers for the whole collection id.
  method ScanAnyParent(q: Query, plan: Plan, scans: seq<seq<Entry>>, ghost table: Table, ghost entries: set<Entry>)
    returns (names: seq<Str>)
    requires PlanOf(plan.def, q) == Some(plan) && plan.def.collectionId == q.collectionId && !q.allDescendants
    requires Servable(plan.def, q) && SoundPaging(q) && SoundTable(table)
    requires IndexRows(plan.def, table, entries) && |scans| == |plan.ranges|
    requires forall i :: 0 <= i < |scans| ==> IsScan(entries, plan.ranges[i].span, plan.reversed, scans[i])
    ensures names == NamesOf(Result(q, Adopted(q, table)))
  {
    hide PlanOf, Servable, SoundPaging, IsScan, Result, SoundFields, Keys, IsRun;
    ghost var x := MakeRun(q, plan, Adopted(q, table), entries, scans);
    names := ScanIndex(q, plan, scans, x);
  }

  // For a query of one collection without paging, that is the general answer
  // exactly when every document of the collection id that passes the filters and
  // cursors lies under the parent.
  lemma ParentExact(q: Query, table: Table)
    requires SoundTable(table) && HasName(q.order) && !q.allDescendants && q.offset == 0 && q.limit < 0
    ensures NamesOf(Result(q, Adopted(q, table))) == NamesOf(Result(q, table)) <==>
      (forall n :: n in table && table[n].collectionId == q.collectionId && Passes(q, table[n]) ==> InBase(q, table[n]))
  {
    hide Matches, InCursorRange, SoundFields, Answer, CompareDocs;
    var t' := Adopted(q, table);
    SelectionSound(q, table);
    SelectionSound(q, t');
    AnswerIs(q, Selection(q, table));
    AnswerIs(q, Selection(q, t'));
    forall n | n in table ensures Passes(q, t'[n]) == Passes(q, table[n]) {}
    if n :| n in table && table[n].collectionId == q.collectionId && Passes(q, table[n]) && !InBase(q, table[n]) {
      var a, a' := Answer(q, Selection(q, table)), Answer(q, Selection(q, t'));
      assert t'[n] in a';
      var i :| 0 <= i < |a'| && a'[i] == t'[n];
      if NamesOf(a') == NamesOf(a) {
        assert NamesOf(a)[i] == NamesOf(a')[i];
        assert a[i] in a && a[i].name == n;
      }
    } else {
      forall d ensures d in Selection(q, t') <==> d in Selection(q, table) {
        if d.name in table { assert t'[d.name] == table[d.name].(parentPath := q.parent); }
      }
      assert Selection(q, t') == Selection(q, table);
    }
  }

  // ------------------------------------------------------------------- cursors

  // A start cursor without values and without an equality prefix to stand on bounds
  // nothing, and so is exact only where it should keep everything.
  lemma EmptyStartExact(d: Def, l: Layout, name: Str, fields: Fields, cur: Cursor, s: Span)
    requires Laid(l) && EffectiveFields(d) == l.eqs + l.rest && SoundFields(fields) && OrderPresent(l.order, fields)
    requires l.eqs == [] && cur.values == []
    ensures var k := Prefix(l) + Suffix(l.rest, name, fields);
      (InSpan(k, StartSpan(d, 0, Prefix(l), l.reversed, cur, |l.order|, s))
       <==> InSpan(k, s) && AfterStart(Place(l, name, fields, []), cur))
      <==> cur.before || !InSpan(k, s)
  {
    CursorKeyIs(d, l, []);
  }

  lemma EmptyEndExact(d: Def, l: Layout, name: Str, fields: Fields, cur: Cursor, s: Span)
    requires Laid(l) && EffectiveFields(d) == l.eqs + l.rest && SoundFields(fields) && OrderPresent(l.order, fields)
    requires l.eqs == [] && cur.values == []
    ensures var k := Prefix(l) + Suffix(l.rest, name, fields);
      (InSpan(k, EndSpan(d, 0, Prefix(l), l.reversed, cur, |l.order|, s))
       <==> InSpan(k, s) && BeforeEnd(Place(l, name, fields, []), cur))
      <==> !cur.before || !InSpan(k, s)
  {
    CursorKeyIs(d, l, []);
  }

  // A cursor value at the name term carries a type tag that names in keys do not:
  // it stands on one side of every name, and so is exact only for names that are
  // on that side of it anyway.
  lemma NameCursorExact(name: Str, v: Value, desc: bool, x: seq<byte>, y: seq<byte>)
    requires WellFormed(v)
    ensures CompareBytes(DirNameKey(name, desc) + x, DirKey(v, desc) + y) == DirCompare(desc, Reference(name), v)
      <==> Compare(Reference(name), v) == -1
  {
    var a, b := DirNameKey(name, desc), DirKey(v, desc);
    NameHead(name);
    DirKeyHead(v, desc);
    assert (a + x)[0] == a[0] && (b + y)[0] == b[0];
    CompareSign(Reference(name), v);
  }

  lemma NameHead(name: Str)
    ensures NameKey(name) != [] && NameKey(name)[0] <= ITEM_MARKER
  {}

  // --------------------------------------------------------------- definitions

  // A contains field past the equality prefix is not looked at: a definition on
  // array elements of a serves orderBy("a"), and misses what is not an array.
  lemma ContainsInOrder(c: Str, name: Str, x: Int64)
    ensures var d, order, fields := Def(c, [Field(A, false, true)], false), [OrderSpec([A], false, false)] + BY_NAME, map[A := Integer(x)];
      Match(d, map[], [], order).Some? && OrderPresent(order, fields) && Keys(d, name, fields) == []
  {
    var d, order, fields := Def(c, [Field(A, false, true)], false), [OrderSpec([A], false, false)] + BY_NAME, map[A := Integer(x)];
    Simple(A);
    FieldOf(A, fields);
    var fs := EffectiveFields(d);
    assert fs == [Field(A, false, true), Field(NAME, false, false)] && fs[0..] == fs;
    assert GetField(fields, [A]) == Some(Integer(x));
    NoHeads(fs[1..], name, fields);
  }

  // A descending contains field is written ascending and searched complemented: no
  // key of any document starts with the prefix. Neither ParseConfig nor ParseSpec
  // produces such a field; only a definition built by hand for SetIndexes holds one.
  lemma DescendingContains(c: Str, name: Str, v: Value, fields: Fields, k: seq<byte>)
    requires fields == map[A := Array([v])]
    ensures var d := Def(c, [Field(A, true, true)], false);
      && Match(d, map[A := v], A, BY_NAME).Some?
      && (k in Keys(d, name, fields) ==> !(Match(d, map[A := v], A, BY_NAME).value.prefix <= k))
  {
    hide Match, Keys, DirKey, SortKey;
    DescendingPlanned(c, v);
    DirKeyHead(v, true);
    if k in Keys(Def(c, [Field(A, true, true)], false), name, fields) { DescendingWritten(c, name, v, fields, k); }
  }

  lemma DescendingPlanned(c: Str, v: Value)
    ensures var d := Def(c, [Field(A, true, true)], false);
      Match(d, map[A := v], A, BY_NAME).Some? && Match(d, map[A := v], A, BY_NAME).value.prefix == DirKey(v, true)
  {
    hide DirKey;
    var d, eq := Def(c, [Field(A, true, true)], false), map[A := v];
    Simple(A);
    var fs := EffectiveFields(d);
    assert fs == [Field(A, true, true), Field(NAME, false, false)];
    assert |eq| == 1 by { assert eq.Keys == {A}; }
    assert fs[1..] == [Field(NAME, false, false)];
    assert EqValues(fs, eq)[..1] == [v];
    assert PrefixComps(d.fields, [v]) == [DirKey(v, true)];
    assert Concat([DirKey(v, true)]) == DirKey(v, true) + Concat([DirKey(v, true)][1..]) == DirKey(v, true);
  }

  lemma DescendingWritten(c: Str, name: Str, v: Value, fields: Fields, k: seq<byte>)
    requires fields == map[A := Array([v])] && k in Keys(Def(c, [Field(A, true, true)], false), name, fields)
    ensures k != [] && k[0] == Tag(TypeOrder(v))
  {
    hide Keys, SortKey, Parse, GetField;
    var d := Def(c, [Field(A, true, true)], false);
    Simple(A);
    FieldOf(A, fields);
    assert EffectiveFields(d) == [Field(A, true, true), Field(NAME, false, false)];
    var comps := KeyMember(d, name, fields, k);
    assert IsComp(EffectiveFields(d)[0], name, fields, comps[0]);
    assert comps[0] == SortKey(v);
    HeadTag(v);
  }

  // A path twice in a definition stands for two equalities: the second one asked for
  // is never looked at.
  lemma DuplicatePath(c: Str, x: Value, y: Value, z: Value)
    ensures var d := Def(c, [Field(A, false, false), Field(A, false, false)], false);
      && Match(d, map[A := x, B := y], [], BY_NAME).Some?
      && Match(d, map[A := x, B := y], [], BY_NAME) == Match(d, map[A := x, B := z], [], BY_NAME)
  {
    var d := Def(c, [Field(A, false, false), Field(A, false, false)], false);
    Simple(A);
    Simple(B);
    var fs := EffectiveFields(d);
    assert fs == [Field(A, false, false), Field(A, false, false), Field(NAME, false, false)];
    assert fs[2..] == [Field(NAME, false, false)];
    var e, f := map[A := x, B := y], map[A := x, B := z];
    assert e.Keys == {A, B} == f.Keys;
    assert |e| == |{A, B}| == |f| == 2;
    assert EqValues(fs, e) == EqValues(fs, f);
  }

  // The name before another field serves orderBy("__name__"), and misses what has
  // no such field.
  lemma NameNotLast(c: Str, name: Str)
    ensures var d := Def(c, [Field(NAME, false, false), Field(A, false, false)], false);
      Match(d, map[], [], BY_NAME).Some? && Keys(d, name, map[]) == []
  {
    var d := Def(c, [Field(NAME, false, false), Field(A, false, false)], false);
    Simple(A);
    FieldOf(A, map[]);
    var fs := EffectiveFields(d);
    assert fs == [Field(NAME, false, false), Field(A, false, false), Field(NAME, false, false)] && fs[0..] == fs;
    var heads := Extend(fs[0], [[]], name, map[]);
    assert fs[1..][0] == fs[1] && fs[1..][1..] == fs[2..];
    assert Extend(fs[1], heads, name, map[]) == [];
    assert HeadsOf(fs[1..], heads, name, map[]) == HeadsOf(fs[2..], [], name, map[]);
    NoHeads(fs[2..], name, map[]);
  }

  // ------------------------------------------------------------------- filters

  function TwoDef(c: Str): Def { Def(c, [Field(A, false, true), Field(B, false, false)], false) }

  function TwoEqualities(x: Int64, y: Int64): map<Str, Value> { map[A := Integer(x), B := Integer(y)] }

  function TwoArrays(x: Int64, y: Int64): Fields { map[A := Array([Integer(x)]), B := Array([Integer(y)])] }

  function TwoFilters(x: Int64, y: Int64): Filter {
    Composite(And, [FieldFilter(A, ArrayContains, Integer(x)), FieldFilter(B, ArrayContainsAny, Array([Integer(y)]))])
  }

  // array-contains beside array-contains-any: the list's field is searched for the
  // element itself, where a document that matches has the array.
  lemma BothContains(c: Str, name: Str, x: Int64, y: Int64, k: seq<byte>)
    ensures EvalFilter(TwoFilters(x, y), name, TwoArrays(x, y))
    ensures Match(TwoDef(c), TwoEqualities(x, y), A, BY_NAME).Some?
    ensures k in Keys(TwoDef(c), name, TwoArrays(x, y)) ==>
      !(Match(TwoDef(c), TwoEqualities(x, y), A, BY_NAME).value.prefix <= k)
  {
    hide EvalFilter, Match, Keys, SortKey, TwoDef, TwoEqualities, TwoArrays, TwoFilters;
    BothMatch(name, x, y);
    BothPlanned(c, x, y);
    if k in Keys(TwoDef(c), name, TwoArrays(x, y)) { BothMissed(c, name, x, y, k); }
  }

  lemma BothMatch(name: Str, x: Int64, y: Int64)
    ensures EvalFilter(TwoFilters(x, y), name, TwoArrays(x, y))
  {
    hide Compare;
    var fields := TwoArrays(x, y);
    Simple(A);
    Simple(B);
    FieldOf(A, fields);
    FieldOf(B, fields);
    CompareTotalOrder(Integer(x), Integer(x), Integer(x));
    CompareTotalOrder(Integer(y), Integer(y), Integer(y));
    assert fields[A].elems[0] == Integer(x) && fields[B].elems[0] == Integer(y);
    assert ListOf(Array([Integer(y)]))[0] == Integer(y);
    assert EvalField(A, ArrayContains, Integer(x), name, fields);
    assert EvalField(B, ArrayContainsAny, Array([Integer(y)]), name, fields);
  }

  lemma BothPlanned(c: Str, x: Int64, y: Int64)
    ensures Match(TwoDef(c), TwoEqualities(x, y), A, BY_NAME).Some?
    ensures Match(TwoDef(c), TwoEqualities(x, y), A, BY_NAME).value.prefix == SortKey(Integer(x)) + SortKey(Integer(y))
  {
    hide SortKey, Parse, Print;
    var d, eq := TwoDef(c), TwoEqualities(x, y);
    Simple(A);
    Simple(B);
    var fs := EffectiveFields(d);
    assert fs == [Field(A, false, true), Field(B, false, false), Field(NAME, false, false)];
    assert fs[2..] == [Field(NAME, false, false)];
    assert eq.Keys == {A, B} && |eq| == |{A, B}| == 2;
    var vals := EqValues(fs, eq);
    assert vals[..2] == [Integer(x), Integer(y)];
    var comps := PrefixComps(d.fields, vals[..2]);
    assert comps == [SortKey(Integer(x)), SortKey(Integer(y))];
    assert comps[1..] == [SortKey(Integer(y))];
    assert Concat(comps[1..]) == SortKey(Integer(y)) + Concat(comps[1..][1..]) == SortKey(Integer(y));
  }

  lemma BothMissed(c: Str, name: Str, x: Int64, y: Int64, k: seq<byte>)
    requires k in Keys(TwoDef(c), name, TwoArrays(x, y))
    ensures !(SortKey(Integer(x)) + SortKey(Integer(y)) <= k)
  {
    hide Keys, SortKey, Match, Parse, GetField;
    var d, fields := TwoDef(c), TwoArrays(x, y);
    Simple(A);
    Simple(B);
    FieldOf(A, fields);
    FieldOf(B, fields);
    var fs := EffectiveFields(d);
    assert fs == [Field(A, false, true), Field(B, false, false), Field(NAME, false, false)];
    var comps := KeyMember(d, name, fields, k);
    assert IsComp(fs[0], name, fields, comps[0]) && IsComp(fs[1], name, fields, comps[1]);
    assert comps[0] == SortKey(Integer(x)) && comps[1] == SortKey(Array([Integer(y)]));
    SecondDiffers(comps, y, k);
  }

  lemma SecondDiffers(comps: seq<seq<byte>>, y: Int64, k: seq<byte>)
    requires |comps| >= 2 && k == Concat(comps) && comps[1] == SortKey(Array([Integer(y)]))
    ensures !(comps[0] + SortKey(Integer(y)) <= k)
  {
    hide SortKey, Concat;
    TwoComps(comps);
    HeadTag(Array([Integer(y)]));
    HeadTag(Integer(y));
    HeadsDiffer(comps[0], SortKey(Integer(y)), comps[1], Concat(comps[1..][1..]));
  }

  lemma HeadsDiffer(p: seq<byte>, a: seq<byte>, b: seq<byte>, x: seq<byte>)
    requires a != [] && b != [] && a[0] != b[0]
    ensures !(p + a <= p + (b + x))
  {
    assert (p + a)[|p|] == a[0] && (p + (b + x))[|p|] == b[0];
  }

  lemma TwoComps(comps: seq<seq<byte>>)
    requires |comps| >= 2
    ensures Concat(comps) == comps[0] + (comps[1] + Concat(comps[1..][1..]))
  {}

  lemma HeadTag(v: Value)
    ensures SortKey(v) != [] && SortKey(v)[0] == Tag(TypeOrder(v))
  {}

  // ------------------------------------------------------- the exact conditions

  lemma {:induction false} ArrayLonger(es: seq<Value>, i: nat)
    requires i < |es|
    ensures |ArrayItems(es)| > |SortKey(es[i])|
    decreases |es|
  {
    hide SortKey;
    if i > 0 { ArrayLonger(es[1..], i - 1); }
  }

  // An array's key is none of its elements'.
  lemma ArrayKeyDiffers(v: Value, i: nat)
    requires v.Array? && i < |v.elems|
    ensures SortKey(v) != SortKey(v.elems[i])
  {
    ArrayLonger(v.elems, i);
    assert SortKey(v) == [TAG_ARRAY] + ArrayItems(v.elems);
  }

  // A complemented key is no ascending one.
  lemma ComplementApart(u: Value, v: Value)
    ensures DirKey(u, true) != SortKey(v)
  {
    hide SortKey, DirKey;
    DirKeyHead(u, true);
    HeadTag(v);
  }

  // A field writes the value a query orders by exactly when it is no contains field,
  // for every document that has the field.
  lemma ContainsOrderExact(f: Field, name: Str, fields: Fields, v: Value)
    requires f.path != NAME && FieldAt(fields, f.path) == Some(v)
    ensures IsComp(f, name, fields, DirKey(v, f.desc)) <==> !f.contains
  {
    hide SortKey;
    if f.contains && v.Array? {
      forall i | 0 <= i < |v.elems| ensures DirKey(v, f.desc) != SortKey(v.elems[i]) {
        if f.desc { ComplementApart(v, v.elems[i]); } else { ArrayKeyDiffers(v, i); }
      }
    }
  }

  // A field writes what an element is searched by exactly when it is an ascending
  // contains field, for every document whose array holds the element.
  lemma ElementExact(f: Field, name: Str, fields: Fields, v: Value, i: nat, y: Value)
    requires f.path != NAME && FieldAt(fields, f.path) == Some(v) && v.Array? && i < |v.elems|
    requires WellFormed(v.elems[i]) && WellFormed(y) && Compare(v.elems[i], y) == 0
    ensures IsComp(f, name, fields, DirKey(y, f.desc)) <==> f.contains && !f.desc
  {
    hide SortKey, Compare;
    OrderIsomorphism(v.elems[i], y);
    if f.contains {
      if f.desc {
        forall j | 0 <= j < |v.elems| ensures DirKey(y, true) != SortKey(v.elems[j]) { ComplementApart(y, v.elems[j]); }
      }
    } else {
      ArrayKeyDiffers(v, i);
      ComplementInjective(SortKey(v), SortKey(y));
    }
  }

  // Every equality is looked at exactly when the leading paths are distinct.
  lemma DuplicateExact(fs: seq<Field>, eq: map<Str, Value>, cPath: Str)
    requires |eq| <= |fs| && PrefixFits(fs, eq, cPath)
    ensures (forall p :: p in eq ==> exists i :: 0 <= i < |eq| && fs[i].path == p)
       <==> forall i, j :: 0 <= i < j < |eq| ==> fs[i].path != fs[j].path
  {
    var n := |eq|;
    forall x | x in Paths(fs, n) ensures x in eq.Keys { var j := PathIndex(fs, n, x); }
    if forall i, j :: 0 <= i < j < n ==> fs[i].path != fs[j].path {
      DistinctCount(fs, n);
      SubsetFull(Paths(fs, n), eq.Keys);
      forall p | p in eq ensures exists i :: 0 <= i < n && fs[i].path == p { var i := PathIndex(fs, n, p); }
    }
    if forall p :: p in eq ==> exists i :: 0 <= i < n && fs[i].path == p {
      forall p | p in eq.Keys ensures p in Paths(fs, n) {
        var i :| 0 <= i < n && fs[i].path == p;
        PathHas(fs, n, i);
      }
      assert Paths(fs, n) == eq.Keys;
      forall i, j | 0 <= i < j < n ensures fs[i].path != fs[j].path {
        if fs[i].path == fs[j].path { RepeatedCount(fs, n, i, j); }
      }
    }
  }

  lemma {:induction false} PathHas(fs: seq<Field>, n: nat, i: nat)
    requires i < n <= |fs|
    ensures fs[i].path in Paths(fs, n)
    decreases n
  {
    if i < n - 1 { PathHas(fs, n - 1, i); }
  }

  lemma {:induction false} PathCount(fs: seq<Field>, n: nat)
    requires n <= |fs|
    ensures |Paths(fs, n)| <= n
    decreases n
  {
    if n > 0 { PathCount(fs, n - 1); }
  }

  lemma {:induction false} RepeatedCount(fs: seq<Field>, n: nat, i: nat, j: nat)
    requires i < j < n <= |fs| && fs[i].path == fs[j].path
    ensures |Paths(fs, n)| < n
    decreases n
  {
    if j == n - 1 {
      PathHas(fs, n - 1, i);
      assert Paths(fs, n) == Paths(fs, n - 1);
      PathCount(fs, n - 1);
    } else {
      RepeatedCount(fs, n - 1, i, j);
    }
  }

  // A definition that begins with the name serves an ordering by name, and holds a key
  // for every document exactly when it has no other field.
  lemma NameFirstExact(d: Def)
    requires d.fields != [] && d.fields[0].path == NAME
    ensures Match(d, map[], [], [OrderSpec([], true, d.fields[0].desc)]).Some?
    ensures (forall name, fields :: Keys(d, name, fields) != []) <==> forall i :: 0 <= i < |d.fields| ==> d.fields[i].path == NAME
  {
    hide Keys;
    var fs := EffectiveFields(d);
    assert fs[0..] == fs && fs[0] == d.fields[0];
    forall name, fields ensures Keys(d, name, fields) != [] <==> forall i :: 0 <= i < |fs| ==> Contributes(fs[i], name, fields) {
      KeyedExact(d, name, fields);
    }
    if forall name, fields :: Keys(d, name, fields) != [] {
      assert Keys(d, [], map[]) != [];
      forall i | 0 <= i < |d.fields| ensures d.fields[i].path == NAME {
        assert Contributes(fs[i], [], map[]);
        EmptyHasNothing(d.fields[i].path);
      }
    }
  }

  lemma EmptyHasNothing(path: Str)
    ensures FieldAt(map[], path).None?
  {}

  // A document that meets everything else, and whose array at p holds the element
  // searched for there, has a key under the planned prefix exactly when p is the
  // array-contains field: a list planned beside one is searched as an equality.
  lemma ListContainsExact(s: Serving, p: Str, name: Str, fields: Fields, v: Value, i: nat)
    requires Served(s) && SoundFields(fields) && OrderPresent(s.order, fields)
    requires p in s.eq && p != [] && FieldAt(fields, p) == Some(v) && v.Array? && i < |v.elems| && Compare(v.elems[i], s.eq[p]) == 0
    requires Searchable(s.eq[p])
    requires forall x :: x in s.eq && x != p ==> EvalField(x, EqOp(s.cPath, x), s.eq[x], name, fields)
    ensures (exists k :: k in Keys(s.d, name, fields) && Matching(s).prefix <= k) <==> p == s.cPath
  {
    hide Keys, Match, Compare, SortKey, EffectiveFields, Prefix, Suffix, FieldAt, Laid;
    LaidOut(s);
    EqHoldsIs(s, name, fields);
    var l := LayoutOf(s);
    FieldWellFormed(fields, p);
    ElementIsNotArray(v, i, s.eq[p]);
    ElementSearchable(v.elems[i], s.eq[p]);
    if k :| k in Keys(s.d, name, fields) && Matching(s).prefix <= k {
      PrefixOfKey(s.d, l, name, fields, k);
      assert EvalField(p, EqOp(s.cPath, p), s.eq[p], name, fields);
    }
    if p == s.cPath {
      assert EqAll(s.eq, s.cPath, name, fields);
      KeyOfMatch(s.d, l, name, fields);
      assert Prefix(l) <= Prefix(l) + Suffix(l.rest, name, fields);
    }
  }

  lemma ElementIsNotArray(v: Value, i: nat, y: Value)
    requires v.Array? && WellFormed(v) && i < |v.elems| && WellFormed(y) && Compare(v.elems[i], y) == 0
    ensures Compare(v, y) != 0
  {
    hide SortKey, Compare;
    ElemWellFormed(v, i);
    OrderIsomorphism(v, y);
    OrderIsomorphism(v.elems[i], y);
    ArrayKeyDiffers(v, i);
  }

  lemma ElementSearchable(e: Value, y: Value)
    requires Compare(e, y) == 0 && Searchable(y)
    ensures !IsNaNValue(e)
  {}
}
