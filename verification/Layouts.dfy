// One index, laid out against one query: the fields its keys fix by equality,
// the fields they order by, and what the bytes of a key then say about the
// document.
module Layouts {
  import opened Bytes
  import opened Numbers
  import opened Values
  import opened Orders
  import opened SortKeys
  import opened FieldPaths
  import opened Queries
  import opened Indexes
  import opened Plans
  import opened Spans

  // eqs carry vals under ops; rest carry the ordering, backwards when reversed.
  datatype Layout = Layout(
    eqs: seq<Field>, vals: seq<Value>, ops: seq<Op>,
    rest: seq<Field>, order: seq<OrderSpec>, reversed: bool)

  // How one equality field is filtered.
  predicate EqFits(f: Field, op: Op, operand: Value) {
    && f.path != NAME && WellFormed(operand)
    && (if f.contains then op == ArrayContains && !f.desc && Searchable(operand) else op == Eq)
  }

  // How one ordering field carries its term.
  predicate RestFits(spec: OrderSpec, f: Field, reversed: bool) {
    && f.path == Want(spec) && (f.path == NAME <==> spec.isName)
    && (spec.isName || (spec.path != [] && !f.contains))
    && f.desc == (spec.desc != reversed)
  }

  ghost predicate Laid(l: Layout) {
    && |l.eqs| == |l.vals| == |l.ops| && |l.rest| == |l.order| > 0
    && (forall i :: 0 <= i < |l.eqs| ==> EqFits(l.eqs[i], l.ops[i], l.vals[i]))
    && (forall i :: 0 <= i < |l.order| ==> RestFits(l.order[i], l.rest[i], l.reversed))
    && (forall i :: 0 <= i < |l.order| ==> (l.order[i].isName <==> i == |l.order| - 1))
  }

  // Every readable field of a document is well formed.
  ghost predicate SoundFields(fields: Fields) {
    forall p: Path :: GetField(fields, p).Some? ==> WellFormed(GetField(fields, p).value)
  }

  function Prefix(l: Layout): seq<byte>
    requires |l.eqs| == |l.vals|
  {
    Concat(PrefixComps(l.eqs, l.vals))
  }

  // ------------------------------------------------------ a document's suffix

  function SuffixComp(f: Field, name: Str, fields: Fields): seq<byte> {
    if f.path == NAME then DirNameKey(name, f.desc)
    else if FieldAt(fields, f.path).Some? then DirKey(FieldAt(fields, f.path).value, f.desc)
    else []
  }

  function SuffixComps(rest: seq<Field>, name: Str, fields: Fields): (r: seq<seq<byte>>)
    ensures |r| == |rest| && forall i :: 0 <= i < |rest| ==> r[i] == SuffixComp(rest[i], name, fields)
  {
    seq(|rest|, i requires 0 <= i < |rest| => SuffixComp(rest[i], name, fields))
  }

  // The bytes of a document's key after the equality prefix.
  function Suffix(rest: seq<Field>, name: Str, fields: Fields): seq<byte> {
    Concat(SuffixComps(rest, name, fields))
  }

  predicate OrderPresent(order: seq<OrderSpec>, fields: Fields) {
    forall i :: 0 <= i < |order| ==> order[i].isName || GetField(fields, order[i].path).Some?
  }

  // The printed path of an ordering term names the field it was parsed from.
  lemma FieldOfTerm(spec: OrderSpec, fields: Fields)
    requires !spec.isName && spec.path != []
    ensures FieldAt(fields, Want(spec)) == GetField(fields, spec.path)
  {
    RoundTrip(spec.path);
  }

  // One term of two documents.
  lemma TermCoded(spec: OrderSpec, f: Field, reversed: bool, na: Str, fa: Fields, nb: Str, fb: Fields)
    requires RestFits(spec, f, reversed) && SoundFields(fa) && SoundFields(fb)
    requires spec.isName || (GetField(fa, spec.path).Some? && GetField(fb, spec.path).Some?)
    ensures Coded(SuffixComp(f, na, fa), SuffixComp(f, nb, fb),
                  Flip(reversed, DirCompare(spec.desc, Term(spec, na, fa), Term(spec, nb, fb))))
  {
    if spec.isName {
      DirNameKeyCoded(na, nb, f.desc);
    } else {
      FieldOfTerm(spec, fa);
      FieldOfTerm(spec, fb);
      DirKeyCoded(Term(spec, na, fa), Term(spec, nb, fb), f.desc);
    }
  }

  // The suffix bytes order as the query orders, backwards when the scan is.
  lemma SuffixOrder(l: Layout, na: Str, fa: Fields, nb: Str, fb: Fields)
    requires Laid(l) && SoundFields(fa) && SoundFields(fb)
    requires OrderPresent(l.order, fa) && OrderPresent(l.order, fb)
    ensures CompareBytes(Suffix(l.rest, na, fa), Suffix(l.rest, nb, fb)) ==
            Flip(l.reversed, CompareKeys(l.order, OrderKey(l.order, na, fa), OrderKey(l.order, nb, fb)))
  {
    var n := |l.order|;
    var ka, kb, ca, cb := OrderKey(l.order, na, fa), OrderKey(l.order, nb, fb), SuffixComps(l.rest, na, fa), SuffixComps(l.rest, nb, fb);
    forall i | 0 <= i < n ensures Coded(ca[i], cb[i], Flip(l.reversed, DirCompare(l.order[i].desc, ka[i], kb[i]))) {
      TermCoded(l.order[i], l.rest[i], l.reversed, na, fa, nb, fb);
    }
    TermsCoded(l.order, ka, kb, ca, cb, l.reversed, n);
    assert ca[..n] == ca && cb[..n] == cb;
    CodedCompare(Concat(ca), Concat(cb), Flip(l.reversed, CompareKeys(l.order, ka, kb)));
  }

  // ------------------------------------------------------ the equality prefix

  ghost predicate EqHolds(l: Layout, name: Str, fields: Fields)
    requires Laid(l)
  {
    forall i :: 0 <= i < |l.eqs| ==> EvalField(l.eqs[i].path, l.ops[i], l.vals[i], name, fields)
  }

  // A component at an equality field is the operand's own key, and then the
  // filter holds, or diverges from it.
  lemma EqCompDecides(f: Field, op: Op, operand: Value, name: Str, fields: Fields, c: seq<byte>)
    requires EqFits(f, op, operand) && SoundFields(fields) && IsComp(f, name, fields, c)
    ensures c == DirKey(operand, f.desc) || FirstDiff(c, DirKey(operand, f.desc)) != 0
    ensures c == DirKey(operand, f.desc) ==> EvalField(f.path, op, operand, name, fields)
  {
    var v := FieldAt(fields, f.path).value;
    assert WellFormed(v);
    if f.contains {
      var j :| 0 <= j < |v.elems| && c == SortKey(v.elems[j]);
      assert WellFormed(v.elems[j]);
      ElemDecides(v, j, operand);
    } else {
      DirKeyCoded(v, operand, f.desc);
      if c == DirKey(operand, f.desc) { SameNoDiff(c); }
    }
  }

  lemma ElemDecides(v: Value, j: nat, operand: Value)
    requires v.Array? && j < |v.elems| && WellFormed(v.elems[j]) && WellFormed(operand) && Searchable(operand)
    ensures SortKey(v.elems[j]) == SortKey(operand) || FirstDiff(SortKey(v.elems[j]), SortKey(operand)) != 0
    ensures SortKey(v.elems[j]) == SortKey(operand) ==> ArrayHas(v, operand)
  {
    SortKeyCoded(v.elems[j], operand);
    if SortKey(v.elems[j]) == SortKey(operand) { OrderIsomorphism(v.elems[j], operand); }
  }

  lemma {:induction false} SameNoDiff(a: seq<byte>)
    ensures FirstDiff(a, a) == 0
  {
    if a != [] { SameNoDiff(a[1..]); }
  }

  lemma EqCompHas(f: Field, op: Op, operand: Value, name: Str, fields: Fields)
    requires EqFits(f, op, operand) && SoundFields(fields) && EvalField(f.path, op, operand, name, fields)
    ensures IsComp(f, name, fields, DirKey(operand, f.desc))
  {
    var v := FieldAt(fields, f.path).value;
    assert WellFormed(v);
    if f.contains {
      var j :| 0 <= j < |v.elems| && !IsNaNValue(v.elems[j]) && Compare(v.elems[j], operand) == 0;
      assert WellFormed(v.elems[j]);
      OrderIsomorphism(v.elems[j], operand);
    } else {
      DirKeyCoded(v, operand, f.desc);
    }
  }

  // An ordering field has one component, and only when the document has it.
  lemma SuffixIsComp(spec: OrderSpec, f: Field, reversed: bool, name: Str, fields: Fields, c: seq<byte>)
    requires RestFits(spec, f, reversed)
    ensures IsComp(f, name, fields, c) <==>
      c == SuffixComp(f, name, fields) && (spec.isName || GetField(fields, spec.path).Some?)
  {
    if !spec.isName { FieldOfTerm(spec, fields); }
  }

  // The components of a key that starts with the equality prefix.
  lemma PrefixOfComps(l: Layout, name: Str, fields: Fields, comps: seq<seq<byte>>)
    requires Laid(l) && SoundFields(fields) && AreComps(l.eqs, name, fields, comps)
    ensures Prefix(l) == Concat(comps) || FirstDiff(Concat(comps), Prefix(l)) != 0
    ensures Prefix(l) == Concat(comps) ==> EqHolds(l, name, fields)
  {
    var pc := PrefixComps(l.eqs, l.vals);
    forall i | 0 <= i < |l.eqs|
      ensures comps[i] == pc[i] || FirstDiff(comps[i], pc[i]) != 0
      ensures comps[i] == pc[i] ==> EvalField(l.eqs[i].path, l.ops[i], l.vals[i], name, fields)
    {
      EqCompDecides(l.eqs[i], l.ops[i], l.vals[i], name, fields, comps[i]);
    }
    ListsDecide(comps, pc);
    if Prefix(l) == Concat(comps) { SameNoDiff(Prefix(l)); }
  }

  lemma SuffixOfComps(l: Layout, name: Str, fields: Fields, comps: seq<seq<byte>>)
    requires Laid(l)
    ensures AreComps(l.rest, name, fields, comps) <==>
      comps == SuffixComps(l.rest, name, fields) && OrderPresent(l.order, fields)
  {
    if |comps| == |l.rest| {
      forall i | 0 <= i < |l.rest|
        ensures IsComp(l.rest[i], name, fields, comps[i]) <==>
          comps[i] == SuffixComps(l.rest, name, fields)[i] && (l.order[i].isName || GetField(fields, l.order[i].path).Some?)
      {
        SuffixIsComp(l.order[i], l.rest[i], l.reversed, name, fields, comps[i]);
      }
    }
  }

  // A key of the document starts with the equality prefix exactly when the
  // equality filters hold at its components, and then the rest is the suffix.
  lemma PrefixOfKey(d: Def, l: Layout, name: Str, fields: Fields, k: seq<byte>)
    requires Laid(l) && EffectiveFields(d) == l.eqs + l.rest && SoundFields(fields)
    requires k in Keys(d, name, fields) && Prefix(l) <= k
    ensures EqHolds(l, name, fields) && OrderPresent(l.order, fields)
    ensures k == Prefix(l) + Suffix(l.rest, name, fields)
  {
    var n := |l.eqs|;
    var comps := KeyMember(d, name, fields, k);
    var head, tail := comps[..n], comps[n..];
    ConcatSplit(comps, n);
    SplitComps(l.eqs, l.rest, name, fields, comps);
    PrefixOfComps(l, name, fields, head);
    SuffixOfComps(l, name, fields, tail);
    if FirstDiff(Concat(head), Prefix(l)) != 0 {
      assert Prefix(l) + [] == Prefix(l);
      FirstDiffConcat(Concat(head), Prefix(l), Concat(tail), []);
      DiffNoPrefix(k, Prefix(l));
      assert false;
    }
  }

  lemma SplitComps(fs: seq<Field>, gs: seq<Field>, name: Str, fields: Fields, comps: seq<seq<byte>>)
    requires AreComps(fs + gs, name, fields, comps)
    ensures AreComps(fs, name, fields, comps[..|fs|]) && AreComps(gs, name, fields, comps[|fs|..])
  {
    forall i | 0 <= i < |fs| ensures IsComp(fs[i], name, fields, comps[i]) { assert (fs + gs)[i] == fs[i]; }
    forall i | 0 <= i < |gs| ensures IsComp(gs[i], name, fields, comps[|fs| + i]) { assert (fs + gs)[|fs| + i] == gs[i]; }
  }

  lemma JoinComps(fs: seq<Field>, gs: seq<Field>, name: Str, fields: Fields, a: seq<seq<byte>>, b: seq<seq<byte>>)
    requires AreComps(fs, name, fields, a) && AreComps(gs, name, fields, b)
    ensures AreComps(fs + gs, name, fields, a + b)
  {
    hide IsComp;
  }

  lemma EqComps(l: Layout, name: Str, fields: Fields)
    requires Laid(l) && SoundFields(fields) && EqHolds(l, name, fields)
    ensures AreComps(l.eqs, name, fields, PrefixComps(l.eqs, l.vals))
  {
    forall i | 0 <= i < |l.eqs| ensures IsComp(l.eqs[i], name, fields, PrefixComps(l.eqs, l.vals)[i]) {
      EqCompHas(l.eqs[i], l.ops[i], l.vals[i], name, fields);
    }
  }

  // Conversely, a document that meets the equality filters and has every
  // ordering field has that key.
  lemma KeyOfMatch(d: Def, l: Layout, name: Str, fields: Fields)
    requires Laid(l) && EffectiveFields(d) == l.eqs + l.rest && SoundFields(fields)
    requires EqHolds(l, name, fields) && OrderPresent(l.order, fields)
    ensures Prefix(l) + Suffix(l.rest, name, fields) in Keys(d, name, fields)
  {
    var pc, sc := PrefixComps(l.eqs, l.vals), SuffixComps(l.rest, name, fields);
    EqComps(l, name, fields);
    SuffixOfComps(l, name, fields, sc);
    JoinComps(l.eqs, l.rest, name, fields, pc, sc);
    KeyHas(d, name, fields, pc + sc);
    ConcatSplit(pc + sc, |pc|);
    assert (pc + sc)[..|pc|] == pc && (pc + sc)[|pc|..] == sc;
  }

  // ------------------------------------------------------- positions and bounds

  // No component starts with 0xFF, so no prefix end is ever nil.
  lemma DirKeyHead(v: Value, desc: bool)
    ensures DirKey(v, desc) != [] && DirKey(v, desc)[0] != 0xFF
    ensures DirKey(v, desc)[0] == if desc then 255 - Tag(TypeOrder(v)) else Tag(TypeOrder(v))
  {
    assert SortKey(v)[0] == Tag(TypeOrder(v));
  }

  // A position key that encodes anything at all starts below 0xFF.
  lemma PositionHead(l: Layout, vals: seq<Value>)
    requires |l.eqs| == |l.vals| && |vals| <= |l.rest| && (l.eqs != [] || vals != [])
    ensures var k := Prefix(l) + Concat(PrefixComps(l.rest, vals)); k != [] && k[0] != 0xFF
  {
    if l.eqs != [] {
      DirKeyHead(l.vals[0], l.eqs[0].desc);
    } else {
      DirKeyHead(vals[0], l.rest[0].desc);
    }
  }

  lemma CompareSign(a: Value, b: Value)
    requires WellFormed(a) && WellFormed(b)
    ensures Compare(a, b) in {-1, 0, 1}
  {
    Swaps(a, b);
  }

  lemma {:induction false} TermsSign(order: seq<OrderSpec>, a: seq<Value>, b: seq<Value>, n: nat)
    requires n <= |order| && n <= |a| && n <= |b|
    requires forall i :: 0 <= i < n ==> WellFormed(a[i]) && WellFormed(b[i])
    ensures CompareTerms(order, a, b, n) in {-1, 0, 1}
    decreases n
  {
    if n > 0 {
      TermsSign(order, a, b, n - 1);
      CompareSign(a[n - 1], b[n - 1]);
    }
  }

  // Values a cursor may hold: well formed, and none at the name term.
  ghost predicate Positions(l: Layout, vals: seq<Value>) {
    |vals| < |l.order| && forall i :: 0 <= i < |vals| ==> WellFormed(vals[i])
  }

  // The document's place relative to a list of leading ordering values.
  function Place(l: Layout, name: Str, fields: Fields, vals: seq<Value>): int
    requires |vals| <= |l.order|
  {
    CompareTerms(l.order, OrderKey(l.order, name, fields), vals, |vals|)
  }

  lemma PlaceCoded(l: Layout, name: Str, fields: Fields, vals: seq<Value>)
    requires Laid(l) && SoundFields(fields) && OrderPresent(l.order, fields) && Positions(l, vals)
    ensures Coded(Concat(SuffixComps(l.rest, name, fields)[..|vals|]), Concat(PrefixComps(l.rest, vals)),
                  Flip(l.reversed, Place(l, name, fields, vals)))
    ensures Place(l, name, fields, vals) in {-1, 0, 1}
  {
    var n, key := |vals|, OrderKey(l.order, name, fields);
    var ca, cb := SuffixComps(l.rest, name, fields), PrefixComps(l.rest, vals);
    forall i | 0 <= i < n
      ensures WellFormed(key[i])
      ensures Coded(ca[i], cb[i], Flip(l.reversed, DirCompare(l.order[i].desc, key[i], vals[i])))
    {
      FieldOfTerm(l.order[i], fields);
      DirKeyCoded(key[i], vals[i], l.rest[i].desc);
    }
    TermsCoded(l.order, key, vals, ca, cb, l.reversed, n);
    assert cb[..n] == cb;
    TermsSign(l.order, key, vals, n);
  }

  // A document's key against a position key, used as each kind of bound.
  lemma PlaceExact(l: Layout, name: Str, fields: Fields, vals: seq<Value>)
    requires Laid(l) && SoundFields(fields) && OrderPresent(l.order, fields) && Positions(l, vals)
    requires l.eqs != [] || vals != []
    ensures var k, b, sign := Prefix(l) + Suffix(l.rest, name, fields), Some(Prefix(l) + Concat(PrefixComps(l.rest, vals))),
                              Flip(l.reversed, Place(l, name, fields, vals));
      && (AtLeast(k, b) <==> sign >= 0)
      && (AtLeast(k, EndOf(b)) <==> sign > 0)
      && (Below(k, b) <==> sign < 0)
      && (Below(k, EndOf(b)) <==> sign <= 0)
  {
    var sc := SuffixComps(l.rest, name, fields);
    PlaceCoded(l, name, fields, vals);
    PositionHead(l, vals);
    ConcatSplit(sc, |vals|);
    PositionExact(Prefix(l), Concat(PrefixComps(l.rest, vals)), Concat(sc[..|vals|]), Concat(sc[|vals|..]),
                  Flip(l.reversed, Place(l, name, fields, vals)));
  }

  // What cursorKey computes for a laid-out definition.
  lemma CursorKeyIs(d: Def, l: Layout, vals: seq<Value>)
    requires |l.eqs| == |l.vals| && EffectiveFields(d) == l.eqs + l.rest && |vals| <= |l.rest|
    ensures CursorKey(d, |l.eqs|, Prefix(l), vals) ==
      (if l.eqs == [] && vals == [] then None else Some(Prefix(l) + Concat(PrefixComps(l.rest, vals))))
  {
    var n := |l.eqs|;
    assert (l.eqs + l.rest)[n..] == l.rest;
    assert vals[..|vals|] == vals;
    if n >= |l.eqs + l.rest| {
      assert vals == [] && l.rest == [];
    }
    if l.eqs != [] || vals != [] { PositionHead(l, vals); }
  }

  // ------------------------------------------------------------------- cursors

  // A cursor the bounds serve: no value at the name term, and when it holds no
  // value at all, either an equality prefix to stand on or nothing to exclude.
  ghost predicate CursorServed(l: Layout, cur: Cursor, keepsTies: bool) {
    Positions(l, cur.values) && (cur.values != [] || l.eqs != [] || keepsTies)
  }

  ghost predicate CursorsServed(l: Layout, q: Query) {
    && (q.start.Some? ==> CursorServed(l, q.start.value, q.start.value.before))
    && (q.end.Some? ==> CursorServed(l, q.end.value, !q.end.value.before))
  }

  lemma StartExact(d: Def, l: Layout, name: Str, fields: Fields, cur: Cursor, s: Span)
    requires Laid(l) && EffectiveFields(d) == l.eqs + l.rest && SoundFields(fields) && OrderPresent(l.order, fields)
    requires CursorServed(l, cur, cur.before)
    ensures var k := Prefix(l) + Suffix(l.rest, name, fields);
      InSpan(k, StartSpan(d, |l.eqs|, Prefix(l), l.reversed, cur, |l.order|, s))
      <==> InSpan(k, s) && AfterStart(Place(l, name, fields, cur.values), cur)
  {
    var k := Prefix(l) + Suffix(l.rest, name, fields);
    var b := CursorKey(d, |l.eqs|, Prefix(l), cur.values);
    CursorKeyIs(d, l, cur.values);
    InMin(k, s.hi, EndBound(b, cur.before));
    InMax(k, s.lo, StartBound(b, cur.before));
    if l.eqs != [] || cur.values != [] { PlaceExact(l, name, fields, cur.values); }
  }

  lemma EndExact(d: Def, l: Layout, name: Str, fields: Fields, cur: Cursor, s: Span)
    requires Laid(l) && EffectiveFields(d) == l.eqs + l.rest && SoundFields(fields) && OrderPresent(l.order, fields)
    requires CursorServed(l, cur, !cur.before)
    ensures var k := Prefix(l) + Suffix(l.rest, name, fields);
      InSpan(k, EndSpan(d, |l.eqs|, Prefix(l), l.reversed, cur, |l.order|, s))
      <==> InSpan(k, s) && BeforeEnd(Place(l, name, fields, cur.values), cur)
  {
    var k := Prefix(l) + Suffix(l.rest, name, fields);
    var b := CursorKey(d, |l.eqs|, Prefix(l), cur.values);
    CursorKeyIs(d, l, cur.values);
    InMin(k, s.hi, EndBound(b, !cur.before));
    InMax(k, s.lo, StartBound(b, !cur.before));
    if l.eqs != [] || cur.values != [] { PlaceExact(l, name, fields, cur.values); }
  }

  // The cursors' share of a range is exactly InCursorRange.
  lemma CursorsExact(d: Def, l: Layout, q: Query, name: Str, fields: Fields, s: Span)
    requires Laid(l) && EffectiveFields(d) == l.eqs + l.rest && q.order == l.order
    requires SoundFields(fields) && OrderPresent(l.order, fields) && CursorsServed(l, q)
    ensures var k := Prefix(l) + Suffix(l.rest, name, fields);
      InSpan(k, CursorSpan(d, |l.eqs|, Prefix(l), l.reversed, q, s))
      <==> InSpan(k, s) && InCursorRange(q, OrderKey(q.order, name, fields))
  {
    hide StartSpan, EndSpan, Suffix, Prefix, OrderKey;
    var k, n, p := Prefix(l) + Suffix(l.rest, name, fields), |l.eqs|, Prefix(l);
    var s1 := if q.start.Some? then StartSpan(d, n, p, l.reversed, q.start.value, |q.order|, s) else s;
    var s2 := if q.end.Some? then EndSpan(d, n, p, l.reversed, q.end.value, |q.order|, s1) else s1;
    if q.start.Some? { StartExact(d, l, name, fields, q.start.value, s); }
    if q.end.Some? { EndExact(d, l, name, fields, q.end.value, s1); }
    InClip(k, s2);
  }

  // -------------------------------------------------------------- inequalities

  // Within the operand's type bucket, and only there, a key has its tag.
  lemma BucketExact(l: Layout, name: Str, fields: Fields, v: Value)
    requires Laid(l) && !l.order[0].isName && OrderPresent(l.order, fields)
    ensures var bucket := Prefix(l) + [TypeBucket(v, l.rest[0].desc)];
      bucket <= Prefix(l) + Suffix(l.rest, name, fields) <==> TypeOrder(OrderKey(l.order, name, fields)[0]) == TypeOrder(v)
  {
    var u, desc := OrderKey(l.order, name, fields)[0], l.rest[0].desc;
    var sc := SuffixComps(l.rest, name, fields);
    FieldOfTerm(l.order[0], fields);
    DirKeyHead(u, desc);
    DirKeyHead(v, desc);
    TagsOrdered(TypeOrder(u), TypeOrder(v));
    assert Suffix(l.rest, name, fields)[0] == sc[0][0];
    PrefixCancel(Prefix(l), [TypeBucket(v, desc)], Suffix(l.rest, name, fields));
  }

  predicate IsRangeOp(op: Op) { op in {Lt, Le, Gt, Ge} }

  // An inequality on the first ordering field narrows to exactly the documents
  // that meet it, type bucket included, in either direction.
  lemma IneqExact(d: Def, l: Layout, name: Str, fields: Fields, ineq: Inequality, s: Span)
    requires Laid(l) && EffectiveFields(d) == l.eqs + l.rest && SoundFields(fields) && OrderPresent(l.order, fields)
    requires !l.order[0].isName && WellFormed(ineq.value) && !IsNaNValue(ineq.value) && IsRangeOp(ineq.op)
    ensures var k := Prefix(l) + Suffix(l.rest, name, fields);
      InSpan(k, IneqSpan(d, |l.eqs|, Prefix(l), ineq, l.rest[0].desc, s))
      <==> InSpan(k, s) && EvalOp(OrderKey(l.order, name, fields)[0], ineq.op, ineq.value)
  {
    hide Compare, CursorKey, TypeBucket, Place, Prefix, Suffix, PrefixEnd, WellFormed;
    var k, desc, u := Prefix(l) + Suffix(l.rest, name, fields), l.rest[0].desc, OrderKey(l.order, name, fields)[0];
    var bucket := Prefix(l) + [TypeBucket(ineq.value, desc)];
    var b := CursorKey(d, |l.eqs|, Prefix(l), [ineq.value]);
    BucketExact(l, name, fields, ineq.value);
    PrefixSpan(k, bucket);
    CursorKeyIs(d, l, [ineq.value]);
    PlaceExact(l, name, fields, [ineq.value]);
    FirstPlace(l, name, fields, ineq.value);
    CompareSign(u, ineq.value);
    NarrowBoth(k, s, Span(Some(bucket), PrefixEnd(bucket)));
    var lo, hi := MaxBound(s.lo, Some(bucket)), MinBound(s.hi, PrefixEnd(bucket));
    InMax(k, lo, b);
    InMax(k, lo, EndOf(b));
    InMin(k, hi, b);
    InMin(k, hi, EndOf(b));
  }

  lemma NarrowBoth(k: seq<byte>, s: Span, t: Span)
    ensures InSpan(k, Span(MaxBound(s.lo, t.lo), MinBound(s.hi, t.hi))) <==> InSpan(k, s) && InSpan(k, t)
  {
    InMax(k, s.lo, t.lo);
    InMin(k, s.hi, t.hi);
  }

  lemma FirstPlace(l: Layout, name: Str, fields: Fields, v: Value)
    requires Laid(l) && !l.order[0].isName && GetField(fields, l.order[0].path).Some?
    requires SoundFields(fields) && WellFormed(v)
    ensures |l.order| > 1 && Positions(l, [v])
    ensures Flip(l.reversed, Place(l, name, fields, [v])) ==
      (if l.rest[0].desc then -Compare(OrderKey(l.order, name, fields)[0], v) else Compare(OrderKey(l.order, name, fields)[0], v))
  {
    var key := OrderKey(l.order, name, fields);
    assert CompareTerms(l.order, key, [v], 0) == 0;
    assert RestFits(l.order[0], l.rest[0], l.reversed);
  }
}
