// Which stored values are sure to include the encoding of an operand they equal: the
// exact condition under which a single jsonb probe stands for an equality filter.
module Covering {
  import opened Bytes
  import opened Numbers
  import opened Values
  import opened SortKeys
  import opened FieldPaths
  import opened Conversions
  import opened Storage
  import opened Orders
  import opened Ties
  import opened Encoding

  // Every spelling of a coordinate has this text.
  predicate CoordSure(f: Formats, c: Double, t: Str) {
    && !IsNaN(c)
    && if IsZero(c) then DoubleText(f, PLUS_ZERO) == t && DoubleText(f, MINUS_ZERO) == t else DoubleText(f, c) == t
  }

  // Whatever equals a includes b: a number must have one spelling, coordinates be
  // neither zero nor NaN, elements find a place in the array, members be ones the
  // order looks at.
  predicate Surely(f: Formats, a: Value, b: Value)
    decreases b, 0
  {
    match b
    case GeoPoint(lat, lng) => a.GeoPoint? && GeoSure(f, a, DoubleText(f, lat)) && GeoSure(f, a, DoubleText(f, lng))
    case Array(bs) => a.Array? && forall i :: 0 <= i < |bs| ==> SomeSurely(f, a.elems, bs[i])
    case Map(bm) => a.Map? && forall k :: k in bm ==> Seen(a.fields, k) && Surely(f, a.fields[k], bm[k])
    case Unknown => false
    case _ => Scalar(a) && forall i :: 0 <= i < |Alternatives(a)| ==> Encode(f, Alternatives(a)[i]) == Encode(f, b)
  }

  // One place among these elements is enough: their spellings are independent.
  predicate SomeSurely(f: Formats, es: seq<Value>, b: Value)
    decreases b, 1
  {
    exists j :: 0 <= j < |es| && Surely(f, es[j], b)
  }

  predicate GeoSure(f: Formats, a: Value, t: Str)
    requires a.GeoPoint?
  {
    CoordSure(f, a.lat, t) || CoordSure(f, a.lng, t)
  }

  // The order looks at this member: at all but those of a vector, where it sees the
  // type and the elements.
  predicate Seen(m: Fields, k: Str) {
    k in m && (IsVector(m) ==> k == TYPE_KEY || (k == VALUE_KEY && VectorElems(m) != []))
  }

  // ------------------------------------------------------------- equal values

  lemma EqualArrays(w: Value, a: Value)
    requires Compare(w, a) == 0 && a.Array?
    ensures w.Array? && |w.elems| == |a.elems| && forall i :: 0 <= i < |a.elems| ==> Compare(w.elems[i], a.elems[i]) == 0
  {
    SameType(w, a);
    ComparedArrays(w, a);
    ArraysSameSize(w.elems, a.elems);
    ArraysZero(w.elems, a.elems);
  }

  lemma SameType(w: Value, a: Value)
    requires Compare(w, a) == 0
    ensures TypeOrder(w) == TypeOrder(a) && (a.Array? ==> w.Array?) && (a.Map? ==> w.Map? && (IsVector(w.fields) <==> IsVector(a.fields)))
    ensures a.GeoPoint? ==> w.GeoPoint? && CmpFloat(w.lat, a.lat) == 0 == CmpFloat(w.lng, a.lng)
  {}

  lemma EqualVectors(w: Value, a: Value)
    requires Compare(w, a) == 0 && a.Map? && IsVector(a.fields)
    ensures w.Map? && IsVector(w.fields) && |VectorElems(w.fields)| == |VectorElems(a.fields)|
    ensures VectorElems(a.fields) != [] ==> CompareArrays(VectorElems(w.fields), VectorElems(a.fields)) == 0
  {
    SameType(w, a);
  }

  lemma EqualMaps(w: Value, a: Value)
    requires Compare(w, a) == 0 && a.Map? && !IsVector(a.fields)
    ensures w.Map? && !IsVector(w.fields) && w.fields.Keys == a.fields.Keys
    ensures forall k :: k in a.fields ==> Compare(w.fields[k], a.fields[k]) == 0
  {
    hide Compare, SortedKeys;
    SameType(w, a);
    ComparedMaps(w, a);
    EntriesSameKeys(w, SortedKeys(w.fields.Keys), a, SortedKeys(a.fields.Keys));
    assert forall k :: k in w.fields <==> k in SortedKeys(w.fields.Keys);
    EntriesZero(w, a, SortedKeys(a.fields.Keys));
  }

  // What the order sees of two equal maps is equal.
  lemma SeenEqual(w: Value, a: Value, k: Str)
    requires Compare(w, a) == 0 && a.Map? && Seen(a.fields, k) && Ordered(w)
    ensures w.Map? && k in w.fields && Compare(w.fields[k], a.fields[k]) == 0 && Ordered(w.fields[k])
  {
    hide Compare;
    SameType(w, a);
    if IsVector(a.fields) {
      EqualVectors(w, a);
      if k == TYPE_KEY {
        Swaps(w.fields[k], a.fields[k]);
      } else {
        ComparedArrays(w.fields[k], a.fields[k]);
      }
    } else {
      EqualMaps(w, a);
    }
  }

  // ------------------------------------------------------- sure values include

  lemma {:induction false} SurelyIncludes(f: Formats, w: Value, a: Value, b: Value)
    requires Surely(f, a, b) && Compare(w, a) == 0 && Ordered(w) && Encode(f, w).Some? && Encode(f, b).Some?
    ensures Includes(Encode(f, w).value, Encode(f, b).value)
    decreases b, 1
  {
    hide Encode, Compare, Includes, Ordered, Surely, SomeSurely;
    match b
    case GeoPoint(_, _) => GeoIncludes(f, w, a, b);
    case Array(_) => ArraySure(f, w, a, b);
    case Map(_) => MapSure(f, w, a, b);
    case Unknown => UnknownHasNone(f, b);
    case _ => ScalarSure(f, w, a, b);
  }

  lemma ArraySure(f: Formats, w: Value, a: Value, b: Value)
    requires b.Array? && Surely(f, a, b) && Compare(w, a) == 0 && Ordered(w) && Encode(f, w).Some? && Encode(f, b).Some?
    ensures Includes(Encode(f, w).value, Encode(f, b).value)
    decreases b, 0
  {
    hide Encode, Compare, Includes, Ordered, Surely, SomeSurely;
    var bs := b.elems;
    SureArray(f, a, b);
    EqualArrays(w, a);
    EncodedArray(f, w);
    EncodedArray(f, b);
    forall i | 0 <= i < |bs| ensures Encode(f, bs[i]).Some? && ElemIncludes(f, w, bs[i]) {
      var j := TheSure(f, a.elems, bs[i]);
      ElemOrdered(w, j);
      SurelyIncludes(f, w.elems[j], a.elems[j], bs[i]);
      assert Includes(ElemCode(f, w, j), Encode(f, bs[i]).value);
    }
    ArrayIncludes(f, w, b);
  }

  lemma MapSure(f: Formats, w: Value, a: Value, b: Value)
    requires b.Map? && Surely(f, a, b) && Compare(w, a) == 0 && Ordered(w) && Encode(f, w).Some? && Encode(f, b).Some?
    ensures Includes(Encode(f, w).value, Encode(f, b).value)
    decreases b, 0
  {
    hide Encode, Compare, Includes, Ordered, Surely, SomeSurely;
    SureMap(f, a, b);
    SameType(w, a);
    MembersOf(f, w);
    MembersOf(f, b);
    forall k | k in b.fields ensures k in w.fields && Includes(Encode(f, w.fields[k]).value, Encode(f, b.fields[k]).value) {
      SeenEqual(w, a, k);
      SurelyIncludes(f, w.fields[k], a.fields[k], b.fields[k]);
    }
    MapIncludes(f, w, b);
  }

  lemma SureScalar(f: Formats, a: Value, b: Value)
    requires Scalar(b)
    ensures Surely(f, a, b) <==>
      Scalar(a) && forall i :: 0 <= i < |Alternatives(a)| ==> Encode(f, Alternatives(a)[i]) == Encode(f, b)
  {
    hide Encode, Alternatives, GeoSure, Seen;
  }

  lemma SureGeo(f: Formats, a: Value, b: Value)
    requires b.GeoPoint?
    ensures Surely(f, a, b) <==> a.GeoPoint? && GeoSure(f, a, DoubleText(f, b.lat)) && GeoSure(f, a, DoubleText(f, b.lng))
  {
    hide GeoSure, DoubleText;
  }

  lemma SureArray(f: Formats, a: Value, b: Value)
    requires b.Array?
    ensures Surely(f, a, b) <==> a.Array? && forall i :: 0 <= i < |b.elems| ==> SomeSurely(f, a.elems, b.elems[i])
  {
    hide SomeSurely;
  }

  lemma TheSure(f: Formats, es: seq<Value>, b: Value) returns (j: nat)
    requires SomeSurely(f, es, b)
    ensures j < |es| && Surely(f, es[j], b)
  {
    hide Surely;
    j :| 0 <= j < |es| && Surely(f, es[j], b);
  }

  lemma SureMap(f: Formats, a: Value, b: Value)
    requires b.Map?
    ensures Surely(f, a, b) <==>
      a.Map? && forall k :: k in b.fields ==> Seen(a.fields, k) && Surely(f, a.fields[k], b.fields[k])
  {
    hide SomeSurely, GeoSure;
  }

  lemma ScalarSure(f: Formats, w: Value, a: Value, b: Value)
    requires Scalar(b) && Surely(f, a, b) && Compare(w, a) == 0 && Encode(f, w).Some? && Encode(f, b).Some?
    ensures Includes(Encode(f, w).value, Encode(f, b).value)
  {
    hide Encode, Compare, Includes, Surely, Alternatives;
    SureScalar(f, a, b);
    SameSpelling(f, w, a);
    var i :| 0 <= i < |Alternatives(a)| && Encode(f, Alternatives(a)[i]) == Encode(f, w);
    IncludesScalar(f, w, b);
  }

  lemma ElemOrdered(w: Value, j: nat)
    requires w.Array? && Ordered(w) && j < |w.elems|
    ensures Ordered(w.elems[j])
  {}

  // What equals a scalar has the text of one of its spellings.
  lemma SameSpelling(f: Formats, w: Value, a: Value)
    requires Scalar(a) && Compare(w, a) == 0
    ensures exists i :: 0 <= i < |Alternatives(a)| && Encode(f, Alternatives(a)[i]) == Encode(f, w)
  {
    hide Alternatives, Compare;
    if IsNaNValue(a) {
      NaNAlone(a);
      SameNaN(f, w, a);
      assert Alternatives(a)[0] == a;
    } else {
      ScalarAlternatives(w, a);
      var i :| 0 <= i < |Alternatives(a)| && Alternatives(a)[i] == w;
    }
  }

  lemma SameNaN(f: Formats, w: Value, a: Value)
    requires IsNaNValue(a) && Compare(w, a) == 0
    ensures Encode(f, w) == Encode(f, a)
  {
    SameType(w, a);
  }

  lemma NaNAlone(a: Value)
    requires IsNaNValue(a)
    ensures Alternatives(a) == [a]
  {}

  lemma GeoEncoded(f: Formats, v: Value)
    requires v.GeoPoint?
    ensures Encode(f, v) == Some(Tagged(TAG_G, JArr([JStr(DoubleText(f, v.lat)), JStr(DoubleText(f, v.lng))])))
  {}

  // One coordinate pair includes another when it has its texts, in any order.
  lemma PairIncludes(a: Str, b: Str, c: Str, d: Str)
    ensures Includes(JArr([JStr(a), JStr(b)]), JArr([JStr(c), JStr(d)])) <==> c in {a, b} && d in {a, b}
  {
    var s, t := [JStr(a), JStr(b)], [JStr(c), JStr(d)];
    assert s[0] == JStr(a) && s[1] == JStr(b) && t[0] == JStr(c) && t[1] == JStr(d);
    assert forall i, j :: 0 <= i < 2 && 0 <= j < 2 ==> (Includes(s[j], t[i]) <==> s[j] == t[i]);
  }

  lemma GeoIncludes(f: Formats, w: Value, a: Value, b: Value)
    requires b.GeoPoint? && Surely(f, a, b) && Compare(w, a) == 0 && Ordered(w)
    ensures Encode(f, w).Some? && Includes(Encode(f, w).value, Encode(f, b).value)
  {
    hide Includes, Encode, DoubleText, GeoSure, Compare;
    GeoText(f, w, a, DoubleText(f, b.lat));
    GeoText(f, w, a, DoubleText(f, b.lng));
    GeoEncoded(f, w);
    GeoEncoded(f, b);
    PairIncludes(DoubleText(f, w.lat), DoubleText(f, w.lng), DoubleText(f, b.lat), DoubleText(f, b.lng));
    IncludesTagged(Encode(f, w).value, TAG_G, Encode(f, b).value.m[TAG_G]);
  }

  lemma GeoText(f: Formats, w: Value, a: Value, t: Str)
    requires a.GeoPoint? && GeoSure(f, a, t) && Compare(w, a) == 0 && Ordered(w)
    ensures w.GeoPoint? && t in {DoubleText(f, w.lat), DoubleText(f, w.lng)}
  {
    hide DoubleText, Compare, CoordSure;
    SameType(w, a);
    CoordTexts(f, w.lat, a.lat, t);
    CoordTexts(f, w.lng, a.lng, t);
  }

  // Coordinates that tie are the same, or both zero.
  lemma CoordTexts(f: Formats, d: Double, c: Double, t: Str)
    requires !IsNaN(d) && CmpFloat(d, c) == 0
    ensures CoordSure(f, c, t) ==> DoubleText(f, d) == t
  {
    if !IsNaN(c) {
      CoordTie(d, c);
      ZeroIs(d);
    }
  }

  lemma CoordTie(d: Double, c: Double)
    requires !IsNaN(d) && !IsNaN(c)
    ensures CmpFloat(d, c) == 0 <==> d == c || (IsZero(d) && IsZero(c))
  {
    hide ExactDouble;
    if CmpFloat(d, c) == 0 { DoubleUnique(NormalizeZero(d), NormalizeZero(c)); }
  }

  lemma ArrayIncludes(f: Formats, w: Value, b: Value)
    requires w.Array? && b.Array? && Encode(f, w).Some? && Encode(f, b).Some?
    ensures Includes(Encode(f, w).value, Encode(f, b).value) <==>
      forall i :: 0 <= i < |b.elems| ==> Encode(f, b.elems[i]).Some? && ElemIncludes(f, w, b.elems[i])
  {
    hide Encode, Includes;
    EncodedArray(f, w);
    EncodedArray(f, b);
    var p, q := Encode(f, w).value, Encode(f, b).value;
    TagIs(f, b);
    assert q == Tagged(TAG_A, q.m[TAG_A]);
    IncludesTagged(p, TAG_A, q.m[TAG_A]);
    var es, ds := p.m[TAG_A].es, q.m[TAG_A].es;
    forall i | 0 <= i < |ds| ensures SomeIncludes(es, ds[i]) <==> ElemIncludes(f, w, b.elems[i]) {
      assert Encode(f, b.elems[i]) == Some(ds[i]);
      if j :| 0 <= j < |es| && Includes(es[j], ds[i]) { assert ElemCode(f, w, j) == es[j]; }
      if j :| 0 <= j < |w.elems| && Includes(ElemCode(f, w, j), ds[i]) { assert Includes(es[j], ds[i]); }
    }
    InArray(es, ds);
  }

  lemma InArray(es: seq<Json>, ds: seq<Json>)
    ensures Includes(JArr(es), JArr(ds)) <==> forall i :: 0 <= i < |ds| ==> SomeIncludes(es, ds[i])
  {}

  // An element of the array includes b.
  predicate ElemIncludes(f: Formats, w: Value, b: Value)
    requires w.Array? && Encode(f, w).Some? && Encode(f, b).Some?
  {
    exists j :: 0 <= j < |w.elems| && Includes(ElemCode(f, w, j), Encode(f, b).value)
  }

  function ElemCode(f: Formats, w: Value, j: nat): (e: Json)
    requires w.Array? && Encode(f, w).Some? && j < |w.elems|
    ensures Encode(f, w.elems[j]) == Some(e)
  {
    Encode(f, w.elems[j]).value
  }

  lemma MapIncludes(f: Formats, w: Value, b: Value)
    requires w.Map? && b.Map? && Encode(f, w).Some? && Encode(f, b).Some?
    ensures Includes(Encode(f, w).value, Encode(f, b).value) <==>
      forall k :: k in b.fields ==> k in w.fields && Includes(Encode(f, w.fields[k]).value, Encode(f, b.fields[k]).value)
  {
    hide Encode;
    MembersOf(f, w);
    MembersOf(f, b);
    var p, q := Members(f, w), Members(f, b);
    IncludesTagged(Encode(f, w).value, TAG_M, JObj(q));
    InObject(p, q);
    forall k | k in q ensures q[k] == Encode(f, b.fields[k]).value && (k in p ==> p[k] == Encode(f, w.fields[k]).value) {}
  }

  lemma InObject(p: map<Str, Json>, q: map<Str, Json>)
    ensures Includes(JObj(p), JObj(q)) <==> forall k :: k in q ==> k in p && Includes(p[k], q[k])
  {}

  // ------------------------------------------------- others may not include

  // Nothing includes what has another tag.
  lemma IncludesTag(f: Formats, w: Value, b: Value)
    requires Encode(f, w).Some? && Encode(f, b).Some? && TagOf(w) != TagOf(b)
    ensures !Includes(Encode(f, w).value, Encode(f, b).value)
  {
    hide Encode, TagOf;
    TagIs(f, w);
    TagIs(f, b);
    assert TagOf(b) in Encode(f, b).value.m.Keys && TagOf(b) !in Encode(f, w).value.m.Keys;
  }

  lemma {:induction false} FillEncodes(f: Formats, v: Value, x: Double)
    requires Encode(f, v).Some?
    ensures Encode(f, Fill(v, x)).Some? && TagOf(Fill(v, x)) == TagOf(v)
    decreases v, 1
  {
    match v
    case Array(es) =>
      FillString(v, x);
      forall i | 0 <= i < |es| ensures Encode(f, Fill(es[i], x)).Some? { FillEncodes(f, es[i], x); }
    case Map(_) => FillMapEncodes(f, v, x);
    case _ =>
  }

  lemma FillMapEncodes(f: Formats, v: Value, x: Double)
    requires v.Map? && Encode(f, v).Some?
    ensures Encode(f, Fill(v, x)).Some? && Fill(v, x).Map?
    decreases v, 0
  {
    hide Encode;
    FillVector(v.fields, x);
    MembersOf(f, v);
    MembersOf(f, Fill(v, x));
    forall k | k in v.fields ensures Encode(f, Fill(v, x).fields[k]).Some? { FillEncodes(f, v.fields[k], x); }
  }

  function Filled(a: Value): (m: Fields)
    requires a.Map?
    ensures Fill(a, ZERO) == Map(m)
  {
    Fill(a, ZERO).fields
  }

  // An equal value that can be stored and that the order sees no NaN coordinate in.
  ghost predicate Stands(f: Formats, w: Value, a: Value) {
    Compare(w, a) == 0 && Ordered(w) && Encode(f, w).Some?
  }

  ghost predicate Misses(f: Formats, w: Value, b: Value)
    requires Encode(f, b).Some?
  {
    Encode(f, w).Some? ==> !Includes(Encode(f, w).value, Encode(f, b).value)
  }

  lemma FillStands(f: Formats, a: Value)
    requires Encode(f, a).Some?
    ensures Stands(f, Fill(a, ZERO), a) && TagOf(Fill(a, ZERO)) == TagOf(a)
  {
    hide Compare, Ordered, Encode, TagOf;
    FillTies(a, ZERO);
    Swaps(a, Fill(a, ZERO));
    FillEncodes(f, a, ZERO);
  }

  ghost predicate ZerosDiffer(f: Formats) { f.dbl(PLUS_ZERO) != f.dbl(MINUS_ZERO) }

  // Where it is not sure, an equal value does not include it.
  lemma {:induction false} NotSure(f: Formats, a: Value, b: Value) returns (w: Value)
    requires ZerosDiffer(f) && !Surely(f, a, b) && Encode(f, a).Some? && Encode(f, b).Some?
    ensures Stands(f, w, a) && Misses(f, w, b)
    decreases b, 1
  {
    hide Encode, Compare, Includes, Ordered, Stands, TagOf;
    if TagOf(a) != TagOf(b) && (!Scalar(a) || !Scalar(b)) {
      w := Fill(a, ZERO);
      FillStands(f, a);
      StandsEncoded(f, w, a);
      IncludesTag(f, w, b);
      return;
    }
    SameForm(a, b);
    match b
    case GeoPoint(_, _) => w := OtherGeo(f, a, b);
    case Array(_) => w := OtherArray(f, a, b);
    case Map(_) => w := OtherMap(f, a, b);
    case Unknown => UnknownHasNone(f, b);
    case _ => w := OtherScalar(f, a, b);
  }

  lemma UnknownHasNone(f: Formats, b: Value)
    ensures b.Unknown? ==> Encode(f, b).None?
  {}

  lemma SameForm(a: Value, b: Value)
    requires TagOf(a) == TagOf(b) || (Scalar(a) && Scalar(b))
    ensures (Scalar(a) <==> Scalar(b)) && (a.GeoPoint? <==> b.GeoPoint?) && (a.Array? <==> b.Array?) && (a.Map? <==> b.Map?)
  {}

  lemma StandsEncoded(f: Formats, w: Value, a: Value)
    requires Stands(f, w, a)
    ensures Encode(f, w).Some? && Compare(w, a) == 0 && Ordered(w)
  {}

  lemma OtherScalar(f: Formats, a: Value, b: Value) returns (w: Value)
    requires Scalar(a) && Scalar(b) && !Surely(f, a, b) && Encode(f, a).Some? && Encode(f, b).Some?
    ensures Stands(f, w, a) && Misses(f, w, b)
  {
    hide Encode, Compare, Includes, Surely, Alternatives;
    SureScalar(f, a, b);
    var i :| 0 <= i < |Alternatives(a)| && Encode(f, Alternatives(a)[i]) != Encode(f, b);
    w := Alternatives(a)[i];
    if IsNaNValue(a) {
      NaNAlone(a);
      Swaps(a, a);
    } else {
      ScalarAlternatives(w, a);
    }
    SpellingEncodes(f, a, i);
    IncludesScalar(f, w, b);
  }

  lemma SpellingEncodes(f: Formats, a: Value, i: nat)
    requires Scalar(a) && Encode(f, a).Some? && i < |Alternatives(a)|
    ensures Encode(f, Alternatives(a)[i]).Some? && Ordered(Alternatives(a)[i])
  {
    hide Float64, ToInt64;
  }

  // A coordinate that ties and has another text.
  lemma OtherCoord(f: Formats, c: Double, t: Str) returns (d: Double)
    requires ZerosDiffer(f) && !CoordSure(f, c, t)
    ensures !IsNaN(d) && CmpFloat(d, c) == 0 && DoubleText(f, d) != t
  {
    FloatSwaps(c, c);
    CoordTie(PLUS_ZERO, MINUS_ZERO);
    if IsNaN(c) || IsZero(c) {
      d := if DoubleText(f, PLUS_ZERO) != t then PLUS_ZERO else MINUS_ZERO;
      if !IsNaN(c) { CoordTie(d, c); }
    } else {
      d := c;
    }
  }

  lemma OtherGeo(f: Formats, a: Value, b: Value) returns (w: Value)
    requires ZerosDiffer(f) && a.GeoPoint? && b.GeoPoint? && !Surely(f, a, b)
    ensures Encode(f, b).Some? && Stands(f, w, a) && Misses(f, w, b)
  {
    hide Encode, Includes, CmpFloat;
    var t := if !GeoSure(f, a, DoubleText(f, b.lat)) then DoubleText(f, b.lat) else DoubleText(f, b.lng);
    var lat := OtherCoord(f, a.lat, t);
    var lng := OtherCoord(f, a.lng, t);
    w := GeoPoint(lat, lng);
    GeoEncoded(f, w);
    GeoEncoded(f, b);
    PairIncludes(DoubleText(f, lat), DoubleText(f, lng), DoubleText(f, b.lat), DoubleText(f, b.lng));
    IncludesTagged(Encode(f, w).value, TAG_G, Encode(f, b).value.m[TAG_G]);
  }

  // No element has to include b: elements that do not, all along.
  lemma {:induction false} OtherElems(f: Formats, es: seq<Value>, b: Value) returns (ws: seq<Value>)
    requires ZerosDiffer(f) && Encode(f, b).Some? && forall j :: 0 <= j < |es| ==> Encode(f, es[j]).Some? && !Surely(f, es[j], b)
    ensures |ws| == |es| && forall j :: 0 <= j < |es| ==> Stands(f, ws[j], es[j]) && Misses(f, ws[j], b)
    decreases b, 2, |es|
  {
    hide Encode, Stands, Misses, Surely;
    if es == [] {
      ws := [];
    } else {
      var w := NotSure(f, es[0], b);
      var rest := OtherElems(f, es[1..], b);
      ws := [w] + rest;
    }
  }

  lemma OtherArray(f: Formats, a: Value, b: Value) returns (w: Value)
    requires ZerosDiffer(f) && a.Array? && b.Array? && !Surely(f, a, b) && Encode(f, a).Some? && Encode(f, b).Some?
    ensures Stands(f, w, a) && Misses(f, w, b)
    decreases b, 0
  {
    hide Encode, Compare, Includes, Ordered, Stands, Surely;
    SureArray(f, a, b);
    var i :| 0 <= i < |b.elems| && !SomeSurely(f, a.elems, b.elems[i]);
    EncodedArray(f, a);
    EncodedArray(f, b);
    var ws := OtherElems(f, a.elems, b.elems[i]);
    w := Array(ws);
    ElemsStand(f, w, a);
    StandsEncoded(f, w, a);
    ArrayIncludes(f, w, b);
    assert !ElemIncludes(f, w, b.elems[i]) by {
      forall j | 0 <= j < |ws| ensures !Includes(ElemCode(f, w, j), Encode(f, b.elems[i]).value) { assert Misses(f, ws[j], b.elems[i]); }
    }
  }

  lemma ElemsStand(f: Formats, w: Value, a: Value)
    requires w.Array? && a.Array? && |w.elems| == |a.elems| && forall j :: 0 <= j < |a.elems| ==> Stands(f, w.elems[j], a.elems[j])
    ensures Stands(f, w, a)
  {
    hide Compare;
    hide Encode, Stands;
    ArraysZero(w.elems, a.elems);
    ComparedArrays(w, a);
    forall j | 0 <= j < |w.elems| ensures Encode(f, w.elems[j]).Some? && Ordered(w.elems[j]) && Compare(w.elems[j], a.elems[j]) == 0 {
      StandsEncoded(f, w.elems[j], a.elems[j]);
    }
    ArrayEncodes(f, w);
    StandsIf(f, w, a);
  }

  lemma ArrayEncodes(f: Formats, w: Value)
    requires w.Array? && forall j :: 0 <= j < |w.elems| ==> Encode(f, w.elems[j]).Some?
    ensures Encode(f, w).Some?
  {}

  lemma StandsIf(f: Formats, w: Value, a: Value)
    requires Encode(f, w).Some? && Compare(w, a) == 0 && Ordered(w)
    ensures Stands(f, w, a)
  {}

  // A member that is not there, not seen, or not sure.
  lemma OtherMap(f: Formats, a: Value, b: Value) returns (w: Value)
    requires ZerosDiffer(f) && a.Map? && b.Map? && !Surely(f, a, b) && Encode(f, a).Some? && Encode(f, b).Some?
    ensures Stands(f, w, a) && Misses(f, w, b)
    decreases b, 0
  {
    hide Encode, Compare, Includes, Ordered, Stands, Misses, Surely, Seen;
    var k := Unsure(f, a, b);
    MembersOf(f, a);
    MembersOf(f, b);
    if Seen(a.fields, k) {
      SeenIn(a.fields, k);
      var u := NotSure(f, a.fields[k], b.fields[k]);
      w := WithMember(f, a, k, u);
    } else if k !in a.fields {
      w := Map(Filled(a));
      FillStands(f, a);
      FillVector(a.fields, ZERO);
      assert a == Map(a.fields) && k !in w.fields;
    } else {
      w := Hidden(f, a, k, b.fields[k]);
    }
    StandsEncoded(f, w, a);
    MapMisses(f, w, b, k);
  }

  lemma Unsure(f: Formats, a: Value, b: Value) returns (k: Str)
    requires a.Map? && b.Map? && !Surely(f, a, b)
    ensures k in b.fields && !(Seen(a.fields, k) && Surely(f, a.fields[k], b.fields[k]))
  {
    k :| k in b.fields && !(Seen(a.fields, k) && Surely(f, a.fields[k], b.fields[k]));
  }

  lemma SeenIn(m: Fields, k: Str)
    requires Seen(m, k)
    ensures k in m
  {}

  lemma MapMisses(f: Formats, w: Value, b: Value, k: Str)
    requires w.Map? && b.Map? && Encode(f, w).Some? && Encode(f, b).Some?
    requires k in b.fields && Encode(f, b.fields[k]).Some? && (k in w.fields ==> Misses(f, w.fields[k], b.fields[k]))
    ensures Misses(f, w, b)
  {
    hide Encode, Includes;
    MembersOf(f, w);
    MapIncludes(f, w, b);
  }

  // The filled map with another equal member.
  lemma WithMember(f: Formats, a: Value, k: Str, u: Value) returns (w: Value)
    requires a.Map? && Encode(f, a).Some? && Seen(a.fields, k) && Stands(f, u, a.fields[k])
    ensures Stands(f, w, a) && w.Map? && k in w.fields && w.fields[k] == u
  {
    hide Compare, Encode, Ordered, Fill, SortedKeys;
    var g := Filled(a);
    FillStands(f, a);
    StandsEncoded(f, Fill(a, ZERO), a);
    MembersOf(f, a);
    MembersOf(f, Fill(a, ZERO));
    FillVector(a.fields, ZERO);
    w := Map(g[k := u]);
    MembersOf(f, w);
    MemberTies(a, k, u);
    MemberOrdered(a, k, u);
  }

  lemma StringAlone(u: Value, s: Value)
    requires Compare(u, s) == 0 && (u.String? || s.String?)
    ensures u == s
  {
    if u.String? && s.String? { CompareZero(u.s, s.s); }
  }

  lemma StillVector(a: Value, k: Str, u: Value)
    requires a.Map? && Seen(a.fields, k) && Compare(u, a.fields[k]) == 0
    ensures var g := Filled(a); k in g && (IsVector(g[k := u]) <==> IsVector(a.fields))
  {
    hide Compare;
    FillVector(a.fields, ZERO);
    if k == TYPE_KEY && (u.String? || a.fields[k].String?) { StringAlone(u, a.fields[k]); }
    FillString(a.fields[k], ZERO);
  }

  lemma MemberTies(a: Value, k: Str, u: Value)
    requires a.Map? && Seen(a.fields, k) && Compare(u, a.fields[k]) == 0
    ensures k in Filled(a) && Compare(Map(Filled(a)[k := u]), a) == 0
  {
    hide Compare, SortedKeys, Fill;
    var m, g := a.fields, Filled(a);
    FillVector(m, ZERO);
    StillVector(a, k, u);
    var w := Map(g[k := u]);
    if IsVector(m) {
      VectorTies(a, k, u);
    } else {
      forall j | j in m ensures Compare(w.fields[j], m[j]) == 0 {
        FillTies(m[j], ZERO);
        Swaps(m[j], Fill(m[j], ZERO));
      }
      assert w.fields.Keys == m.Keys;
      EntriesZero(w, a, SortedKeys(m.Keys));
      ComparedMaps(w, a);
    }
  }

  lemma VectorTies(a: Value, k: Str, u: Value)
    requires a.Map? && IsVector(a.fields) && Seen(a.fields, k) && Compare(u, a.fields[k]) == 0
    ensures k in Filled(a) && Compare(Map(Filled(a)[k := u]), a) == 0
  {
    hide Compare, Fill;
    var m, g := a.fields, Filled(a);
    FillVector(m, ZERO);
    StillVector(a, k, u);
    var w := Map(g[k := u]);
    if k == TYPE_KEY {
      StringAlone(u, m[k]);
      assert w == Fill(a, ZERO);
      FillTies(a, ZERO);
      Swaps(a, w);
    } else {
      EqualArrays(u, m[k]);
      ArraysZero(VectorElems(w.fields), VectorElems(m));
      ComparedVectors(w, a);
    }
  }

  lemma MemberOrdered(a: Value, k: Str, u: Value)
    requires a.Map? && Seen(a.fields, k) && Compare(u, a.fields[k]) == 0 && Ordered(u)
    ensures k in Filled(a) && Ordered(Map(Filled(a)[k := u]))
  {
    hide Compare, Fill;
    FillVector(a.fields, ZERO);
    StillVector(a, k, u);
    FillTies(a, ZERO);
    if IsVector(a.fields) && k == VALUE_KEY { EqualArrays(u, a.fields[k]); }
  }

  // A vector with another member that the order does not see.
  lemma Hidden(f: Formats, a: Value, k: Str, b: Value) returns (w: Value)
    requires a.Map? && Encode(f, a).Some? && Encode(f, b).Some? && k in a.fields && !Seen(a.fields, k)
    ensures Stands(f, w, a) && w.Map? && (k in w.fields ==> Misses(f, w.fields[k], b))
  {
    hide Compare, Encode, Ordered, Fill, Includes, TagOf;
    var g := Filled(a);
    FillStands(f, a);
    StandsEncoded(f, Fill(a, ZERO), a);
    MembersOf(f, Fill(a, ZERO));
    FillVector(a.fields, ZERO);
    if k == VALUE_KEY {
      var r := if b.Null? then Bool(true) else Null;
      OtherTag(f, r, b);
      IncludesTag(f, r, b);
      w := Map(g[k := r]);
      NoElems(w, a);
    } else {
      w := Map(map j | j in g && j != k :: g[j]);
      SameElements(w, a);
    }
    MembersOf(f, w);
  }

  lemma OtherTag(f: Formats, r: Value, b: Value)
    requires r == if b.Null? then Bool(true) else Null
    ensures Encode(f, r).Some? && TagOf(r) != TagOf(b)
  {}

  lemma NoElems(w: Value, a: Value)
    requires w.Map? && a.Map? && IsVector(w.fields) && IsVector(a.fields) && VectorElems(w.fields) == [] == VectorElems(a.fields)
    ensures Compare(w, a) == 0 && Ordered(w)
  {}

  lemma SameElements(w: Value, a: Value)
    requires w.Map? && a.Map? && IsVector(w.fields) && IsVector(a.fields)
    requires VectorElems(w.fields) == VectorElems(Filled(a)) && IsVector(Filled(a))
    ensures Compare(w, a) == 0 && Ordered(w)
  {
    hide Compare, Fill;
    var v := Fill(a, ZERO);
    FillTies(a, ZERO);
    Swaps(a, v);
    EqualVectors(v, a);
    ComparedVectors(w, a);
  }

  // ---------------------------------------------------------------- theorem

  // Every equal value includes the operand's encoding exactly when the operand is
  // sure of itself.
  lemma SurelyExact(f: Formats, v: Value)
    requires ZerosDiffer(f) && Encode(f, v).Some?
    ensures Surely(f, v, v) <==>
      forall w :: Stands(f, w, v) ==> Encode(f, w).Some? && Includes(Encode(f, w).value, Encode(f, v).value)
  {
    hide Encode, Compare, Includes, Ordered, Surely, SomeSurely;
    if Surely(f, v, v) {
      forall w | Stands(f, w, v) ensures Encode(f, w).Some? && Includes(Encode(f, w).value, Encode(f, v).value) {
        SurelyIncludes(f, w, v, v);
      }
    } else {
      var w := NotSure(f, v, v);
    }
  }

  // ---------------------------------------------------- the test on the operand

  // What a caller can look at: no number with a second spelling, no coordinate that is
  // zero or NaN, and no member of a vector but its type and its elements.
  predicate Plain(v: Value)
    decreases v
  {
    match v
    case Integer(_) => Alternatives(v) == [v]
    case DoubleV(_) => Alternatives(v) == [v]
    case GeoPoint(lat, lng) => !IsNaN(lat) && !IsZero(lat) && !IsNaN(lng) && !IsZero(lng)
    case Array(es) => forall i :: 0 <= i < |es| ==> Plain(es[i])
    case Map(m) => (IsVector(m) ==> m.Keys == {TYPE_KEY, VALUE_KEY}) && forall k :: k in m ==> Plain(m[k])
    case _ => true
  }

  // A vector without elements is no better than one whose payload is no array.
  predicate NoEmptyVector(v: Value)
    decreases v
  {
    match v
    case Array(es) => forall i :: 0 <= i < |es| ==> NoEmptyVector(es[i])
    case Map(m) => (IsVector(m) ==> VectorElems(m) != []) && forall k :: k in m ==> NoEmptyVector(m[k])
    case _ => true
  }

  lemma {:induction false} PlainSure(f: Formats, v: Value)
    requires Plain(v) && NoEmptyVector(v) && Encode(f, v).Some?
    ensures Surely(f, v, v)
    decreases v
  {
    hide Encode, Alternatives, Surely;
    match v
    case GeoPoint(lat, lng) => SureGeo(f, v, v);
    case Array(es) =>
      SureArray(f, v, v);
      EncodedArray(f, v);
      forall i | 0 <= i < |es| ensures SomeSurely(f, es, es[i]) { PlainSure(f, es[i]); }
    case Map(m) =>
      SureMap(f, v, v);
      MembersOf(f, v);
      forall k | k in m ensures Seen(m, k) && Surely(f, m[k], m[k]) { PlainSure(f, m[k]); }
    case Unknown => UnknownHasNone(f, v);
    case _ =>
      SureScalar(f, v, v);
      OneSpelling(v);
  }

  lemma OneSpelling(v: Value)
    requires Scalar(v) && Plain(v)
    ensures Alternatives(v) == [v]
  {}

  lemma {:induction false} SurePlain(f: Formats, a: Value, b: Value)
    requires Injective(f) && Surely(f, a, b) && Encode(f, a).Some? && Encode(f, b).Some?
    ensures Plain(b)
    decreases b
  {
    hide Encode, Alternatives, Injective, Plain, Surely, SomeSurely, GeoSure;
    match b
    case GeoPoint(_, _) =>
      SureGeo(f, a, b);
      GeoPlain(f, a, b);
    case Array(bs) =>
      SureArray(f, a, b);
      EncodedArray(f, a);
      EncodedArray(f, b);
      forall i | 0 <= i < |bs| ensures Plain(bs[i]) {
        var j := TheSure(f, a.elems, bs[i]);
        SurePlain(f, a.elems[j], bs[i]);
      }
      PlainIf(b);
    case Map(bm) =>
      SureMap(f, a, b);
      MembersOf(f, a);
      MembersOf(f, b);
      forall k | k in bm ensures Plain(bm[k]) { SurePlain(f, a.fields[k], bm[k]); }
      if IsVector(bm) { VectorPlain(f, a, b); }
      PlainIf(b);
    case Unknown => UnknownHasNone(f, b);
    case _ => ScalarPlain(f, a, b);
  }

  lemma PlainIf(b: Value)
    requires b.Array? ==> forall i :: 0 <= i < |b.elems| ==> Plain(b.elems[i])
    requires b.Map? ==> (IsVector(b.fields) ==> b.fields.Keys == {TYPE_KEY, VALUE_KEY}) && forall k :: k in b.fields ==> Plain(b.fields[k])
    ensures b.Array? || b.Map? ==> Plain(b)
  {}

  lemma GeoPlain(f: Formats, a: Value, b: Value)
    requires Injective(f) && a.GeoPoint? && b.GeoPoint? && GeoSure(f, a, DoubleText(f, b.lat)) && GeoSure(f, a, DoubleText(f, b.lng))
    ensures Plain(b)
  {
    assert DoubleText(f, PLUS_ZERO) != DoubleText(f, MINUS_ZERO);
  }

  lemma VectorPlain(f: Formats, a: Value, b: Value)
    requires Injective(f) && a.Map? && b.Map? && IsVector(b.fields)
    requires forall k :: k in b.fields ==> Seen(a.fields, k) && Surely(f, a.fields[k], b.fields[k])
    ensures b.fields.Keys == {TYPE_KEY, VALUE_KEY}
  {
    hide Injective;
    var t := a.fields[TYPE_KEY];
    SureScalar(f, t, b.fields[TYPE_KEY]);
    ItselfFirst(t);
    EncodeInjective(f, t, b.fields[TYPE_KEY]);
    assert IsVector(a.fields);
    forall k | k in b.fields ensures k in {TYPE_KEY, VALUE_KEY} {}
  }

  lemma ItselfFirst(v: Value)
    ensures Alternatives(v) != [] && Alternatives(v)[0] == v
  {
    hide Float64, ToInt64;
  }

  lemma ScalarPlain(f: Formats, a: Value, b: Value)
    requires Injective(f) && Scalar(b) && Surely(f, a, b) && Encode(f, b).Some?
    ensures Plain(b)
  {
    hide Injective, Encode, Alternatives, Surely;
    if IsNaNValue(b) {
      NaNAlone(b);
    } else if TypeOrder(b) == 3 {
      SureScalar(f, a, b);
      ItselfFirst(a);
      forall i | 0 <= i < |Alternatives(a)| ensures Alternatives(a)[i] == b { EncodeInjective(f, Alternatives(a)[i], b); }
      NoTwin(b);
    }
  }

  // Alternatives that are all the same are one.
  lemma NoTwin(v: Value)
    requires TypeOrder(v) == 3 && forall i :: 0 <= i < |Alternatives(v)| ==> Alternatives(v)[i] == v
    ensures Alternatives(v) == [v]
  {
    hide Alternatives;
    ItselfFirst(v);
    if |Alternatives(v)| > 1 {
      TwinDiffers(v);
      assert false;
    }
    assert Alternatives(v) == [Alternatives(v)[0]];
  }

  lemma TwinDiffers(v: Value)
    requires TypeOrder(v) == 3 && |Alternatives(v)| > 1
    ensures Alternatives(v)[1] != v || (|Alternatives(v)| > 2 && Alternatives(v)[2] != v)
  {
    hide Float64, ToInt64;
  }

  // For operands without an empty vector the test is exact.
  lemma PlainExact(f: Formats, v: Value)
    requires Injective(f) && Encode(f, v).Some? && NoEmptyVector(v)
    ensures Surely(f, v, v) <==> Plain(v)
  {
    hide Injective, Encode, Surely, Plain, NoEmptyVector;
    if Surely(f, v, v) { SurePlain(f, v, v); }
    if Plain(v) { PlainSure(f, v); }
  }
}
