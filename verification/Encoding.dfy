// The tagged JSON tree documents are stored as (internal/value/value.go), and jsonb
// containment.
module Encoding {
  import opened Bytes
  import opened Numbers
  import opened Values
  import opened SortKeys
  import opened FieldPaths
  import opened Conversions
  import opened Storage

  datatype Json = JNull | JBool(b: bool) | JStr(s: Str) | JArr(es: seq<Json>) | JObj(m: map<Str, Json>)

  // The text of numbers, times and bytes, whatever it is. A time out of range has
  // none.
  datatype Formats = Formats(decimal: Int64 -> Str, dbl: Double -> Str, time: (Int64, Int32) -> Option<Str>, base64: Str -> Str)

  const TAG_Z: Str := [0x7A]
  const TAG_B: Str := [0x62]
  const TAG_I: Str := [0x69]
  const TAG_D: Str := [0x64]
  const TAG_T: Str := [0x74]
  const TAG_S: Str := [0x73]
  const TAG_S0: Str := [0x73, 0x30]
  const TAG_Y: Str := [0x79]
  const TAG_R: Str := [0x72]
  const TAG_G: Str := [0x67]
  const TAG_A: Str := [0x61]
  const TAG_M: Str := [0x6D]

  function Tagged(tag: Str, payload: Json): Json { JObj(map[tag := payload]) }

  // formatDouble: one text, "NaN", for all NaNs.
  function DoubleText(f: Formats, d: Double): Str { if IsNaN(d) then [0x4E, 0x61, 0x4E] else f.dbl(d) }

  // ------------------------------------------------------------------- encode

  // None is an encoding error.
  function Encode(f: Formats, v: Value): Option<Json>
    decreases v
  {
    match v
    case Null => Some(Tagged(TAG_Z, JNull))
    case Bool(b) => Some(Tagged(TAG_B, JBool(b)))
    case Integer(x) => Some(Tagged(TAG_I, JStr(f.decimal(x))))
    case DoubleV(d) => Some(Tagged(TAG_D, JStr(DoubleText(f, d))))
    case Timestamp(s, n) => if f.time(s, n).None? then None else Some(Tagged(TAG_T, JStr(f.time(s, n).value)))
    case String(s) => if HasNul(s) then Some(Tagged(TAG_S0, JStr(f.base64(s)))) else Some(Tagged(TAG_S, JStr(s)))
    case BytesV(bs) => Some(Tagged(TAG_Y, JStr(f.base64(bs))))
    case Reference(r) => if HasNul(r) then None else Some(Tagged(TAG_R, JStr(r)))
    case GeoPoint(lat, lng) => Some(Tagged(TAG_G, JArr([JStr(DoubleText(f, lat)), JStr(DoubleText(f, lng))])))
    case Array(es) =>
      if exists i :: 0 <= i < |es| && Encode(f, es[i]).None? then None
      else Some(Tagged(TAG_A, JArr(seq(|es|, i requires 0 <= i < |es| => Encode(f, es[i]).value))))
    case Map(m) =>
      if exists k :: k in m && (HasNul(k) || Encode(f, m[k]).None?) then None
      else Some(Tagged(TAG_M, JObj(map k | k in m :: Encode(f, m[k]).value)))
    case Unknown => None
  }

  // The data column: the map payload of the document's root.
  function Data(f: Formats, fields: Fields): Option<Json> {
    var root := Encode(f, Map(fields));
    if root.None? then None else Some(root.value.m[TAG_M])
  }

  // The texts are those of formatTimestamp, as far as reading back
  // goes: one text per microsecond of the range.
  ghost predicate StorageText(f: Formats) {
    && (forall s, n :: f.time(s, n).Some? <==> InRange(s, n))
    && (forall s, n :: InRange(s, n) ==>
          f.time(StoreTime(s, n).value.seconds, StoreTime(s, n).value.nanos) == f.time(s, n))
  }

  // A value encodes exactly when it can be stored, and what it reads back as has
  // the same encoding.
  lemma {:induction false} EncodeStored(f: Formats, v: Value)
    requires StorageText(f)
    ensures Encode(f, v).Some? <==> Store(v).Some?
    ensures Store(v).Some? ==> Encode(f, Store(v).value) == Encode(f, v)
    decreases v
  {
    match v
    case Array(es) =>
      forall i | 0 <= i < |es|
        ensures (Encode(f, es[i]).Some? <==> Store(es[i]).Some?) && (Store(es[i]).Some? ==> Encode(f, Store(es[i]).value) == Encode(f, es[i]))
      {
        EncodeStored(f, es[i]);
      }
      if Store(v).Some? { SameElems(f, v, Store(v).value); }
    case Map(m) =>
      forall k | k in m
        ensures (Encode(f, m[k]).Some? <==> Store(m[k]).Some?) && (Store(m[k]).Some? ==> Encode(f, Store(m[k]).value) == Encode(f, m[k]))
      {
        EncodeStored(f, m[k]);
      }
      if Store(v).Some? { SameMembers(f, v, Store(v).value); }
    case _ =>
  }

  lemma SameMembers(f: Formats, v: Value, w: Value)
    requires v.Map? && w.Map? && v.fields.Keys == w.fields.Keys
    requires forall k :: k in v.fields ==> Encode(f, w.fields[k]) == Encode(f, v.fields[k])
    ensures Encode(f, w) == Encode(f, v)
  {
    hide Encode, HasNul;
    MembersOf(f, v);
    MembersOf(f, w);
    if Encode(f, v).Some? {
      var a, b := Members(f, v), Members(f, w);
      forall k | k in a ensures a[k] == b[k] { assert Encode(f, w.fields[k]) == Encode(f, v.fields[k]); }
      assert a == b;
    }
  }

  predicate AllEncode(f: Formats, v: Value)
    requires v.Map?
  {
    forall k :: k in v.fields ==> !HasNul(k) && Encode(f, v.fields[k]).Some?
  }

  function Members(f: Formats, v: Value): map<Str, Json>
    requires v.Map? && AllEncode(f, v)
  {
    map k | k in v.fields :: Encode(f, v.fields[k]).value
  }

  lemma MembersOf(f: Formats, v: Value)
    requires v.Map?
    ensures Encode(f, v) == if AllEncode(f, v) then Some(Tagged(TAG_M, JObj(Members(f, v)))) else None
  {}

  lemma SameElems(f: Formats, v: Value, w: Value)
    requires v.Array? && w.Array? && |v.elems| == |w.elems|
    requires forall i :: 0 <= i < |v.elems| ==> Encode(f, w.elems[i]) == Encode(f, v.elems[i])
    ensures Encode(f, w) == Encode(f, v)
  {
    if Encode(f, v).Some? {
      var a, b := Encode(f, v).value.m[TAG_A], Encode(f, w).value.m[TAG_A];
      assert a.es == b.es;
    }
  }

  // -------------------------------------------------------- jsonb containment

  // a @> b.
  predicate Includes(a: Json, b: Json)
    decreases b, 0
  {
    match b
    case JObj(m) => a.JObj? && forall k :: k in m ==> k in a.m && Includes(a.m[k], m[k])
    case JArr(es) => a.JArr? && forall i :: 0 <= i < |es| ==> SomeIncludes(a.es, es[i])
    case _ => a == b
  }

  predicate SomeIncludes(es: seq<Json>, b: Json)
    decreases b, 1
  {
    exists j :: 0 <= j < |es| && Includes(es[j], b)
  }

  lemma IncludesTagged(a: Json, tag: Str, payload: Json)
    ensures Includes(a, Tagged(tag, payload)) <==> a.JObj? && tag in a.m && Includes(a.m[tag], payload)
  {
    var m := map[tag := payload];
    assert m[tag] == payload;
  }

  lemma DataAt(f: Formats, fields: Fields, k: Str)
    requires Data(f, fields).Some?
    ensures var a := Data(f, fields).value;
      && a.JObj? && (k in a.m <==> k in fields)
      && (k in fields ==> Encode(f, fields[k]) == Some(a.m[k]))
  {
    assert Map(fields).Map?;
  }

  // Only maps carry the map tag, only arrays the array tag.
  lemma EncodedMap(f: Formats, v: Value)
    requires Encode(f, v).Some?
    ensures Encode(f, v).value.JObj?
    ensures TAG_M in Encode(f, v).value.m <==> v.Map?
    ensures v.Map? ==> Data(f, v.fields) == Some(Encode(f, v).value.m[TAG_M])
  {}

  lemma EncodedArray(f: Formats, v: Value)
    requires Encode(f, v).Some?
    ensures Encode(f, v).value.JObj?
    ensures TAG_A in Encode(f, v).value.m <==> v.Array?
    ensures v.Array? ==>
      var a := Encode(f, v).value.m[TAG_A];
      a.JArr? && |a.es| == |v.elems| && forall i :: 0 <= i < |v.elems| ==> Encode(f, v.elems[i]) == Some(a.es[i])
  {}

  // ------------------------------------------------------------------ scalars

  predicate Scalar(v: Value) { !v.GeoPoint? && !v.Array? && !v.Map? && !v.Unknown? }

  // Including a scalar's encoding is having that encoding.
  lemma IncludesScalar(f: Formats, w: Value, v: Value)
    requires Scalar(v) && Encode(f, w).Some? && Encode(f, v).Some?
    ensures Includes(Encode(f, w).value, Encode(f, v).value) <==> Encode(f, w) == Encode(f, v)
  {
    var a, b := Encode(f, w).value, Encode(f, v).value;
    var tag, payload := ScalarTag(f, v);
    IncludesTagged(a, tag, payload);
    if tag in a.m { OneTag(f, w, tag); }
  }

  lemma ScalarTag(f: Formats, v: Value) returns (tag: Str, payload: Json)
    requires Scalar(v) && Encode(f, v).Some?
    ensures Encode(f, v).value == Tagged(tag, payload) && !payload.JObj? && !payload.JArr?
  {
    TagIs(f, v);
    tag := TagOf(v);
    payload := Encode(f, v).value.m[tag];
  }

  lemma OneTag(f: Formats, w: Value, tag: Str)
    requires Encode(f, w).Some? && tag in Encode(f, w).value.m
    ensures Encode(f, w).value == Tagged(tag, Encode(f, w).value.m[tag])
  {}

  // The texts tell their arguments apart; times are left out, their text drops
  // what is below the microsecond.
  ghost predicate Injective(f: Formats) {
    && (forall x: Int64, y: Int64 :: f.decimal(x) == f.decimal(y) ==> x == y)
    && (forall x: Double, y: Double :: DoubleText(f, x) == DoubleText(f, y) ==> x == y || (IsNaN(x) && IsNaN(y)))
    && (forall x, y :: f.base64(x) == f.base64(y) ==> x == y)
  }

  lemma EncodeInjective(f: Formats, w: Value, v: Value)
    requires Injective(f) && Scalar(v) && !v.Timestamp? && !IsNaNValue(v) && Encode(f, v).Some? && Encode(f, w) == Encode(f, v)
    ensures w == v
  {
    var a := Encode(f, v).value.m;
    SameTag(f, w, v);
    match v
    case Integer(x) => assert a[TAG_I] == JStr(f.decimal(x)) == JStr(f.decimal(w.x));
    case DoubleV(d) => assert a[TAG_D] == JStr(DoubleText(f, d)) == JStr(DoubleText(f, w.d));
    case String(s) =>
      if HasNul(s) { assert a[TAG_S0] == JStr(f.base64(s)) == JStr(f.base64(w.s)); } else { assert a[TAG_S] == JStr(s) == JStr(w.s); }
    case BytesV(s) => assert a[TAG_Y] == JStr(f.base64(s)) == JStr(f.base64(w.bs));
    case Reference(r) => assert a[TAG_R] == JStr(r) == JStr(w.name);
    case Bool(b) => assert a[TAG_B] == JBool(b) == JBool(w.b);
    case _ =>
  }

  function TagOf(v: Value): Str {
    match v
    case Null => TAG_Z
    case Bool(_) => TAG_B
    case Integer(_) => TAG_I
    case DoubleV(_) => TAG_D
    case Timestamp(_, _) => TAG_T
    case String(s) => if HasNul(s) then TAG_S0 else TAG_S
    case BytesV(_) => TAG_Y
    case Reference(_) => TAG_R
    case GeoPoint(_, _) => TAG_G
    case Array(_) => TAG_A
    case Map(_) => TAG_M
    case Unknown => []
  }

  lemma TagIs(f: Formats, v: Value)
    requires Encode(f, v).Some?
    ensures Encode(f, v).value.JObj? && Encode(f, v).value.m.Keys == {TagOf(v)}
  {}

  lemma SameTag(f: Formats, w: Value, v: Value)
    requires Encode(f, v).Some? && Encode(f, w) == Encode(f, v)
    ensures TagOf(w) == TagOf(v)
  {
    hide Encode, TagOf;
    TagIs(f, w);
    TagIs(f, v);
    assert TagOf(w) in Encode(f, v).value.m.Keys;
  }

  // A value equals a scalar operand exactly when it is one of the probed ones.
  lemma ScalarAlternatives(w: Value, v: Value)
    requires Scalar(v) && !IsNaNValue(v)
    ensures Compare(w, v) == 0 <==> w in Alternatives(v)
  {
    if TypeOrder(v) == 3 {
      NumberTwins(w, v);
    } else if TypeOrder(w) == TypeOrder(v) {
      match v
      case String(s) => CompareZero(w.s, s);
      case BytesV(s) => CompareZero(w.bs, s);
      case Reference(r) => NamesEqual(w.name, r);
      case _ =>
    }
  }

  lemma AlternativesScalar(v: Value, i: nat)
    requires Scalar(v) && !IsNaNValue(v) && i < |Alternatives(v)|
    ensures var u := Alternatives(v)[i]; Scalar(u) && !IsNaNValue(u) && (u.Timestamp? ==> v.Timestamp?)
  {
    hide Float64, ToInt64;
  }
}
