// The order of kinds and what it means within each, as internal/value/compare.go and
// the byte table of internal/value/sortkey.go give them: over the constructors of
// values, without the ranking the comparison uses.
module Kinds {
  import opened Bytes
  import opened Numbers
  import opened Values
  import opened SortKeys
  import opened Orders
  import opened Storage

  datatype Kind =
    | NullKind | BoolKind | NaNKind | NumberKind | TimestampKind | StringKind
    | BytesKind | ReferenceKind | GeoPointKind | ArrayKind | VectorKind | MapKind | UnknownKind

  function KindOf(v: Value): Kind {
    match v
    case Null => NullKind
    case Bool(_) => BoolKind
    case Integer(_) => NumberKind
    case DoubleV(d) => if IsNaN(d) then NaNKind else NumberKind
    case Timestamp(_, _) => TimestampKind
    case String(_) => StringKind
    case BytesV(_) => BytesKind
    case Reference(_) => ReferenceKind
    case GeoPoint(_, _) => GeoPointKind
    case Array(_) => ArrayKind
    case Map(m) => if IsVector(m) then VectorKind else MapKind
    case Unknown => UnknownKind
  }

  // From the least kind to the greatest, and the first byte of each one's keys.
  const KINDS: seq<Kind> := [
    NullKind, BoolKind, NaNKind, NumberKind, TimestampKind, StringKind,
    BytesKind, ReferenceKind, GeoPointKind, ArrayKind, VectorKind, MapKind, UnknownKind]

  const FIRST_BYTES: seq<byte> := [0x10, 0x18, 0x20, 0x28, 0x30, 0x38, 0x40, 0x48, 0x50, 0x58, 0x5C, 0x60, 0xFE]

  lemma KindPlace(v: Value) returns (i: nat)
    ensures i < |KINDS| && KINDS[i] == KindOf(v) && TypeOrder(v) == i
  {
    i := TypeOrder(v);
  }

  lemma KindsDistinct(i: nat, j: nat)
    requires i < |KINDS| && j < |KINDS| && KINDS[i] == KINDS[j]
    ensures i == j
  {}

  // A value of an earlier kind comes first, whatever the two are.
  lemma EarlierKind(a: Value, b: Value, i: nat, j: nat)
    requires i < j < |KINDS| && KindOf(a) == KINDS[i] && KindOf(b) == KINDS[j]
    ensures Compare(a, b) == -1 && Compare(b, a) == 1
    ensures Less(SortKey(a), SortKey(b)) && Less(SortKeyOf(b, true), SortKeyOf(a, true))
  {
    hide Compare, SortKey, CompareBytes;
    var p := KindPlace(a);
    var q := KindPlace(b);
    KindsDistinct(p, i);
    KindsDistinct(q, j);
    AcrossTypes(a, b);
    AcrossTypes(b, a);
    KeyFirst(a);
    KeyFirst(b);
    FirstBytesDecide(SortKey(a), SortKey(b));
    ComplementFirst(SortKey(a));
    ComplementFirst(SortKey(b));
    FirstBytesDecide(SortKeyOf(b, true), SortKeyOf(a, true));
  }

  function SortKeyOf(v: Value, desc: bool): seq<byte> { if desc then Complement(SortKey(v)) else SortKey(v) }

  lemma ComplementFirst(s: seq<byte>)
    requires s != []
    ensures Complement(s) != [] && Complement(s)[0] == 255 - s[0]
  {}

  lemma FirstBytesDecide(s: seq<byte>, t: seq<byte>)
    requires s != [] && t != [] && s[0] < t[0]
    ensures Less(s, t)
  {}

  // The first byte of a key is the one in the table.
  lemma KeyFirst(v: Value)
    ensures SortKey(v) != []
    ensures forall i :: 0 <= i < |KINDS| && KINDS[i] == KindOf(v) ==> SortKey(v)[0] == FIRST_BYTES[i]
  {
    hide Body;
    var p := KindPlace(v);
    forall i | 0 <= i < |KINDS| && KINDS[i] == KindOf(v) ensures i == p { KindsDistinct(i, p); }
  }

  // ----------------------------------------------------------- within one kind

  // False before true; a timestamp by seconds, then nanos; strings and bytes by their
  // bytes; a geopoint by latitude, then longitude.
  lemma ScalarOrder(s: Int64, m: Int32, t: Int64, n: Int32, a: Str, b: Str)
    ensures Compare(Bool(false), Bool(true)) == -1
    ensures Compare(Timestamp(s, m), Timestamp(t, n)) == -1 <==> s < t || (s == t && m < n)
    ensures Compare(String(a), String(b)) == -1 <==> Less(a, b)
    ensures Compare(BytesV(a), BytesV(b)) == -1 <==> Less(a, b)
  {
    CompareSwap(a, b);
  }

  // Doubles by magnitude and sign, in units of 2^-1074.
  lemma DoubleOrder(d: Double, e: Double)
    requires d.exp < 2047 && e.exp < 2047
    ensures Compare(DoubleV(d), DoubleV(e)) == CmpInt(Units(d), Units(e))
  {
    hide Magnitude;
    EqualNumber(d);
    EqualNumber(e);
    CompareNumbersExact(Dbl(d), Dbl(e));
  }

  lemma EqualNumber(d: Double)
    requires d.exp < 2047
    ensures !IsNaN(d) && ExactDouble(d).Fin? && ExactDouble(d).n == Units(d)
  {
    hide Magnitude;
  }

  lemma IntOrder(x: Int64, y: Int64)
    ensures Compare(Integer(x), Integer(y)) == CmpInt(x, y)
  {}

  // A geopoint by latitude, then by longitude; both zeros are one.
  lemma GeoOrder(a: Double, b: Double, c: Double, d: Double)
    requires !IsNaN(a) && !IsNaN(b) && !IsNaN(c) && !IsNaN(d)
    ensures var lat, lng := Compare(DoubleV(a), DoubleV(c)), Compare(DoubleV(b), DoubleV(d));
      Compare(GeoPoint(a, b), GeoPoint(c, d)) == if lat != 0 then lat else lng
  {
    hide CmpFloat;
    FloatNumbers(a, c);
    FloatNumbers(b, d);
    GeoParts(a, b, c, d);
  }

  lemma GeoParts(a: Double, b: Double, c: Double, d: Double)
    ensures Compare(GeoPoint(a, b), GeoPoint(c, d)) == if CmpFloat(a, c) != 0 then CmpFloat(a, c) else CmpFloat(b, d)
  {
    hide CmpFloat;
  }

  lemma FloatNumbers(a: Double, c: Double)
    requires !IsNaN(a) && !IsNaN(c)
    ensures Compare(DoubleV(a), DoubleV(c)) == CmpFloat(a, c)
  {}

  // Bytes by the first that differs; where there is none the shorter string is first.
  lemma {:induction false} ByteOrder(p: seq<byte>, x: byte, y: byte, a: seq<byte>, b: seq<byte>)
    requires x < y
    ensures CompareBytes(p + [x] + a, p + [y] + b) == -1 && CompareBytes(p + [y] + b, p + [x] + a) == 1
    ensures CompareBytes(p, p + [y] + b) == -1
    decreases |p|
  {
    if p == [] {
      assert p + [x] + a == [x] + a && p + [y] + b == [y] + b;
    } else {
      ByteOrder(p[1..], x, y, a, b);
      assert (p + [x] + a)[1..] == p[1..] + [x] + a && (p + [y] + b)[1..] == p[1..] + [y] + b;
    }
  }

  // Names by their first differing segment; where there is none the shorter is first.
  lemma {:induction false} NameOrder(p: seq<Str>, x: Str, y: Str, a: seq<Str>, b: seq<Str>)
    requires x != y
    ensures CompareSegments(p + [x] + a, p + [y] + b) == CompareBytes(x, y) != 0
    ensures CompareSegments(p, p + [y] + b) == -1
    decreases |p|
  {
    hide CompareBytes;
    CompareZero(x, y);
    if p == [] {
      assert p + [x] + a == [x] + a && p + [y] + b == [y] + b;
      assert CompareSegments([], [y] + b) == -1;
    } else {
      CompareRefl(p[0]);
      NameOrder(p[1..], x, y, a, b);
      assert (p + [x] + a)[1..] == p[1..] + [x] + a && (p + [y] + b)[1..] == p[1..] + [y] + b;
    }
  }

  lemma ReferenceOrder(a: Str, b: Str)
    ensures Compare(Reference(a), Reference(b)) == CompareSegments(Segments(a), Segments(b))
  {}

  // Arrays by their first elements that differ; where there are none the shorter is
  // first.
  lemma {:induction false} ArrayOrder(p: seq<Value>, x: Value, y: Value, a: seq<Value>, b: seq<Value>)
    requires Compare(x, y) != 0
    ensures Compare(Array(p + [x] + a), Array(p + [y] + b)) == Compare(x, y)
    ensures Compare(Array(p), Array(p + [y] + b)) == -1
  {
    hide Compare;
    ComparedArrays(Array(p + [x] + a), Array(p + [y] + b));
    ComparedArrays(Array(p), Array(p + [y] + b));
    ElementOrder(p, x, y, a, b);
  }

  lemma {:induction false} ElementOrder(p: seq<Value>, x: Value, y: Value, a: seq<Value>, b: seq<Value>)
    requires Compare(x, y) != 0
    ensures CompareArrays(p + [x] + a, p + [y] + b) == Compare(x, y)
    ensures CompareArrays(p, p + [y] + b) == -1
    decreases |p|
  {
    hide Compare;
    if p == [] {
      assert p + [x] + a == [x] + a && p + [y] + b == [y] + b;
    } else {
      Swaps(p[0], p[0]);
      ElementOrder(p[1..], x, y, a, b);
      assert (p + [x] + a)[1..] == p[1..] + [x] + a && (p + [y] + b)[1..] == p[1..] + [y] + b;
    }
  }

  // Vectors by length before anything else, then as arrays.
  lemma VectorOrder(v: Value, w: Value)
    requires v.Map? && w.Map? && IsVector(v.fields) && IsVector(w.fields)
    ensures var a, b := VectorElems(v.fields), VectorElems(w.fields);
      && (|a| < |b| ==> Compare(v, w) == -1)
      && (|a| == |b| ==> Compare(v, w) == Compare(Array(a), Array(b)))
  {}

  // Maps by their first entry that differs, in byte order of the keys: the key decides,
  // then the value; where there is none the smaller map is first.
  lemma EntryOrder(v: Value, w: Value, p: seq<Str>, x: Str, y: Str, a: seq<Str>, b: seq<Str>)
    requires v.Map? && w.Map? && !IsVector(v.fields) && !IsVector(w.fields)
    requires forall k :: k in p ==> k in v.fields && k in w.fields && Compare(v.fields[k], w.fields[k]) == 0
    requires SortedKeys(v.fields.Keys) == p + ([x] + a) && SortedKeys(w.fields.Keys) == p + ([y] + b)
    ensures x in v.fields && y in w.fields
    ensures x != y ==> Compare(v, w) == CompareBytes(x, y)
    ensures x == y && Compare(v.fields[x], w.fields[x]) != 0 ==> Compare(v, w) == Compare(v.fields[x], w.fields[x])
  {
    hide Compare, SortedKeys, CompareBytes;
    ComparedMaps(v, w);
    ListedKeys(v.fields, p + ([x] + a), [x] + a);
    ListedKeys(w.fields, p + ([y] + b), [y] + b);
    FirstEntry(v, w, p, [x] + a, [y] + b);
    assert ([x] + a)[0] == x && ([y] + b)[0] == y;
    CompareZero(x, y);
  }

  lemma ListedKeys(m: Fields, ks: seq<Str>, rest: seq<Str>)
    requires SortedKeys(m.Keys) == ks && forall k :: k in rest ==> k in ks
    ensures forall k :: k in rest ==> k in m
  {
    hide SortedKeys;
    assert forall k :: k in m.Keys <==> k in SortedKeys(m.Keys);
  }

  lemma SmallerMap(v: Value, w: Value, y: Str, b: seq<Str>)
    requires v.Map? && w.Map? && !IsVector(v.fields) && !IsVector(w.fields)
    requires SortedKeys(w.fields.Keys) == SortedKeys(v.fields.Keys) + ([y] + b)
    requires forall k :: k in v.fields && k in w.fields ==> Compare(v.fields[k], w.fields[k]) == 0
    ensures Compare(v, w) == -1
  {
    hide Compare, SortedKeys, CompareBytes;
    var p := SortedKeys(v.fields.Keys);
    ComparedMaps(v, w);
    ListedKeys(w.fields, p + ([y] + b), p);
    ListedKeys(w.fields, p + ([y] + b), [y] + b);
    ListedKeys(v.fields, p, p);
    ShorterEntries(v, w, p, [y] + b);
  }

  lemma {:induction false} ShorterEntries(v: Value, w: Value, p: seq<Str>, b: seq<Str>)
    requires v.Map? && w.Map? && b != [] && (forall k :: k in b ==> k in w.fields)
    requires forall k :: k in p ==> k in v.fields && k in w.fields && Compare(v.fields[k], w.fields[k]) == 0
    ensures CompareEntries(v, p, w, p + b) == -1
    decreases |p|
  {
    hide Compare, CompareBytes;
    if p == [] {
      assert p + b == b;
    } else {
      CompareRefl(p[0]);
      assert (p + b)[1..] == p[1..] + b && (p + b)[0] == p[0];
      ShorterEntries(v, w, p[1..], b);
    }
  }

  lemma {:induction false} FirstEntry(v: Value, w: Value, p: seq<Str>, a: seq<Str>, b: seq<Str>)
    requires v.Map? && w.Map? && a != [] && b != [] && (forall k :: k in a ==> k in v.fields) && (forall k :: k in b ==> k in w.fields)
    requires forall k :: k in p ==> k in v.fields && k in w.fields && Compare(v.fields[k], w.fields[k]) == 0
    ensures CompareEntries(v, p + a, w, p + b) == CompareEntries(v, a, w, b)
    decreases |p|
  {
    hide Compare, CompareBytes;
    if p == [] {
      assert p + a == a && p + b == b;
    } else {
      CompareRefl(p[0]);
      assert (p + a)[1..] == p[1..] + a && (p + b)[1..] == p[1..] + b;
      FirstEntry(v, w, p[1..], a, b);
    }
  }
}
