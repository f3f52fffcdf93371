// Sort keys (internal/value/sortkey.go): the byte encoding of values whose
// memcmp order is Compare.
module SortKeys {
  import opened Bytes
  import opened Numbers
  import opened Values

  const TAG_NULL: byte := 0x10
  const TAG_BOOL: byte := 0x18
  const TAG_NAN: byte := 0x20
  const TAG_NUMBER: byte := 0x28
  const TAG_TIMESTAMP: byte := 0x30
  const TAG_STRING: byte := 0x38
  const TAG_BYTES: byte := 0x40
  const TAG_REFERENCE: byte := 0x48
  const TAG_GEOPOINT: byte := 0x50
  const TAG_ARRAY: byte := 0x58
  const TAG_VECTOR: byte := 0x5C
  const TAG_MAP: byte := 0x60
  const TAG_UNKNOWN: byte := 0xFE

  const ITEM_MARKER: byte := 0x01
  const END_MARKER: byte := 0x00

  const TWO32: nat := 0x1_0000_0000

  function Escaped(content: seq<byte>): seq<byte> {
    if content == [] then [0x00, 0x01]
    else (if content[0] == 0x00 then [0x00, 0xFF] else [content[0]]) + Escaped(content[1..])
  }

  function SegmentItems(segs: seq<Str>): seq<byte> {
    if segs == [] then [END_MARKER]
    else [ITEM_MARKER] + Escaped(segs[0]) + SegmentItems(segs[1..])
  }

  // The segment-wise key of a resource name; the empty name has no segments.
  function NameKey(name: Str): seq<byte> {
    if name == [] then [END_MARKER] else SegmentItems(Segments(name))
  }

  // The tag of a type-order bucket.
  function Tag(order: int): byte
    requires 0 <= order <= 12
  {
    if order == 0 then TAG_NULL
    else if order == 1 then TAG_BOOL
    else if order == 2 then TAG_NAN
    else if order == 3 then TAG_NUMBER
    else if order == 4 then TAG_TIMESTAMP
    else if order == 5 then TAG_STRING
    else if order == 6 then TAG_BYTES
    else if order == 7 then TAG_REFERENCE
    else if order == 8 then TAG_GEOPOINT
    else if order == 9 then TAG_ARRAY
    else if order == 10 then TAG_VECTOR
    else if order == 11 then TAG_MAP
    else TAG_UNKNOWN
  }

  // One tag byte per ordering bucket, then a type-specific body.
  function SortKey(v: Value): seq<byte>
    decreases v, 2
  {
    [Tag(TypeOrder(v))] + Body(v)
  }

  function Body(v: Value): seq<byte>
    decreases v, 1
  {
    match v
    case Null => []
    case Bool(b) => [if b then 1 else 0]
    case Integer(x) => IntKey(x)
    case DoubleV(d) => if IsNaN(d) then [] else DoubleKey(d)
    case Timestamp(s, n) =>
      // uint64(s) ^ 1<<63 is s + 2^63; uint32(n) wraps a negative n.
      BigEndian(s + TWO63, 8) + BigEndian(n % TWO32, 4)
    case String(s) => Escaped(s)
    case BytesV(bs) => Escaped(bs)
    case Reference(r) => NameKey(r)
    case GeoPoint(lat, lng) => OrderedDoubleKey(lat) + OrderedDoubleKey(lng)
    case Array(es) => ArrayItems(es)
    case Map(m) =>
      if IsVector(m) then
        var es := VectorElems(m);
        BigEndian(|es| % TWO32, 4) + (if es == [] then [END_MARKER] else ArrayItems(es))
      else MapItems(v, SortedKeys(m.Keys))
    case Unknown => []
  }

  function ArrayItems(es: seq<Value>): seq<byte>
    decreases es
  {
    if es == [] then [END_MARKER] else [ITEM_MARKER] + SortKey(es[0]) + ArrayItems(es[1..])
  }

  function MapItems(v: Value, ks: seq<Str>): seq<byte>
    requires v.Map? && (forall k :: k in ks ==> k in v.fields)
    decreases v, 0, |ks|
  {
    if ks == [] then [END_MARKER]
    else [ITEM_MARKER] + (Escaped(ks[0]) + SortKey(v.fields[ks[0]])) + MapItems(v, ks[1..])
  }

  // One component of an index key, in the direction of its field.
  function DirKey(v: Value, desc: bool): seq<byte> {
    if desc then Complement(SortKey(v)) else SortKey(v)
  }

  function DirNameKey(name: Str, desc: bool): seq<byte> {
    if desc then Complement(NameKey(name)) else NameKey(name)
  }

  // ---------------------------------------------------------- order isomorphism

  lemma {:induction false} EscapedCoded(a: seq<byte>, b: seq<byte>)
    ensures Coded(Escaped(a), Escaped(b), CompareBytes(a, b))
    decreases a
  {
    if a != [] && b != [] && a[0] == b[0] {
      EscapedCoded(a[1..], b[1..]);
      var head := if a[0] == 0x00 then [0x00, 0xFF] else [a[0]];
      CodedThen(head, head, 0, Escaped(a[1..]), Escaped(b[1..]), CompareBytes(a[1..], b[1..]));
      CompareZero(a, b);
    } else {
      EscapedHead(a);
      EscapedHead(b);
    }
  }

  // The first two bytes of an escaped string.
  lemma EscapedHead(a: seq<byte>)
    ensures |Escaped(a)| >= 2
    ensures a == [] ==> Escaped(a)[0] == 0 && Escaped(a)[1] == 1
    ensures a != [] ==> Escaped(a)[0] == a[0] && (a[0] == 0 ==> Escaped(a)[1] == 0xFF)
    decreases a
  {
    if a != [] { EscapedHead(a[1..]); }
  }

  // Framing: {marker item}* end. Shorter sorts first, and an item decides
  // before the rest.
  lemma FramedCoded(xa: seq<byte>, xb: seq<byte>, c: int, ra: seq<byte>, rb: seq<byte>, d: int)
    requires Coded(xa, xb, c) && Coded(ra, rb, d)
    ensures Coded([ITEM_MARKER] + xa + ra, [ITEM_MARKER] + xb + rb, Then(c, d))
  {
    CodedThen([ITEM_MARKER], [ITEM_MARKER], 0, xa, xb, c);
    CodedThen([ITEM_MARKER] + xa, [ITEM_MARKER] + xb, c, ra, rb, d);
  }

  lemma {:induction false} SegmentsCoded(as_: seq<Str>, bs: seq<Str>)
    ensures Coded(SegmentItems(as_), SegmentItems(bs), CompareSegments(as_, bs))
    decreases as_
  {
    if as_ != [] && bs != [] {
      EscapedCoded(as_[0], bs[0]);
      SegmentsCoded(as_[1..], bs[1..]);
      FramedCoded(Escaped(as_[0]), Escaped(bs[0]), CompareBytes(as_[0], bs[0]),
                  SegmentItems(as_[1..]), SegmentItems(bs[1..]), CompareSegments(as_[1..], bs[1..]));
    } else if as_ != [] {
      assert SegmentItems(as_)[0] == ITEM_MARKER;
    } else if bs != [] {
      assert SegmentItems(bs)[0] == ITEM_MARKER;
    }
  }

  // Names order segment by segment, in bytes as in Compare.
  lemma NameKeyCoded(a: Str, b: Str)
    ensures Coded(NameKey(a), NameKey(b), CompareResourceNames(a, b))
  {
    SegmentsCoded(Segments(a), Segments(b));
    SegmentsZero(Segments(a), Segments(b));
    if a == [] && b != [] { EmptyNameFirst(b); }
    if b == [] && a != [] {
      EmptyNameFirst(a);
      SegmentsSwap(Segments(a), Segments(b));
    }
  }

  lemma EmptyNameFirst(b: Str)
    requires b != []
    ensures CompareResourceNames([], b) == -1
    ensures NameKey(b)[0] == ITEM_MARKER
  {
    assert Segments([]) == [[]];
    var bs := Segments(b);
    if |bs| == 1 { JoinSplit(b); }
    assert CompareSegments([[]], bs) == Then(CompareBytes([], bs[0]), CompareSegments([], bs[1..]));
  }

  lemma {:induction false} SegmentsSwap(as_: seq<Str>, bs: seq<Str>)
    ensures CompareSegments(bs, as_) == -CompareSegments(as_, bs)
    decreases as_
  {
    if as_ != [] && bs != [] {
      CompareSwap(as_[0], bs[0]);
      SegmentsSwap(as_[1..], bs[1..]);
    }
  }

  lemma TagsOrdered(i: int, j: int)
    requires 0 <= i <= 12 && 0 <= j <= 12
    ensures CmpInt(Tag(i), Tag(j)) == CmpInt(i, j)
  {}

  // The sign of the byte comparison of two sort keys is Compare, and unequal
  // values have keys neither of which is a prefix of the other.
  lemma {:induction false} SortKeyCoded(a: Value, b: Value)
    requires WellFormed(a) && WellFormed(b)
    ensures Coded(SortKey(a), SortKey(b), Compare(a, b))
    decreases a, 3
  {
    hide Body, Tag, WellFormed;
    var ta, tb := Tag(TypeOrder(a)), Tag(TypeOrder(b));
    TagsOrdered(TypeOrder(a), TypeOrder(b));
    if TypeOrder(a) == TypeOrder(b) {
      BodyCoded(a, b);
      CodedThen([ta], [tb], 0, Body(a), Body(b), Compare(a, b));
    } else {
      FirstDiffConcat([ta], [tb], Body(a), Body(b));
    }
  }

  lemma BodyCoded(a: Value, b: Value)
    requires WellFormed(a) && WellFormed(b) && TypeOrder(a) == TypeOrder(b)
    ensures Coded(Body(a), Body(b), Compare(a, b))
    decreases a, 2
  {
    match a
    case Null =>
    case Unknown =>
    case Bool(_) =>
    case Integer(_) => NumberKeyCoded(NumberOf(a), NumberOf(b));
    case DoubleV(d) => if !IsNaN(d) { NumberKeyCoded(NumberOf(a), NumberOf(b)); }
    case Timestamp(_, _) => TimestampCoded(a, b);
    case String(s) => EscapedCoded(s, b.s);
    case BytesV(s) => EscapedCoded(s, b.bs);
    case Reference(r) => NameKeyCoded(r, b.name);
    case GeoPoint(_, _) => GeoPointCoded(a, b);
    case Array(es) => ArrayCoded(es, b.elems);
    case Map(m) =>
      if IsVector(m) {
        VectorCoded(a, b);
      } else {
        EntriesCoded(a, SortedKeys(m.Keys), b, SortedKeys(b.fields.Keys));
      }
  }

  lemma TimestampKeys(a: Value, b: Value)
    requires a.Timestamp? && b.Timestamp?
    ensures Coded(Body(a), Body(b), Then(CmpInt(a.seconds, b.seconds), CmpInt(a.nanos % TWO32, b.nanos % TWO32)))
  {
    Widths();
    var sa, sb, na, nb := a.seconds + TWO63, b.seconds + TWO63, a.nanos % TWO32, b.nanos % TWO32;
    BigEndianCoded(sa, sb, 8);
    BigEndianCoded(na, nb, 4);
    CodedThen(BigEndian(sa, 8), BigEndian(sb, 8), CmpInt(sa, sb), BigEndian(na, 4), BigEndian(nb, 4), CmpInt(na, nb));
  }

  // uint32 puts negative nanos above non-negative ones.
  lemma WrapOrder(m: Int32, n: Int32)
    ensures CmpInt(m % TWO32, n % TWO32) == CmpInt(m, n) <==> (m < 0 <==> n < 0)
  {
    assert m % TWO32 == if m < 0 then m + TWO32 else m;
    assert n % TWO32 == if n < 0 then n + TWO32 else n;
  }

  lemma TimestampCoded(a: Value, b: Value)
    requires a.Timestamp? && b.Timestamp? && a.nanos >= 0 && b.nanos >= 0
    ensures Coded(Body(a), Body(b), Compare(a, b))
  {
    TimestampKeys(a, b);
    WrapOrder(a.nanos, b.nanos);
  }

  lemma GeoPointCoded(a: Value, b: Value)
    requires a.GeoPoint? && b.GeoPoint? && WellFormed(a) && WellFormed(b)
    ensures Coded(Body(a), Body(b), Compare(a, b))
  {
    OrderedDoubleCoded(a.lat, b.lat);
    OrderedDoubleCoded(a.lng, b.lng);
    CodedThen(OrderedDoubleKey(a.lat), OrderedDoubleKey(b.lat), CmpFloat(a.lat, b.lat),
              OrderedDoubleKey(a.lng), OrderedDoubleKey(b.lng), CmpFloat(a.lng, b.lng));
  }

  lemma VectorCoded(a: Value, b: Value)
    requires a.Map? && b.Map? && IsVector(a.fields) && IsVector(b.fields)
    requires WellFormed(a) && WellFormed(b)
    ensures Coded(Body(a), Body(b), Compare(a, b))
    decreases a, 1
  {
    hide CompareArrays, ArrayItems, SortKey, Compare;
    EmptyArrays(VectorElems(a.fields), VectorElems(b.fields));
    VectorCompared(a, b);
    VectorWellFormed(a);
    VectorWellFormed(b);
    VectorKeys(a, b);
  }

  lemma VectorCompared(a: Value, b: Value)
    requires a.Map? && b.Map? && IsVector(a.fields) && IsVector(b.fields)
    ensures var ea, eb := VectorElems(a.fields), VectorElems(b.fields);
      Compare(a, b) == Then(CmpInt(|ea|, |eb|), if ea == [] then 0 else CompareArrays(ea, eb))
  {
    hide CompareArrays;
  }

  lemma VectorWellFormed(a: Value)
    requires a.Map? && IsVector(a.fields) && WellFormed(a)
    ensures |VectorElems(a.fields)| < TWO32 && AllWellFormed(VectorElems(a.fields))
  {}

  lemma VectorKeys(a: Value, b: Value)
    requires a.Map? && b.Map? && IsVector(a.fields) && IsVector(b.fields)
    requires AllWellFormed(VectorElems(a.fields)) && AllWellFormed(VectorElems(b.fields))
    ensures var ea, eb := VectorElems(a.fields), VectorElems(b.fields);
      Coded(Body(a), Body(b), Then(CmpInt(|ea| % TWO32, |eb| % TWO32), CompareArrays(ea, eb)))
    decreases a, 0
  {
    hide CompareArrays, ArrayItems, SortKey, Compare;
    var ea, eb := VectorElems(a.fields), VectorElems(b.fields);
    var m, n := |ea| % TWO32, |eb| % TWO32;
    Widths();
    EmptyArrays(ea, eb);
    BigEndianCoded(m, n, 4);
    if ea == [] { EmptyCoded(eb); } else { ArrayCoded(ea, eb); }
    CodedThen(BigEndian(m, 4), BigEndian(n, 4), CmpInt(m, n), ArrayItems(ea), ArrayItems(eb), CompareArrays(ea, eb));
  }

  lemma EmptyCoded(es: seq<Value>)
    ensures Coded(ArrayItems([]), ArrayItems(es), CompareArrays([], es))
  {}

  lemma EmptyArrays(ea: seq<Value>, eb: seq<Value>)
    ensures ea == [] || eb == [] ==> CompareArrays(ea, eb) == CmpInt(|ea|, |eb|)
    ensures ArrayItems([]) == [END_MARKER]
  {}

  lemma {:induction false} ArrayCoded(as_: seq<Value>, bs: seq<Value>)
    requires AllWellFormed(as_) && AllWellFormed(bs)
    ensures Coded(ArrayItems(as_), ArrayItems(bs), CompareArrays(as_, bs))
    decreases as_
  {
    if as_ != [] && bs != [] {
      SortKeyCoded(as_[0], bs[0]);
      ArrayCoded(as_[1..], bs[1..]);
      FramedCoded(SortKey(as_[0]), SortKey(bs[0]), Compare(as_[0], bs[0]),
                  ArrayItems(as_[1..]), ArrayItems(bs[1..]), CompareArrays(as_[1..], bs[1..]));
    } else if as_ != [] {
      assert ArrayItems(as_)[0] == ITEM_MARKER;
    } else if bs != [] {
      assert ArrayItems(bs)[0] == ITEM_MARKER;
    }
  }

  lemma {:induction false} EntriesCoded(a: Value, ak: seq<Str>, b: Value, bk: seq<Str>)
    requires a.Map? && (forall k :: k in ak ==> k in a.fields && WellFormed(a.fields[k]))
    requires b.Map? && (forall k :: k in bk ==> k in b.fields && WellFormed(b.fields[k]))
    ensures Coded(MapItems(a, ak), MapItems(b, bk), CompareEntries(a, ak, b, bk))
    decreases a, 0, |ak|
  {
    if ak != [] && bk != [] {
      var ka, kb, va, vb := ak[0], bk[0], a.fields[ak[0]], b.fields[bk[0]];
      EscapedCoded(ka, kb);
      SortKeyCoded(va, vb);
      EntriesCoded(a, ak[1..], b, bk[1..]);
      var c := Then(CompareBytes(ka, kb), Compare(va, vb));
      CodedThen(Escaped(ka), Escaped(kb), CompareBytes(ka, kb), SortKey(va), SortKey(vb), Compare(va, vb));
      FramedCoded(Escaped(ka) + SortKey(va), Escaped(kb) + SortKey(vb), c,
                  MapItems(a, ak[1..]), MapItems(b, bk[1..]), CompareEntries(a, ak[1..], b, bk[1..]));
    } else if ak != [] {
      assert MapItems(a, ak)[0] == ITEM_MARKER;
    } else if bk != [] {
      assert MapItems(b, bk)[0] == ITEM_MARKER;
    }
  }

  // ----------------------------------------------- consequences for Compare

  // Sort-key order isomorphism.
  lemma OrderIsomorphism(a: Value, b: Value)
    requires WellFormed(a) && WellFormed(b)
    ensures CompareBytes(SortKey(a), SortKey(b)) == Compare(a, b)
    ensures SortKey(a) == SortKey(b) <==> Compare(a, b) == 0
    ensures Compare(a, b) != 0 ==> !(SortKey(a) <= SortKey(b)) && !(SortKey(b) <= SortKey(a))
  {
    SortKeyCoded(a, b);
    CodedCompare(SortKey(a), SortKey(b), Compare(a, b));
    CompareZero(SortKey(a), SortKey(b));
  }

  // The direction of a field reverses its component and nothing else.
  lemma DirKeyCoded(a: Value, b: Value, desc: bool)
    requires WellFormed(a) && WellFormed(b)
    ensures Coded(DirKey(a, desc), DirKey(b, desc), if desc then -Compare(a, b) else Compare(a, b))
  {
    SortKeyCoded(a, b);
    if desc { CodedComplement(SortKey(a), SortKey(b), Compare(a, b)); }
  }

  lemma DirNameKeyCoded(a: Str, b: Str, desc: bool)
    ensures Coded(DirNameKey(a, desc), DirNameKey(b, desc),
                  if desc then -CompareResourceNames(a, b) else CompareResourceNames(a, b))
  {
    NameKeyCoded(a, b);
    if desc { CodedComplement(NameKey(a), NameKey(b), CompareResourceNames(a, b)); }
  }

  // Names are equal exactly when they compare equal.
  lemma NamesEqual(a: Str, b: Str)
    ensures CompareResourceNames(a, b) == 0 <==> a == b
  {
    SegmentsZero(Segments(a), Segments(b));
    JoinSplit(a);
    JoinSplit(b);
  }

  lemma {:induction false} SegmentsZero(as_: seq<Str>, bs: seq<Str>)
    ensures CompareSegments(as_, bs) == 0 <==> as_ == bs
    decreases as_
  {
    if as_ != [] && bs != [] {
      CompareZero(as_[0], bs[0]);
      SegmentsZero(as_[1..], bs[1..]);
      assert as_ == [as_[0]] + as_[1..] && bs == [bs[0]] + bs[1..];
    }
  }

  // A geopoint's key orders as Compare does against every well-formed geopoint
  // exactly when neither of its coordinates is NaN: Compare reads a NaN as equal
  // to everything, the bytes do not.
  lemma GeoPointExact(a: Value)
    requires a.GeoPoint?
    ensures (forall b: Value :: b.GeoPoint? && WellFormed(b) ==> CompareBytes(SortKey(a), SortKey(b)) == Compare(a, b))
       <==> WellFormed(a)
  {
    if WellFormed(a) {
      forall b: Value | b.GeoPoint? && WellFormed(b) ensures CompareBytes(SortKey(a), SortKey(b)) == Compare(a, b) {
        OrderIsomorphism(a, b);
      }
    } else {
      var zero: Double := Bits64(false, 0, 0);
      var b := GeoPoint(if IsNaN(a.lat) then zero else a.lat, if IsNaN(a.lng) then zero else a.lng);
      assert Compare(a, b) == 0;
      if IsNaN(a.lat) { NaNKeyDiffers(a.lat); } else { NaNKeyDiffers(a.lng); }
      GeoKeysDiffer(a, b);
      CompareZero(SortKey(a), SortKey(b));
    }
  }

  lemma NaNKeyDiffers(d: Double)
    requires IsNaN(d)
    ensures OrderedDoubleKey(d) != OrderedDoubleKey(Bits64(false, 0, 0))
  {
    var x, y := OrderedBits(d), OrderedBits(Bits64(false, 0, 0));
    Widths();
    BigEndianCoded(x, y, 8);
    CodedCompare(BigEndian(x, 8), BigEndian(y, 8), CmpInt(x, y));
    CompareZero(BigEndian(x, 8), BigEndian(y, 8));
  }

  lemma GeoKeysDiffer(a: Value, b: Value)
    requires a.GeoPoint? && b.GeoPoint?
    requires OrderedDoubleKey(a.lat) != OrderedDoubleKey(b.lat) || OrderedDoubleKey(a.lng) != OrderedDoubleKey(b.lng)
    ensures SortKey(a) != SortKey(b)
  {
    assert Body(a)[..8] == OrderedDoubleKey(a.lat) && Body(a)[8..] == OrderedDoubleKey(a.lng);
    assert Body(b)[..8] == OrderedDoubleKey(b.lat) && Body(b)[8..] == OrderedDoubleKey(b.lng);
    assert SortKey(a)[1..] == Body(a) && SortKey(b)[1..] == Body(b);
  }

  // Exactly when two timestamps' keys order as the timestamps do.
  lemma TimestampExact(a: Value, b: Value)
    requires a.Timestamp? && b.Timestamp?
    ensures CompareBytes(SortKey(a), SortKey(b)) == Compare(a, b)
       <==> a.seconds != b.seconds || (a.nanos < 0 <==> b.nanos < 0)
  {
    var c := Then(CmpInt(a.seconds, b.seconds), CmpInt(a.nanos % TWO32, b.nanos % TWO32));
    TimestampKeys(a, b);
    CodedThen([TAG_TIMESTAMP], [TAG_TIMESTAMP], 0, Body(a), Body(b), c);
    CodedCompare(SortKey(a), SortKey(b), c);
    WrapOrder(a.nanos, b.nanos);
  }

  // The count in front of a vector's elements is a uint32: exactly when two vectors'
  // keys order as the vectors do, whatever their lengths.
  lemma VectorLengthExact(a: Value, b: Value)
    requires a.Map? && b.Map? && IsVector(a.fields) && IsVector(b.fields)
    requires AllWellFormed(VectorElems(a.fields)) && AllWellFormed(VectorElems(b.fields))
    ensures var ea, eb := VectorElems(a.fields), VectorElems(b.fields);
      var wrapped := CmpInt(|ea| % TWO32, |eb| % TWO32);
      CompareBytes(SortKey(a), SortKey(b)) == Compare(a, b)
      <==> wrapped == CmpInt(|ea|, |eb|) || (wrapped == 0 && CompareArrays(ea, eb) == CmpInt(|ea|, |eb|))
  {
    hide CompareBytes, CompareArrays, ArrayItems;
    var ea, eb := VectorElems(a.fields), VectorElems(b.fields);
    var m, n := |ea| % TWO32, |eb| % TWO32;
    var c := Then(CmpInt(m, n), CompareArrays(ea, eb));
    VectorKeys(a, b);
    CodedThen([TAG_VECTOR], [TAG_VECTOR], 0, Body(a), Body(b), c);
    CodedCompare(SortKey(a), SortKey(b), c);
    EmptyArrays(ea, eb);
  }

  // A vector of 2^32 equal elements sorts before one of a single element by its key
  // and after it by Compare.
  lemma LongVector(x: Value, a: Value, b: Value)
    requires WellFormed(x)
    requires a == Map(map[TYPE_KEY := String(VECTOR_TYPE), VALUE_KEY := Array(seq(TWO32, _ => x))])
    requires b == Map(map[TYPE_KEY := String(VECTOR_TYPE), VALUE_KEY := Array([x])])
    ensures Compare(a, b) > 0 && CompareBytes(SortKey(a), SortKey(b)) != Compare(a, b)
  {
    hide CompareBytes, CompareArrays, SortKey;
    assert VectorElems(a.fields) == seq(TWO32, _ => x) && VectorElems(b.fields) == [x];
    VectorLengthExact(a, b);
  }

  // ------------------------------------------------------------- the encoders

  method AppendEscaped(dst: seq<byte>, content: seq<byte>) returns (r: seq<byte>)
    ensures r == dst + Escaped(content)
  {
    r := dst;
    for i := 0 to |content|
      invariant r + Escaped(content[i..]) == dst + Escaped(content)
    {
      var b := content[i];
      assert content[i..][1..] == content[i + 1..];
      if b == 0x00 { r := r + [0x00, 0xFF]; } else { r := r + [b]; }
    }
    r := r + [0x00, 0x01];
  }

  method NextSlash(seg: Str) returns (i: nat)
    ensures i == FirstSlash(seg)
  {
    i := 0;
    while i < |seg| && seg[i] != SLASH
      invariant 0 <= i <= |seg| && forall j :: 0 <= j < i ==> seg[j] != SLASH
    {
      i := i + 1;
    }
  }

  // Walks the name segment by segment; a trailing slash is one final empty
  // segment.
  method AppendNamePayload(dst: seq<byte>, name: Str) returns (r: seq<byte>)
    ensures r == dst + NameKey(name)
  {
    r := dst;
    var seg := name;
    while |seg| > 0
      invariant r + NameKey(seg) == dst + NameKey(name)
      decreases |seg|
    {
      var i := NextSlash(seg);
      SegmentStep(seg, r);
      r := AppendEscaped(r + [ITEM_MARKER], seg[..i]);
      if i == |seg| { break; }
      seg := seg[i + 1..];
      if |seg| == 0 {
        TrailingSlash(r);
        r := AppendEscaped(r + [ITEM_MARKER], []);
      }
    }
    r := r + [END_MARKER];
  }

  // Writing the first segment of a nonempty name leaves the rest to be written.
  lemma SegmentStep(seg: Str, r: seq<byte>)
    requires seg != []
    ensures var i := FirstSlash(seg);
      r + NameKey(seg) == ((r + [ITEM_MARKER]) + Escaped(seg[..i]))
                        + (if i == |seg| then [END_MARKER] else SegmentItems(Segments(seg[i + 1..])))
  {
    var segs := Segments(seg);
    SplitHead(seg);
    FramedStep(r, Escaped(segs[0]), SegmentItems(segs[1..]));
  }

  lemma SplitHead(seg: Str)
    ensures var i := FirstSlash(seg);
      && Segments(seg)[0] == seg[..i]
      && Segments(seg)[1..] == if i == |seg| then [] else Segments(seg[i + 1..])
  {
    hide FirstSlash;
    var i := FirstSlash(seg);
    if i == |seg| {
      WholeSegment(seg);
    } else {
      CutSegment(seg);
      HeadTail(seg[..i], Segments(seg[i + 1..]));
    }
  }

  lemma WholeSegment(seg: Str)
    requires FirstSlash(seg) == |seg|
    ensures Segments(seg) == [seg] && seg[..|seg|] == seg && [seg][1..] == []
  {
    hide FirstSlash;
  }

  lemma CutSegment(seg: Str)
    requires FirstSlash(seg) < |seg|
    ensures Segments(seg) == [seg[..FirstSlash(seg)]] + Segments(seg[FirstSlash(seg) + 1..])
  {
    hide FirstSlash;
  }

  lemma HeadTail(x: Str, rest: seq<Str>)
    ensures ([x] + rest)[0] == x && ([x] + rest)[1..] == rest
  {}

  lemma TrailingSlash(r: seq<byte>)
    ensures r + SegmentItems(Segments([])) == ((r + [ITEM_MARKER]) + Escaped([])) + [END_MARKER]
  {
    assert Segments([]) == [[]] && Segments([])[1..] == [];
    Assoc(r, [ITEM_MARKER], Escaped([]));
    Assoc(r, [ITEM_MARKER] + Escaped([]), [END_MARKER]);
  }

  lemma TagStep(dst: seq<byte>, tag: byte, v: Value)
    requires tag == Tag(TypeOrder(v))
    ensures (dst + [tag]) + Body(v) == dst + SortKey(v)
  {
    Assoc(dst, [tag], Body(v));
  }

  // AppendSortKey, tag by tag, growing the destination buffer.
  method AppendSortKey(dst: seq<byte>, v: Value) returns (r: seq<byte>)
    ensures r == dst + SortKey(v)
    decreases v, 2
  {
    if v.Array? {
      r := AppendItems(dst + [TAG_ARRAY], v.elems);
      TagStep(dst, TAG_ARRAY, v);
    } else if v.Map? {
      if IsVector(v.fields) {
        r := AppendVector(dst + [TAG_VECTOR], v.fields);
        TagStep(dst, TAG_VECTOR, v);
      } else {
        r := AppendEntries(dst + [TAG_MAP], v);
        TagStep(dst, TAG_MAP, v);
      }
    } else {
      r := AppendScalar(dst, v);
    }
  }

  method AppendScalar(dst: seq<byte>, v: Value) returns (r: seq<byte>)
    requires !v.Array? && !v.Map?
    ensures r == dst + SortKey(v)
  {
    match v
    case Null => r := dst + [TAG_NULL]; TagStep(dst, TAG_NULL, v);
    case Bool(b) => r := dst + [TAG_BOOL] + [if b then 1 else 0]; TagStep(dst, TAG_BOOL, v);
    case Integer(x) => r := dst + [TAG_NUMBER] + IntKey(x); TagStep(dst, TAG_NUMBER, v);
    case DoubleV(d) =>
      if IsNaN(d) {
        r := dst + [TAG_NAN];
        TagStep(dst, TAG_NAN, v);
      } else {
        r := dst + [TAG_NUMBER] + DoubleKey(d);
        TagStep(dst, TAG_NUMBER, v);
      }
    case Timestamp(s, n) =>
      r := dst + [TAG_TIMESTAMP] + BigEndian(s + TWO63, 8) + BigEndian(n % TWO32, 4);
      Assoc(dst + [TAG_TIMESTAMP], BigEndian(s + TWO63, 8), BigEndian(n % TWO32, 4));
      TagStep(dst, TAG_TIMESTAMP, v);
    case String(s) => r := AppendEscaped(dst + [TAG_STRING], s); TagStep(dst, TAG_STRING, v);
    case BytesV(s) => r := AppendEscaped(dst + [TAG_BYTES], s); TagStep(dst, TAG_BYTES, v);
    case Reference(s) => r := AppendNamePayload(dst + [TAG_REFERENCE], s); TagStep(dst, TAG_REFERENCE, v);
    case GeoPoint(lat, lng) =>
      r := dst + [TAG_GEOPOINT] + OrderedDoubleKey(lat) + OrderedDoubleKey(lng);
      Assoc(dst + [TAG_GEOPOINT], OrderedDoubleKey(lat), OrderedDoubleKey(lng));
      TagStep(dst, TAG_GEOPOINT, v);
    case Unknown => r := dst + [TAG_UNKNOWN]; TagStep(dst, TAG_UNKNOWN, v);
  }

  method AppendItems(dst: seq<byte>, es: seq<Value>) returns (r: seq<byte>)
    ensures r == dst + ArrayItems(es)
    decreases es
  {
    r := dst;
    for i := 0 to |es|
      invariant r + ArrayItems(es[i..]) == dst + ArrayItems(es)
    {
      assert es[i..][1..] == es[i + 1..];
      FramedStep(r, SortKey(es[i]), ArrayItems(es[i + 1..]));
      r := AppendSortKey(r + [ITEM_MARKER], es[i]);
    }
    r := r + [END_MARKER];
  }

  lemma FramedStep(r: seq<byte>, item: seq<byte>, rest: seq<byte>)
    ensures r + ([ITEM_MARKER] + item + rest) == ((r + [ITEM_MARKER]) + item) + rest
  {
    Assoc(r, [ITEM_MARKER], item);
    Assoc(r, [ITEM_MARKER] + item, rest);
  }

  // Dimension first, then element-wise.
  method AppendVector(dst: seq<byte>, m: Fields) returns (r: seq<byte>)
    requires IsVector(m)
    ensures r == dst + Body(Map(m))
    decreases Map(m), 1
  {
    var es := VectorElems(m);
    r := dst + BigEndian(|es| % TWO32, 4);
    if es == [] {
      Assoc(dst, BigEndian(|es| % TWO32, 4), [END_MARKER]);
      r := r + [END_MARKER];
    } else {
      Assoc(dst, BigEndian(|es| % TWO32, 4), ArrayItems(es));
      r := AppendItems(r, es);
    }
  }

  method AppendEntries(dst: seq<byte>, v: Value) returns (r: seq<byte>)
    requires v.Map?
    ensures r == dst + MapItems(v, SortedKeys(v.fields.Keys))
    decreases v, 0
  {
    r := dst;
    var ks := SortedKeys(v.fields.Keys);
    for i := 0 to |ks|
      invariant r + MapItems(v, ks[i..]) == dst + MapItems(v, ks)
    {
      assert ks[i] in ks;
      EntryStep(r, v, ks[i..]);
      assert ks[i..][1..] == ks[i + 1..];
      r := AppendEscaped(r + [ITEM_MARKER], ks[i]);
      r := AppendSortKey(r, v.fields[ks[i]]);
    }
    r := r + [END_MARKER];
  }

  lemma EntryStep(r: seq<byte>, v: Value, ks: seq<Str>)
    requires v.Map? && ks != [] && forall k :: k in ks ==> k in v.fields
    ensures r + MapItems(v, ks)
         == (((r + [ITEM_MARKER]) + Escaped(ks[0])) + SortKey(v.fields[ks[0]])) + MapItems(v, ks[1..])
  {
    var k, item := Escaped(ks[0]), SortKey(v.fields[ks[0]]);
    FramedStep(r, k + item, MapItems(v, ks[1..]));
    Assoc(r + [ITEM_MARKER], k, item);
  }

  // Appends the ascending key, then flips the appended bytes in place.
  method AppendSortKeyDesc(dst: seq<byte>, v: Value) returns (r: seq<byte>)
    ensures r == dst + DirKey(v, true)
  {
    r := AppendSortKey(dst, v);
    r := FlipFrom(r, |dst|, SortKey(v));
  }

  method FlipFrom(buf: seq<byte>, start: nat, ghost k: seq<byte>) returns (r: seq<byte>)
    requires start <= |buf| && buf[start..] == k
    ensures r == buf[..start] + Complement(k)
  {
    r := buf;
    for i := start to |r|
      invariant |r| == |buf| && r[..start] == buf[..start]
      invariant forall j :: start <= j < i ==> r[j] == 255 - buf[j]
      invariant forall j :: i <= j < |r| ==> r[j] == buf[j]
    {
      r := r[i := 255 - r[i]];
    }
    assert r[start..] == Complement(k);
  }
}
