// Compare is a total order on every value without a NaN geopoint, whatever its
// nanos or the length of its vectors (internal/value/compare.go).
module Orders {
  import opened Bytes
  import opened Numbers
  import opened Values

  // The signs of a:b, b:c and a:c under one total order.
  predicate Triple(x: int, y: int, z: int) {
    && x in {-1, 0, 1} && y in {-1, 0, 1} && z in {-1, 0, 1}
    && (x == 0 ==> z == y) && (y == 0 ==> z == x) && (x == y ==> z == x)
  }

  // Lexicographic combination keeps it.
  lemma TripleThen(x: int, y: int, z: int, x': int, y': int, z': int)
    requires Triple(x, y, z) && Triple(x', y', z')
    ensures Triple(Then(x, x'), Then(y, y'), Then(z, z'))
  {}

  lemma ThenSwaps(c: int, d: int, c': int, d': int)
    requires c' == -c && d' == -d
    ensures Then(c', d') == -Then(c, d)
  {}

  lemma IntTriple(a: int, b: int, c: int)
    ensures Triple(CmpInt(a, b), CmpInt(b, c), CmpInt(a, c))
  {}

  lemma BytesTriple(a: seq<byte>, b: seq<byte>, c: seq<byte>)
    ensures Triple(CompareBytes(a, b), CompareBytes(b, c), CompareBytes(a, c))
  {
    CompareSwap(a, b);
    CompareSwap(b, c);
    CompareSwap(a, c);
    CompareZero(a, b);
    CompareZero(b, c);
    if CompareBytes(a, b) <= 0 && CompareBytes(b, c) <= 0 { CompareTrans(a, b, c); }
    if CompareBytes(a, b) >= 0 && CompareBytes(b, c) >= 0 { CompareTrans(c, b, a); }
  }

  lemma ExactTriple(a: Exact, b: Exact, c: Exact)
    ensures Triple(CompareExact(a, b), CompareExact(b, c), CompareExact(a, c))
    ensures CompareExact(b, a) == -CompareExact(a, b)
  {}

  lemma FloatTriple(a: Double, b: Double, c: Double)
    requires !IsNaN(a) && !IsNaN(b) && !IsNaN(c)
    ensures Triple(CmpFloat(a, b), CmpFloat(b, c), CmpFloat(a, c))
  {
    ExactTriple(ExactDouble(NormalizeZero(a)), ExactDouble(NormalizeZero(b)), ExactDouble(NormalizeZero(c)));
  }

  lemma FloatSwaps(a: Double, b: Double)
    ensures CmpFloat(b, a) == -CmpFloat(a, b) && CmpFloat(a, b) in {-1, 0, 1}
  {
    if !IsNaN(a) && !IsNaN(b) {
      ExactTriple(ExactDouble(NormalizeZero(a)), ExactDouble(NormalizeZero(b)), ExactDouble(NormalizeZero(a)));
    }
  }

  lemma {:induction false} SegmentsTriple(a: seq<Str>, b: seq<Str>, c: seq<Str>)
    ensures Triple(CompareSegments(a, b), CompareSegments(b, c), CompareSegments(a, c))
    ensures CompareSegments(b, a) == -CompareSegments(a, b)
    decreases |a|
  {
    hide CompareBytes;
    if a != [] && b != [] {
      CompareSwap(a[0], b[0]);
      if c != [] {
        BytesTriple(a[0], b[0], c[0]);
        SegmentsTriple(a[1..], b[1..], c[1..]);
        TripleThen(CompareBytes(a[0], b[0]), CompareBytes(b[0], c[0]), CompareBytes(a[0], c[0]),
                   CompareSegments(a[1..], b[1..]), CompareSegments(b[1..], c[1..]), CompareSegments(a[1..], c[1..]));
      } else {
        SegmentsTriple(a[1..], b[1..], []);
      }
    }
    SegmentsSign(a, b);
    SegmentsSign(b, c);
    SegmentsSign(a, c);
  }

  lemma {:induction false} SegmentsSign(a: seq<Str>, b: seq<Str>)
    ensures CompareSegments(a, b) in {-1, 0, 1}
    decreases |a|
  {
    if a != [] && b != [] {
      CompareSwap(a[0], b[0]);
      SegmentsSign(a[1..], b[1..]);
    }
  }

  // No NaN coordinate wherever the order looks.
  predicate Ordered(v: Value)
    decreases v
  {
    match v
    case GeoPoint(lat, lng) => !IsNaN(lat) && !IsNaN(lng)
    case Array(es) => AllOrdered(es)
    case Map(m) =>
      if IsVector(m) then var es := VectorElems(m); es == [] || AllOrdered(es)
      else forall k :: k in m ==> Ordered(m[k])
    case _ => true
  }

  predicate AllOrdered(es: seq<Value>)
    decreases es
  {
    forall i :: 0 <= i < |es| ==> Ordered(es[i])
  }

  lemma {:induction false} WellFormedOrdered(v: Value)
    requires WellFormed(v)
    ensures Ordered(v)
    decreases v, 1
  {
    match v
    case Array(es) => AllWellFormedOrdered(es);
    case Map(m) =>
      if IsVector(m) {
        if VectorElems(m) != [] { AllWellFormedOrdered(VectorElems(m)); }
      } else {
        forall k | k in m ensures Ordered(m[k]) { WellFormedOrdered(m[k]); }
      }
    case _ =>
  }

  lemma {:induction false} AllWellFormedOrdered(es: seq<Value>)
    requires AllWellFormed(es)
    ensures AllOrdered(es)
    decreases es, 0
  {
    forall i | 0 <= i < |es| ensures Ordered(es[i]) { WellFormedOrdered(es[i]); }
  }

  // ------------------------------------------------------------ antisymmetry

  lemma {:induction false} Swaps(a: Value, b: Value)
    ensures Compare(b, a) == -Compare(a, b) && Compare(a, b) in {-1, 0, 1}
    decreases a, 4
  {
    if TypeOrder(a) == TypeOrder(b) { SwapsWithin(a, b); }
  }

  lemma SwapsWithin(a: Value, b: Value)
    requires TypeOrder(a) == TypeOrder(b)
    ensures Compare(b, a) == -Compare(a, b) && Compare(a, b) in {-1, 0, 1}
    decreases a, 3
  {
    match a
    case Integer(_) => NumberSwaps(a, b);
    case DoubleV(d) => if !IsNaN(d) { NumberSwaps(a, b); }
    case String(s) => CompareSwap(s, b.s);
    case BytesV(s) => CompareSwap(s, b.bs);
    case Reference(r) => SegmentsTriple(Segments(r), Segments(b.name), []);
    case GeoPoint(lat, lng) =>
      FloatSwaps(lat, b.lat);
      FloatSwaps(lng, b.lng);
    case Array(es) => ArraysSwap(es, b.elems);
    case Map(m) => MapsSwap(a, b);
    case _ =>
  }

  lemma NumberSwaps(a: Value, b: Value)
    requires TypeOrder(a) == 3 && TypeOrder(b) == 3
    ensures Compare(b, a) == -Compare(a, b) && Compare(a, b) in {-1, 0, 1}
  {
    hide ExactDouble, ExactInt;
    CompareNumbersExact(NumberOf(a), NumberOf(b));
    CompareNumbersExact(NumberOf(b), NumberOf(a));
    ExactTriple(ExactOf(NumberOf(a)), ExactOf(NumberOf(b)), ExactOf(NumberOf(a)));
  }

  lemma {:induction false} ArraysSwap(es: seq<Value>, fs: seq<Value>)
    ensures CompareArrays(fs, es) == -CompareArrays(es, fs) && CompareArrays(es, fs) in {-1, 0, 1}
    decreases es
  {
    hide Compare;
    if es != [] && fs != [] {
      Swaps(es[0], fs[0]);
      ArraysSwap(es[1..], fs[1..]);
    }
  }

  lemma MapsSwap(a: Value, b: Value)
    requires a.Map? && b.Map? && TypeOrder(a) == TypeOrder(b)
    ensures Compare(b, a) == -Compare(a, b) && Compare(a, b) in {-1, 0, 1}
    decreases a, 2
  {
    hide SortedKeys;
    if IsVector(a.fields) {
      var ea, eb := VectorElems(a.fields), VectorElems(b.fields);
      if ea != [] { ArraysSwap(ea, eb); }
    } else {
      EntriesSwap(a, SortedKeys(a.fields.Keys), b, SortedKeys(b.fields.Keys));
    }
  }

  lemma {:induction false} EntriesSwap(a: Value, ak: seq<Str>, b: Value, bk: seq<Str>)
    requires a.Map? && b.Map? && (forall k :: k in ak ==> k in a.fields) && (forall k :: k in bk ==> k in b.fields)
    ensures CompareEntries(b, bk, a, ak) == -CompareEntries(a, ak, b, bk) && CompareEntries(a, ak, b, bk) in {-1, 0, 1}
    decreases a, 0, |ak|
  {
    hide Compare, CompareBytes;
    if ak != [] && bk != [] {
      CompareSwap(ak[0], bk[0]);
      Swaps(a.fields[ak[0]], b.fields[bk[0]]);
      EntriesSwap(a, ak[1..], b, bk[1..]);
    }
  }

  // ------------------------------------------------------------- transitivity

  lemma {:induction false} Triples(a: Value, b: Value, c: Value)
    requires Ordered(a) && Ordered(b) && Ordered(c)
    ensures Triple(Compare(a, b), Compare(b, c), Compare(a, c))
    decreases a, 4
  {
    hide Ordered;
    Swaps(a, b);
    Swaps(b, c);
    Swaps(a, c);
    if TypeOrder(a) == TypeOrder(b) == TypeOrder(c) {
      TriplesWithin(a, b, c);
    } else {
      IntTriple(TypeOrder(a), TypeOrder(b), TypeOrder(c));
      AcrossTypes(a, b);
      AcrossTypes(b, c);
      AcrossTypes(a, c);
    }
  }

  lemma AcrossTypes(a: Value, b: Value)
    ensures TypeOrder(a) != TypeOrder(b) ==> Compare(a, b) == CmpInt(TypeOrder(a), TypeOrder(b))
  {}

  lemma TriplesWithin(a: Value, b: Value, c: Value)
    requires Ordered(a) && Ordered(b) && Ordered(c) && TypeOrder(a) == TypeOrder(b) == TypeOrder(c)
    ensures Triple(Compare(a, b), Compare(b, c), Compare(a, c))
    decreases a, 3
  {
    match a
    case Integer(_) => NumberTriple(a, b, c);
    case DoubleV(d) => if !IsNaN(d) { NumberTriple(a, b, c); }
    case Timestamp(s, n) => TimeTriple(a, b, c);
    case String(s) => BytesTriple(s, b.s, c.s);
    case BytesV(s) => BytesTriple(s, b.bs, c.bs);
    case Reference(r) => SegmentsTriple(Segments(r), Segments(b.name), Segments(c.name));
    case GeoPoint(_, _) => GeoTriple(a, b, c);
    case Array(es) => ArraysTriple(es, b.elems, c.elems);
    case Map(_) => MapsTriple(a, b, c);
    case _ =>
  }

  lemma TimeTriple(a: Value, b: Value, c: Value)
    requires a.Timestamp? && b.Timestamp? && c.Timestamp?
    ensures Triple(Compare(a, b), Compare(b, c), Compare(a, c))
  {
    TripleThen(CmpInt(a.seconds, b.seconds), CmpInt(b.seconds, c.seconds), CmpInt(a.seconds, c.seconds),
               CmpInt(a.nanos, b.nanos), CmpInt(b.nanos, c.nanos), CmpInt(a.nanos, c.nanos));
  }

  lemma GeoTriple(a: Value, b: Value, c: Value)
    requires a.GeoPoint? && b.GeoPoint? && c.GeoPoint? && Ordered(a) && Ordered(b) && Ordered(c)
    ensures Triple(Compare(a, b), Compare(b, c), Compare(a, c))
  {
    hide CmpFloat;
    FloatTriple(a.lat, b.lat, c.lat);
    FloatTriple(a.lng, b.lng, c.lng);
    TripleThen(CmpFloat(a.lat, b.lat), CmpFloat(b.lat, c.lat), CmpFloat(a.lat, c.lat),
               CmpFloat(a.lng, b.lng), CmpFloat(b.lng, c.lng), CmpFloat(a.lng, c.lng));
  }

  lemma NumberTriple(a: Value, b: Value, c: Value)
    requires TypeOrder(a) == 3 && TypeOrder(b) == 3 && TypeOrder(c) == 3
    ensures Triple(Compare(a, b), Compare(b, c), Compare(a, c))
  {
    hide ExactDouble, ExactInt;
    CompareNumbersExact(NumberOf(a), NumberOf(b));
    CompareNumbersExact(NumberOf(b), NumberOf(c));
    CompareNumbersExact(NumberOf(a), NumberOf(c));
    ExactTriple(ExactOf(NumberOf(a)), ExactOf(NumberOf(b)), ExactOf(NumberOf(c)));
  }

  lemma {:induction false} ArraysTriple(es: seq<Value>, fs: seq<Value>, gs: seq<Value>)
    requires AllOrdered(es) && AllOrdered(fs) && AllOrdered(gs)
    ensures Triple(CompareArrays(es, fs), CompareArrays(fs, gs), CompareArrays(es, gs))
    decreases es
  {
    hide Compare, Ordered;
    ArraysSwap(es, fs);
    ArraysSwap(fs, gs);
    ArraysSwap(es, gs);
    if es != [] && fs != [] && gs != [] {
      Triples(es[0], fs[0], gs[0]);
      ArraysTriple(es[1..], fs[1..], gs[1..]);
      TripleThen(Compare(es[0], fs[0]), Compare(fs[0], gs[0]), Compare(es[0], gs[0]),
                 CompareArrays(es[1..], fs[1..]), CompareArrays(fs[1..], gs[1..]), CompareArrays(es[1..], gs[1..]));
    } else {
      ArraysEnd(es, fs);
      ArraysEnd(fs, gs);
      ArraysEnd(es, gs);
    }
  }

  lemma ArraysEnd(es: seq<Value>, fs: seq<Value>)
    ensures es == [] || fs == [] ==> CompareArrays(es, fs) == CmpInt(|es|, |fs|)
  {}

  lemma MapsTriple(a: Value, b: Value, c: Value)
    requires a.Map? && b.Map? && c.Map? && Ordered(a) && Ordered(b) && Ordered(c) && TypeOrder(a) == TypeOrder(b) == TypeOrder(c)
    ensures Triple(Compare(a, b), Compare(b, c), Compare(a, c))
    decreases a, 2
  {
    hide SortedKeys, CompareArrays, CompareEntries;
    if IsVector(a.fields) {
      VectorsTriple(a, b, c);
    } else {
      EntriesTriple(a, SortedKeys(a.fields.Keys), b, SortedKeys(b.fields.Keys), c, SortedKeys(c.fields.Keys));
    }
  }

  lemma VectorsTriple(a: Value, b: Value, c: Value)
    requires a.Map? && b.Map? && c.Map? && Ordered(a) && Ordered(b) && Ordered(c)
    requires IsVector(a.fields) && IsVector(b.fields) && IsVector(c.fields)
    ensures Triple(Compare(a, b), Compare(b, c), Compare(a, c))
    decreases a, 1
  {
    hide CompareArrays;
    var x, y, z := VectorElems(a.fields), VectorElems(b.fields), VectorElems(c.fields);
    IntTriple(|x|, |y|, |z|);
    if |x| == |y| == |z| && x != [] { ArraysTriple(x, y, z); }
    Swaps(a, b);
    Swaps(b, c);
    Swaps(a, c);
  }

  lemma {:induction false} EntriesTriple(a: Value, ak: seq<Str>, b: Value, bk: seq<Str>, c: Value, ck: seq<Str>)
    requires a.Map? && b.Map? && c.Map?
    requires forall k :: k in ak ==> k in a.fields && Ordered(a.fields[k])
    requires forall k :: k in bk ==> k in b.fields && Ordered(b.fields[k])
    requires forall k :: k in ck ==> k in c.fields && Ordered(c.fields[k])
    ensures Triple(CompareEntries(a, ak, b, bk), CompareEntries(b, bk, c, ck), CompareEntries(a, ak, c, ck))
    decreases a, 0, |ak|
  {
    hide Compare, CompareBytes, Ordered;
    EntriesSwap(a, ak, b, bk);
    EntriesSwap(b, bk, c, ck);
    EntriesSwap(a, ak, c, ck);
    if ak != [] && bk != [] && ck != [] {
      var u, v, w := a.fields[ak[0]], b.fields[bk[0]], c.fields[ck[0]];
      BytesTriple(ak[0], bk[0], ck[0]);
      Triples(u, v, w);
      EntriesTriple(a, ak[1..], b, bk[1..], c, ck[1..]);
      var x, y, z := CompareEntries(a, ak[1..], b, bk[1..]), CompareEntries(b, bk[1..], c, ck[1..]), CompareEntries(a, ak[1..], c, ck[1..]);
      TripleThen(Compare(u, v), Compare(v, w), Compare(u, w), x, y, z);
      TripleThen(CompareBytes(ak[0], bk[0]), CompareBytes(bk[0], ck[0]), CompareBytes(ak[0], ck[0]),
                 Then(Compare(u, v), x), Then(Compare(v, w), y), Then(Compare(u, w), z));
    } else {
      EntriesEnd(a, ak, b, bk);
      EntriesEnd(b, bk, c, ck);
      EntriesEnd(a, ak, c, ck);
    }
  }

  lemma EntriesEnd(a: Value, ak: seq<Str>, b: Value, bk: seq<Str>)
    requires a.Map? && b.Map? && (forall k :: k in ak ==> k in a.fields) && (forall k :: k in bk ==> k in b.fields)
    ensures ak == [] || bk == [] ==> CompareEntries(a, ak, b, bk) == CmpInt(|ak|, |bk|)
  {}

  // ------------------------------------------------------------------ theorems

  // Compare is a total order.
  lemma CompareTotalOrder(a: Value, b: Value, c: Value)
    requires Ordered(a) && Ordered(b) && Ordered(c)
    ensures Compare(a, a) == 0
    ensures Compare(b, a) == -Compare(a, b) && Compare(a, b) in {-1, 0, 1}
    ensures Compare(a, b) <= 0 && Compare(b, c) <= 0 ==> Compare(a, c) <= 0
    ensures Compare(a, b) <= 0 && Compare(b, c) <= 0 && Compare(a, c) == 0 ==> Compare(a, b) == 0 == Compare(b, c)
  {
    hide Compare, Ordered;
    Swaps(a, a);
    Swaps(a, b);
    Triples(a, b, c);
  }

  // A NaN coordinate ties with every other, and two that differ do not tie.
  lemma NaNNotTransitive(nan: Double, lng: Double)
    requires IsNaN(nan) && !IsNaN(lng)
    ensures var zero, inf := Bits64(false, 0, 0), Bits64(false, 2047, 0);
      && Compare(GeoPoint(inf, lng), GeoPoint(nan, lng)) == 0 && Compare(GeoPoint(nan, lng), GeoPoint(zero, lng)) == 0
      && Compare(GeoPoint(inf, lng), GeoPoint(zero, lng)) == 1
  {
    var zero, inf := Bits64(false, 0, 0), Bits64(false, 2047, 0);
    assert CmpFloat(lng, lng) == 0;
  }
}
