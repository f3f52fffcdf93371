// Values that compare equal. Where the order looks at a NaN coordinate it ties with
// values that differ, and nowhere else.
module Ties {
  import opened Bytes
  import opened Numbers
  import opened Values
  import opened Orders
  import opened Storage

  const ZERO: Double := Bits64(false, 0, 0)
  const INF: Double := Bits64(false, 2047, 0)

  function FillDouble(d: Double, x: Double): Double { if IsNaN(d) then x else d }

  // The value with x for every NaN coordinate.
  function Fill(v: Value, x: Double): Value
    decreases v
  {
    match v
    case GeoPoint(lat, lng) => GeoPoint(FillDouble(lat, x), FillDouble(lng, x))
    case Array(es) => Array(seq(|es|, i requires 0 <= i < |es| => Fill(es[i], x)))
    case Map(m) =>
      if IsVector(m) then Map(m[VALUE_KEY := Fill(m[VALUE_KEY], x)])
      else Map(map k | k in m :: Fill(m[k], x))
    case _ => v
  }

  predicate AreFilled(es: seq<Value>, fs: seq<Value>, x: Double) {
    |fs| == |es| && forall i :: 0 <= i < |es| ==> fs[i] == Fill(es[i], x)
  }

  lemma FillString(v: Value, x: Double)
    ensures v.String? || Fill(v, x).String? ==> Fill(v, x) == v
    ensures v.Array? <==> Fill(v, x).Array?
    ensures v.Array? ==> AreFilled(v.elems, Fill(v, x).elems, x)
  {}

  lemma FillVector(m: Fields, x: Double)
    ensures var w := Fill(Map(m), x).fields;
      && w.Keys == m.Keys && (IsVector(w) <==> IsVector(m))
      && (!IsVector(m) ==> forall k :: k in m ==> w[k] == Fill(m[k], x))
      && (IsVector(m) ==> w == m[VALUE_KEY := Fill(m[VALUE_KEY], x)] && AreFilled(VectorElems(m), VectorElems(w), x))
  {
    assert Map(m).Map?;
    assert TYPE_KEY != VALUE_KEY;
    if TYPE_KEY in m { FillString(m[TYPE_KEY], x); }
    if VALUE_KEY in m { FillString(m[VALUE_KEY], x); }
  }

  lemma FillKind(v: Value, x: Double)
    ensures TypeOrder(Fill(v, x)) == TypeOrder(v)
  {
    if v.Map? { FillVector(v.fields, x); }
  }

  // ----------------------------------------------------------- filling ties

  // The filled value has no NaN coordinate left and ties with the value.
  lemma {:induction false} FillTies(v: Value, x: Double)
    requires !IsNaN(x)
    ensures Ordered(Fill(v, x)) && Compare(v, Fill(v, x)) == 0
    decreases v, 2
  {
    hide Compare;
    var w := Fill(v, x);
    FillKind(v, x);
    match v
    case GeoPoint(lat, lng) => GeoTies(v, x);
    case Array(es) =>
      FillString(v, x);
      ElemsTie(es, w.elems, x);
      ArraysZero(es, w.elems);
      ComparedArrays(v, w);
    case Map(m) => MapTies(v, x);
    case _ => Swaps(v, v);
  }

  lemma GeoTies(v: Value, x: Double)
    requires v.GeoPoint? && !IsNaN(x)
    ensures Ordered(Fill(v, x)) && Compare(v, Fill(v, x)) == 0
  {
    FloatSwaps(v.lat, v.lat);
    FloatSwaps(v.lng, v.lng);
  }

  lemma {:induction false} ElemsTie(es: seq<Value>, fs: seq<Value>, x: Double)
    requires !IsNaN(x) && AreFilled(es, fs, x)
    ensures AllOrdered(fs) && forall i :: 0 <= i < |es| ==> Compare(es[i], fs[i]) == 0
    decreases es, 0
  {
    hide Compare;
    forall i | 0 <= i < |es| ensures Ordered(fs[i]) && Compare(es[i], fs[i]) == 0 { FillTies(es[i], x); }
  }

  lemma MapTies(v: Value, x: Double)
    requires v.Map? && !IsNaN(x)
    ensures Ordered(Fill(v, x)) && Compare(v, Fill(v, x)) == 0
    decreases v, 1
  {
    hide Compare, SortedKeys;
    var w, m := Fill(v, x), v.fields;
    FillVector(m, x);
    if IsVector(m) {
      var es, fs := VectorElems(m), VectorElems(w.fields);
      if es != [] { ElemsTie(es, fs, x); }
      ArraysZero(es, fs);
      ComparedVectors(v, w);
    } else {
      forall k | k in m ensures Ordered(w.fields[k]) && Compare(m[k], w.fields[k]) == 0 { FillTies(m[k], x); }
      EntriesZero(v, w, SortedKeys(m.Keys));
      ComparedMaps(v, w);
    }
  }

  // -------------------------------------------------------- two fillings differ

  // Zero is below infinity: the two fillings are the same or in this order.
  lemma {:induction false} FillsApart(v: Value)
    ensures Compare(Fill(v, ZERO), Fill(v, INF)) == if Ordered(v) then 0 else -1
    decreases v, 2
  {
    hide Compare;
    var a, b := Fill(v, ZERO), Fill(v, INF);
    match v
    case GeoPoint(lat, lng) => GeosApart(v);
    case Array(es) =>
      FillString(v, ZERO);
      FillString(v, INF);
      ElemsApart(es, a.elems, b.elems);
      ComparedArrays(a, b);
    case Map(m) => MapsApart(v);
    case _ => Swaps(v, v);
  }

  lemma GeosApart(v: Value)
    requires v.GeoPoint?
    ensures Compare(Fill(v, ZERO), Fill(v, INF)) == if Ordered(v) then 0 else -1
  {
    FloatSwaps(v.lat, v.lat);
    FloatSwaps(v.lng, v.lng);
    assert CmpFloat(ZERO, INF) == -1;
  }

  lemma {:induction false} ElemsApart(es: seq<Value>, fs: seq<Value>, gs: seq<Value>)
    requires AreFilled(es, fs, ZERO) && AreFilled(es, gs, INF)
    ensures CompareArrays(fs, gs) == if AllOrdered(es) then 0 else -1
    decreases es, 0
  {
    hide Compare, Ordered;
    forall i | 0 <= i < |es| ensures Compare(fs[i], gs[i]) == if Ordered(es[i]) then 0 else -1 { FillsApart(es[i]); }
    ArraysDown(fs, gs);
  }

  lemma {:induction false} ArraysDown(fs: seq<Value>, gs: seq<Value>)
    requires |fs| == |gs| && forall i :: 0 <= i < |fs| ==> Compare(fs[i], gs[i]) in {0, -1}
    ensures CompareArrays(fs, gs) == if forall i :: 0 <= i < |fs| ==> Compare(fs[i], gs[i]) == 0 then 0 else -1
    decreases |fs|
  {
    hide Compare;
    if fs != [] {
      forall i | 0 <= i < |fs[1..]| ensures Compare(fs[1..][i], gs[1..][i]) in {0, -1} { assert fs[1..][i] == fs[i + 1]; }
      ArraysDown(fs[1..], gs[1..]);
      ArraysZero(fs, gs);
    }
  }

  lemma MapsApart(v: Value)
    requires v.Map?
    ensures Compare(Fill(v, ZERO), Fill(v, INF)) == if Ordered(v) then 0 else -1
    decreases v, 1
  {
    hide Compare, SortedKeys;
    var a, b, m := Fill(v, ZERO), Fill(v, INF), v.fields;
    FillVector(m, ZERO);
    FillVector(m, INF);
    if IsVector(m) {
      if VectorElems(m) != [] { ElemsApart(VectorElems(m), VectorElems(a.fields), VectorElems(b.fields)); }
      ComparedVectors(a, b);
    } else {
      forall k | k in m ensures Compare(a.fields[k], b.fields[k]) == if Ordered(m[k]) then 0 else -1 { FillsApart(m[k]); }
      EntriesDown(a, b, SortedKeys(m.Keys));
      ComparedMaps(a, b);
    }
  }

  lemma {:induction false} EntriesDown(a: Value, b: Value, ks: seq<Str>)
    requires a.Map? && b.Map? && forall k :: k in ks ==> k in a.fields && k in b.fields && Compare(a.fields[k], b.fields[k]) in {0, -1}
    ensures CompareEntries(a, ks, b, ks) == if forall k :: k in ks ==> Compare(a.fields[k], b.fields[k]) == 0 then 0 else -1
    decreases |ks|
  {
    hide Compare;
    if ks != [] {
      EntriesDown(a, b, ks[1..]);
      CompareRefl(ks[0]);
      EntriesZero(a, b, ks);
    }
  }

  // ---------------------------------------------------------------- theorem

  // Ties with a value carry over to one another exactly when the order looks at no
  // NaN coordinate in it: what a caller can see in the value, at every depth.
  lemma OrderedExact(v: Value)
    ensures Ordered(v) <==>
      forall a, b :: Ordered(a) && Ordered(b) && Compare(a, v) == 0 && Compare(v, b) == 0 ==> Compare(a, b) == 0
  {
    hide Compare, Ordered, Fill;
    if Ordered(v) {
      forall a, b | Ordered(a) && Ordered(b) && Compare(a, v) == 0 && Compare(v, b) == 0 ensures Compare(a, b) == 0 {
        Triples(a, v, b);
      }
    } else {
      FillTies(v, ZERO);
      FillTies(v, INF);
      FillsApart(v);
      Swaps(v, Fill(v, ZERO));
    }
  }
}
