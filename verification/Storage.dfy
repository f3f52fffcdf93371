// What a document reads back as once stored: the tagged JSON of internal/value/value.go
// keeps timestamps to the microsecond and refuses some values.
module Storage {
  import opened Bytes
  import opened Numbers
  import opened Values
  import opened SortKeys
  import opened FieldPaths

  // 0001-01-01T00:00:00Z and 9999-12-31T23:59:59Z in Unix seconds.
  const MIN_SECONDS: int := -62135596800
  const MAX_SECONDS: int := 253402300799
  const GIGA: int := 1_000_000_000

  function Nanoseconds(s: Int64, n: Int32): int { s * GIGA + n }

  predicate InRange(s: Int64, n: Int32) {
    MIN_SECONDS * GIGA <= Nanoseconds(s, n) < (MAX_SECONDS + 1) * GIGA
  }

  // formatTimestamp and back: normalized, and rounded down to the microsecond.
  function StoreTime(s: Int64, n: Int32): Option<Value> {
    if !InRange(s, n) then None
    else
      var t := Nanoseconds(s, n) - Nanoseconds(s, n) % 1000;
      Some(Timestamp(t / GIGA, t % GIGA))
  }

  // Every NaN reads back as math.NaN().
  const NAN: Double := Bits64(false, 2047, 0x8_0000_0000_0001)

  function StoreDouble(d: Double): Double { if IsNaN(d) then NAN else d }

  predicate HasNul(s: Str) { exists i :: 0 <= i < |s| && s[i] == 0 }

  // decode(encode(v)); None is an encoding error.
  function Store(v: Value): Option<Value>
    decreases v
  {
    match v
    case DoubleV(d) => Some(DoubleV(StoreDouble(d)))
    case Timestamp(s, n) => StoreTime(s, n)
    case Reference(r) => if HasNul(r) then None else Some(v)
    case GeoPoint(lat, lng) => Some(GeoPoint(StoreDouble(lat), StoreDouble(lng)))
    case Array(es) =>
      if exists i :: 0 <= i < |es| && Store(es[i]).None? then None
      else Some(Array(seq(|es|, i requires 0 <= i < |es| => Store(es[i]).value)))
    case Map(m) =>
      if exists k :: k in m && (HasNul(k) || Store(m[k]).None?) then None
      else Some(Map(map k | k in m :: Store(m[k]).value))
    case Unknown => None
    case _ => Some(v)
  }

  function StoreFields(fields: Fields): Option<Fields> {
    var root := Store(Map(fields));
    if root.None? then None else Some(root.value.fields)
  }

  lemma StoreFieldsAt(fields: Fields, k: Str)
    requires StoreFields(fields).Some?
    ensures var w := StoreFields(fields).value;
      (k in w <==> k in fields) && (k in fields ==> Store(fields[k]) == Some(w[k]))
  {
    assert Map(fields).Map?;
  }

  lemma StoreMap(v: Value)
    requires Store(v).Some?
    ensures v.Map? <==> Store(v).value.Map?
    ensures v.Map? ==> StoreFields(v.fields) == Some(Store(v).value.fields)
  {}

  // Reading a field of the stored document is storing the field read.
  lemma {:induction false} StoredField(fields: Fields, path: Path)
    requires StoreFields(fields).Some?
    ensures var v, w := GetField(fields, path), GetField(StoreFields(fields).value, path);
      (v.None? <==> w.None?) && (v.Some? ==> Store(v.value) == w)
    decreases |path|
  {
    hide Store, StoreFields;
    if path != [] {
      StoreFieldsAt(fields, path[0]);
      if path[0] in fields {
        StoreMap(fields[path[0]]);
        if fields[path[0]].Map? { StoredField(fields[path[0]].fields, path[1..]); }
      }
    }
  }

  // ------------------------------------------------------- what storing changes

  // Every timestamp the order looks at is normalized and a whole number of
  // microseconds.
  predicate Whole(v: Value)
    decreases v
  {
    match v
    case Timestamp(_, n) => 0 <= n < GIGA && n % 1000 == 0
    case Array(es) => AllWhole(es)
    case Map(m) =>
      if IsVector(m) then var es := VectorElems(m); es == [] || AllWhole(es)
      else forall k :: k in m ==> Whole(m[k])
    case _ => true
  }

  predicate AllWhole(es: seq<Value>)
    decreases es
  {
    forall i :: 0 <= i < |es| ==> Whole(es[i])
  }

  predicate AreStored(es: seq<Value>, fs: seq<Value>) {
    |fs| == |es| && forall i :: 0 <= i < |es| ==> Store(es[i]) == Some(fs[i])
  }

  lemma StoreVector(m: Fields)
    requires Store(Map(m)).Some?
    ensures var w := Store(Map(m)).value.fields;
      && w.Keys == m.Keys && (IsVector(w) <==> IsVector(m)) && (forall k :: k in m ==> Store(m[k]) == Some(w[k]))
      && (IsVector(m) ==> AreStored(VectorElems(m), VectorElems(w)))
  {
    var w := Store(Map(m)).value.fields;
    assert forall k :: k in m ==> Store(m[k]) == Some(w[k]);
    if TYPE_KEY in m { StoreString(m[TYPE_KEY]); }
    if VALUE_KEY in m { StoreElems(m[VALUE_KEY]); }
  }

  lemma StoreString(v: Value)
    requires Store(v).Some?
    ensures v == String(VECTOR_TYPE) <==> Store(v).value == String(VECTOR_TYPE)
  {}

  lemma StoreElems(v: Value)
    requires Store(v).Some?
    ensures v.Array? <==> Store(v).value.Array?
    ensures v.Array? ==> AreStored(v.elems, Store(v).value.elems)
  {}

  lemma StoreKind(v: Value)
    requires Store(v).Some?
    ensures TypeOrder(Store(v).value) == TypeOrder(v)
  {
    if v.Map? { StoreVector(v.fields); }
  }

  lemma {:induction false} ArraysZero(es: seq<Value>, fs: seq<Value>)
    requires |es| == |fs|
    ensures CompareArrays(es, fs) == 0 <==> forall i :: 0 <= i < |es| ==> Compare(es[i], fs[i]) == 0
    decreases |es|
  {
    hide Compare;
    if es != [] {
      ArraysZero(es[1..], fs[1..]);
      if forall i :: 0 <= i < |es| ==> Compare(es[i], fs[i]) == 0 {
        forall i | 0 <= i < |es[1..]| ensures Compare(es[1..][i], fs[1..][i]) == 0 { assert es[i + 1] == es[1..][i]; }
      }
      if CompareArrays(es, fs) == 0 {
        forall i | 0 <= i < |es| ensures Compare(es[i], fs[i]) == 0 {
          if i > 0 { assert es[i] == es[1..][i - 1] && fs[i] == fs[1..][i - 1]; }
        }
      }
    }
  }

  lemma {:induction false} EntriesZero(a: Value, b: Value, ks: seq<Str>)
    requires a.Map? && b.Map? && forall k :: k in ks ==> k in a.fields && k in b.fields
    ensures CompareEntries(a, ks, b, ks) == 0 <==> forall k :: k in ks ==> Compare(a.fields[k], b.fields[k]) == 0
    decreases |ks|
  {
    hide Compare;
    if ks != [] {
      EntriesZero(a, b, ks[1..]);
      CompareRefl(ks[0]);
      assert forall k :: k in ks <==> k == ks[0] || k in ks[1..];
    }
  }

  // A stored value is well formed, and equals what was sent exactly when that had
  // nothing below the microsecond.
  lemma {:induction false} StoreKeeps(v: Value)
    requires WellFormed(v) && Store(v).Some?
    ensures WellFormed(Store(v).value) && Whole(Store(v).value)
    ensures Compare(v, Store(v).value) == 0 <==> Whole(v)
    decreases v, 1
  {
    hide Compare;
    var w := Store(v).value;
    StoreKind(v);
    match v
    case Timestamp(_, _) => TimeKeeps(v);
    case Array(es) =>
      StoreElems(v);
      ElemsKeep(es, w.elems);
      ArraysZero(es, w.elems);
      ComparedArrays(v, w);
    case Map(m) => MapKeeps(v);
    case _ => ScalarKeeps(v);
  }

  lemma ComparedArrays(v: Value, w: Value)
    requires v.Array? && w.Array?
    ensures Compare(v, w) == CompareArrays(v.elems, w.elems)
  {}

  lemma ScalarKeeps(v: Value)
    requires WellFormed(v) && Store(v).Some? && !v.Timestamp? && !v.Array? && !v.Map?
    ensures WellFormed(Store(v).value) && Whole(Store(v).value) && Compare(v, Store(v).value) == 0
  {
    match v
    case DoubleV(d) => if !IsNaN(d) { CompareNumbersExact(NumberOf(v), NumberOf(v)); }
    case String(s) => CompareRefl(s);
    case BytesV(s) => CompareRefl(s);
    case Reference(r) => NamesEqual(r, r);
    case _ =>
  }

  lemma TimeKeeps(v: Value)
    requires v.Timestamp? && WellFormed(v) && Store(v).Some?
    ensures WellFormed(Store(v).value) && Whole(Store(v).value)
    ensures Compare(v, Store(v).value) == 0 <==> Whole(v)
  {
    hide Nanoseconds, InRange;
    RoundedDown(v.seconds, v.nanos, Nanoseconds(v.seconds, v.nanos));
    SameTimes(v, Store(v).value);
  }

  lemma SameTimes(v: Value, w: Value)
    requires v.Timestamp? && w.Timestamp?
    ensures Compare(v, w) == 0 <==> v.seconds == w.seconds && v.nanos == w.nanos
  {}

  // What is left after the microseconds, and when that is everything.
  lemma RoundedDown(s: Int64, n: Int32, t: int)
    requires t == Nanoseconds(s, n)
    ensures var u := t - t % 1000;
      (u % GIGA) % 1000 == 0 && (u / GIGA == s && u % GIGA == n <==> 0 <= n < GIGA && n % 1000 == 0)
  {
    var u := t - t % 1000;
    ThousandsOf(u, u / GIGA, u % GIGA);
    if 0 <= n < GIGA && n % 1000 == 0 {
      ThousandsIn(t, s, n);
      Normal(t, s, n);
    }
  }

  lemma ThousandsOf(u: int, q: int, n: int)
    requires u % 1000 == 0 && u == q * GIGA + n
    ensures n % 1000 == 0
  {
    assert n == 1000 * (u / 1000 - q * 1_000_000);
  }

  lemma ThousandsIn(t: int, s: int, n: int)
    requires n % 1000 == 0 && t == s * GIGA + n
    ensures t % 1000 == 0
  {
    assert t == 1000 * (s * 1_000_000 + n / 1000);
  }

  lemma Normal(t: int, s: int, n: int)
    requires t == s * GIGA + n && 0 <= n < GIGA
    ensures t / GIGA == s && t % GIGA == n
  {}

  lemma {:induction false} ElemsKeep(es: seq<Value>, fs: seq<Value>)
    requires AllWellFormed(es) && AreStored(es, fs)
    ensures AllWellFormed(fs) && AllWhole(fs)
    ensures (forall i :: 0 <= i < |es| ==> Compare(es[i], fs[i]) == 0) <==> AllWhole(es)
    decreases es, 0
  {
    hide Compare;
    forall i | 0 <= i < |es|
      ensures WellFormed(fs[i]) && Whole(fs[i]) && (Compare(es[i], fs[i]) == 0 <==> Whole(es[i]))
    {
      StoreKeeps(es[i]);
    }
  }

  lemma MapKeeps(v: Value)
    requires v.Map? && WellFormed(v) && Store(v).Some?
    ensures WellFormed(Store(v).value) && Whole(Store(v).value)
    ensures Compare(v, Store(v).value) == 0 <==> Whole(v)
    decreases v, 0
  {
    hide Compare, SortedKeys;
    var w, m := Store(v).value, v.fields;
    StoreVector(m);
    if IsVector(m) {
      var es, fs := VectorElems(m), VectorElems(w.fields);
      if es != [] { ElemsKeep(es, fs); }
      ArraysZero(es, fs);
      ComparedVectors(v, w);
    } else {
      forall k | k in m
        ensures WellFormed(w.fields[k]) && Whole(w.fields[k]) && (Compare(m[k], w.fields[k]) == 0 <==> Whole(m[k]))
      {
        StoreKeeps(m[k]);
      }
      EntriesZero(v, w, SortedKeys(m.Keys));
      ComparedMaps(v, w);
    }
  }

  lemma ComparedVectors(v: Value, w: Value)
    requires v.Map? && w.Map? && IsVector(v.fields) && IsVector(w.fields) && |VectorElems(v.fields)| == |VectorElems(w.fields)|
    ensures Compare(v, w) == if VectorElems(v.fields) == [] then 0 else CompareArrays(VectorElems(v.fields), VectorElems(w.fields))
  {}

  lemma ComparedMaps(v: Value, w: Value)
    requires v.Map? && w.Map? && !IsVector(v.fields) && !IsVector(w.fields)
    ensures Compare(v, w) == CompareEntries(v, SortedKeys(v.fields.Keys), w, SortedKeys(w.fields.Keys))
  {}

  lemma {:induction false} ArraysSameSize(es: seq<Value>, fs: seq<Value>)
    requires CompareArrays(es, fs) == 0
    ensures |es| == |fs|
    decreases |es|
  {
    hide Compare;
    if es != [] && fs != [] { ArraysSameSize(es[1..], fs[1..]); }
  }

  lemma {:induction false} EntriesSameKeys(a: Value, ak: seq<Str>, b: Value, bk: seq<Str>)
    requires a.Map? && b.Map? && (forall k :: k in ak ==> k in a.fields) && (forall k :: k in bk ==> k in b.fields)
    requires CompareEntries(a, ak, b, bk) == 0
    ensures ak == bk
    decreases |ak|
  {
    hide Compare;
    if ak != [] && bk != [] {
      CompareZero(ak[0], bk[0]);
      EntriesSameKeys(a, ak[1..], b, bk[1..]);
      assert ak == [ak[0]] + ak[1..] && bk == [bk[0]] + bk[1..];
    }
  }

  // Equal values are whole together.
  lemma {:induction false} WholeTogether(u: Value, w: Value)
    requires Compare(u, w) == 0 && Whole(w) && TypeOrder(u) == TypeOrder(w)
    requires u.Timestamp? ==> w.Timestamp?
    ensures Whole(u)
    decreases u
  {
    hide Compare, SortedKeys;
    match u
    case Timestamp(_, _) => SameTime(u, w);
    case Array(es) =>
      SameKind(u, w);
      ComparedArrays(u, w);
      ArraysSameSize(es, w.elems);
      ArraysZero(es, w.elems);
      WholeElems(es, w.elems);
    case Map(m) =>
      SameKind(u, w);
      if IsVector(m) {
        var es, fs := VectorElems(m), VectorElems(w.fields);
        SameVectors(u, w);
        ArraysZero(es, fs);
        if es != [] { WholeElems(es, fs); }
      } else {
        ComparedMaps(u, w);
        EntriesSameKeys(u, SortedKeys(m.Keys), w, SortedKeys(w.fields.Keys));
        EntriesZero(u, w, SortedKeys(m.Keys));
        forall k | k in m ensures Whole(m[k]) {
          assert k in SortedKeys(m.Keys) && k in SortedKeys(w.fields.Keys);
          SameOrder(m[k], w.fields[k]);
          WholeTogether(m[k], w.fields[k]);
        }
      }
    case _ =>
  }

  lemma SameOrder(u: Value, w: Value)
    requires Compare(u, w) == 0
    ensures TypeOrder(u) == TypeOrder(w) && (u.Timestamp? ==> w.Timestamp?)
  {}

  lemma SameTime(u: Value, w: Value)
    requires u.Timestamp? && w.Timestamp? && Compare(u, w) == 0
    ensures u == w
  {}

  lemma SameKind(u: Value, w: Value)
    requires TypeOrder(u) == TypeOrder(w)
    ensures u.Array? ==> w.Array?
    ensures u.Map? ==> w.Map? && (IsVector(u.fields) <==> IsVector(w.fields))
  {}

  lemma SameVectors(u: Value, w: Value)
    requires u.Map? && w.Map? && IsVector(u.fields) && IsVector(w.fields) && Compare(u, w) == 0
    ensures |VectorElems(u.fields)| == |VectorElems(w.fields)|
    ensures CompareArrays(VectorElems(u.fields), VectorElems(w.fields)) == 0
  {}

  lemma {:induction false} WholeElems(es: seq<Value>, fs: seq<Value>)
    requires |es| == |fs| && AllWhole(fs) && forall i :: 0 <= i < |es| ==> Compare(es[i], fs[i]) == 0
    ensures AllWhole(es)
    decreases es
  {
    hide Compare;
    forall i | 0 <= i < |es| ensures Whole(es[i]) {
      SameOrder(es[i], fs[i]);
      WholeTogether(es[i], fs[i]);
    }
  }
}
