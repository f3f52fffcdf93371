// Firestore values and their total order (internal/value/compare.go).
module Values {
  import opened Bytes
  import opened Numbers

  type Int32 = x: int | -0x8000_0000 <= x < 0x8000_0000

  // google.firestore.v1.Value. An absent value reads as null.
  datatype Value =
    | Null
    | Bool(b: bool)
    | Integer(x: Int64)
    | DoubleV(d: Double)
    | Timestamp(seconds: Int64, nanos: Int32)
    | String(s: Str)
    | BytesV(bs: seq<byte>)
    | Reference(name: Str)
    | GeoPoint(lat: Double, lng: Double)
    | Array(elems: seq<Value>)
    | Map(fields: map<Str, Value>)
    | Unknown

  type Fields = map<Str, Value>

  // "__type__", "__vector__" and "value".
  const TYPE_KEY: Str := [0x5F, 0x5F, 0x74, 0x79, 0x70, 0x65, 0x5F, 0x5F]
  const VECTOR_TYPE: Str := [0x5F, 0x5F, 0x76, 0x65, 0x63, 0x74, 0x6F, 0x72, 0x5F, 0x5F]
  const VALUE_KEY: Str := [0x76, 0x61, 0x6C, 0x75, 0x65]

  predicate IsVector(m: Fields) {
    TYPE_KEY in m && m[TYPE_KEY] == String(VECTOR_TYPE) && VALUE_KEY in m
  }

  // The elements of a vector: none when its payload is not an array.
  function VectorElems(m: Fields): seq<Value>
    requires IsVector(m)
  {
    if m[VALUE_KEY].Array? then m[VALUE_KEY].elems else []
  }

  function TypeOrder(v: Value): int {
    match v
    case Null => 0
    case Bool(_) => 1
    case Integer(_) => 3
    case DoubleV(d) => if IsNaN(d) then 2 else 3
    case Timestamp(_, _) => 4
    case String(_) => 5
    case BytesV(_) => 6
    case Reference(_) => 7
    case GeoPoint(_, _) => 8
    case Array(_) => 9
    case Map(m) => if IsVector(m) then 10 else 11
    case Unknown => 12
  }

  predicate IsNullValue(v: Value) { TypeOrder(v) == 0 }
  predicate IsNaNValue(v: Value) { TypeOrder(v) == 2 }

  function NumberOf(v: Value): (n: Number)
    requires TypeOrder(v) == 3
    ensures Comparable(n)
  {
    if v.Integer? then Int(v.x) else Dbl(v.d)
  }

  // ---------------------------------------------------------- sorted map keys

  predicate AtMost(m: Str, ks: set<Str>) {
    forall k :: k in ks ==> CompareBytes(m, k) <= 0
  }

  lemma {:induction false} LeastExists(ks: set<Str>) returns (m: Str)
    requires ks != {}
    ensures m in ks && AtMost(m, ks)
    decreases ks
  {
    var x :| x in ks;
    var rest := ks - {x};
    CompareRefl(x);
    m := x;
    if rest != {} {
      var n := LeastExists(rest);
      m := LowerOf(x, n, rest);
    }
    forall k | k in ks ensures CompareBytes(m, k) <= 0 { assert k == x || k in rest; }
  }

  lemma LowerOf(x: Str, n: Str, rest: set<Str>) returns (m: Str)
    requires n in rest && AtMost(n, rest)
    ensures m in {x, n} && AtMost(m, rest) && CompareBytes(m, x) <= 0
  {
    CompareRefl(x);
    CompareSwap(x, n);
    if CompareBytes(x, n) <= 0 {
      m := x;
      forall k | k in rest ensures CompareBytes(x, k) <= 0 { CompareTrans(x, n, k); }
    } else {
      m := n;
    }
  }

  lemma LeastUnique(ks: set<Str>, m: Str, n: Str)
    requires m in ks && AtMost(m, ks) && n in ks && AtMost(n, ks)
    ensures m == n
  {
    CompareSwap(m, n);
    CompareZero(m, n);
  }

  function Least(ks: set<Str>): (m: Str)
    requires ks != {}
    ensures m in ks && AtMost(m, ks)
  {
    assert exists m :: m in ks && AtMost(m, ks) by { var m := LeastExists(ks); }
    assert forall m, n | m in ks && AtMost(m, ks) && n in ks && AtMost(n, ks) :: m == n by {
      forall m, n | m in ks && AtMost(m, ks) && n in ks && AtMost(n, ks) ensures m == n { LeastUnique(ks, m, n); }
    }
    var m :| m in ks && AtMost(m, ks);
    m
  }

  predicate Increasing(r: seq<Str>) {
    forall i, j :: 0 <= i < j < |r| ==> Less(r[i], r[j])
  }

  // The byte-ordered enumeration of a map's keys.
  function SortedKeys(ks: set<Str>): (r: seq<Str>)
    ensures |r| == |ks|
    ensures forall k :: k in r <==> k in ks
    ensures Increasing(r)
    decreases ks
  {
    if ks == {} then []
    else
      var m := Least(ks);
      var rest := SortedKeys(ks - {m});
      LeastFirst(ks, m, rest);
      [m] + rest
  }

  lemma LeastFirst(ks: set<Str>, m: Str, rest: seq<Str>)
    requires m in ks && AtMost(m, ks)
    requires Increasing(rest) && (forall k :: k in rest <==> k in ks - {m})
    ensures Increasing([m] + rest)
  {
    forall j | 0 <= j < |rest| ensures Less(m, rest[j]) {
      assert rest[j] in rest;
      CompareZero(m, rest[j]);
    }
  }

  // ------------------------------------------------------------- resource names

  function FirstSlash(s: Str): (i: nat)
    ensures i <= |s|
    ensures forall j :: 0 <= j < i ==> s[j] != SLASH
    ensures i < |s| ==> s[i] == SLASH
  {
    if s == [] || s[0] == SLASH then 0 else 1 + FirstSlash(s[1..])
  }

  // strings.Split(s, "/").
  function Segments(s: Str): (segs: seq<Str>)
    ensures |segs| >= 1
    decreases |s|
  {
    var i := FirstSlash(s);
    if i == |s| then [s] else [s[..i]] + Segments(s[i + 1..])
  }

  // strings.Join(segs, "/").
  function Join(segs: seq<Str>): Str {
    if segs == [] then []
    else if |segs| == 1 then segs[0]
    else segs[0] + [SLASH] + Join(segs[1..])
  }

  lemma {:induction false} JoinSplit(s: Str)
    ensures Join(Segments(s)) == s
    decreases |s|
  {
    hide FirstSlash, Join;
    var i := FirstSlash(s);
    if i < |s| {
      JoinSplit(s[i + 1..]);
      JoinHead(s[..i], Segments(s[i + 1..]));
      assert s == s[..i] + [SLASH] + s[i + 1..];
    } else {
      JoinOne(s);
    }
  }

  lemma JoinHead(x: Str, rest: seq<Str>)
    requires rest != []
    ensures Join([x] + rest) == x + [SLASH] + Join(rest)
  {
    assert ([x] + rest)[1..] == rest;
  }

  lemma JoinOne(x: Str)
    ensures Join([x]) == x
  {}

  function CompareSegments(as_: seq<Str>, bs: seq<Str>): int
    decreases as_
  {
    if as_ == [] || bs == [] then CmpInt(|as_|, |bs|)
    else Then(CompareBytes(as_[0], bs[0]), CompareSegments(as_[1..], bs[1..]))
  }

  function CompareResourceNames(a: Str, b: Str): int {
    CompareSegments(Segments(a), Segments(b))
  }

  // The source's loop over two split names.
  method CompareNames(a: Str, b: Str) returns (c: int)
    ensures c == CompareResourceNames(a, b)
  {
    var as_, bs := Segments(a), Segments(b);
    var n := if |as_| < |bs| then |as_| else |bs|;
    for i := 0 to n
      invariant CompareSegments(as_, bs) == CompareSegments(as_[i..], bs[i..])
    {
      c := CompareBytes(as_[i], bs[i]);
      assert as_[i..][1..] == as_[i + 1..] && bs[i..][1..] == bs[i + 1..];
      if c != 0 { return; }
    }
    c := CmpInt(|as_|, |bs|);
  }

  // ------------------------------------------------------------------- Compare

  function CmpBool(a: bool, b: bool): int {
    if a == b then 0 else if !a then -1 else 1
  }

  function Compare(a: Value, b: Value): int
    decreases a
  {
    if TypeOrder(a) != TypeOrder(b) then CmpInt(TypeOrder(a), TypeOrder(b))
    else
      match a
      case Null => 0
      case Bool(x) => CmpBool(x, b.b)
      case Integer(_) => CompareNumbers(NumberOf(a), NumberOf(b))
      case DoubleV(d) => if IsNaN(d) then 0 else CompareNumbers(NumberOf(a), NumberOf(b))
      case Timestamp(s, n) => Then(CmpInt(s, b.seconds), CmpInt(n, b.nanos))
      case String(s) => CompareBytes(s, b.s)
      case BytesV(bs) => CompareBytes(bs, b.bs)
      case Reference(r) => CompareResourceNames(r, b.name)
      case GeoPoint(lat, lng) => Then(CmpFloat(lat, b.lat), CmpFloat(lng, b.lng))
      case Array(es) => CompareArrays(es, b.elems)
      case Map(m) =>
        if IsVector(m) then
          var ea, eb := VectorElems(m), VectorElems(b.fields);
          Then(CmpInt(|ea|, |eb|), if ea == [] then 0 else CompareArrays(ea, eb))
        else CompareEntries(a, SortedKeys(m.Keys), b, SortedKeys(b.fields.Keys))
      case Unknown => 0
  }

  function CompareArrays(as_: seq<Value>, bs: seq<Value>): int
    decreases as_
  {
    if as_ == [] || bs == [] then CmpInt(|as_|, |bs|)
    else Then(Compare(as_[0], bs[0]), CompareArrays(as_[1..], bs[1..]))
  }

  function CompareEntries(a: Value, ak: seq<Str>, b: Value, bk: seq<Str>): int
    requires a.Map? && (forall k :: k in ak ==> k in a.fields)
    requires b.Map? && (forall k :: k in bk ==> k in b.fields)
    decreases a, 0, |ak|
  {
    if ak == [] || bk == [] then CmpInt(|ak|, |bk|)
    else
      Then(CompareBytes(ak[0], bk[0]),
           Then(Compare(a.fields[ak[0]], b.fields[bk[0]]), CompareEntries(a, ak[1..], b, bk[1..])))
  }

  // The source's loop with early return.
  method CompareArraysLoop(as_: seq<Value>, bs: seq<Value>) returns (c: int)
    ensures c == CompareArrays(as_, bs)
  {
    hide Compare;
    var n := if |as_| < |bs| then |as_| else |bs|;
    for i := 0 to n
      invariant CompareArrays(as_, bs) == CompareArrays(as_[i..], bs[i..])
    {
      c := Compare(as_[i], bs[i]);
      assert as_[i..][1..] == as_[i + 1..] && bs[i..][1..] == bs[i + 1..];
      if c != 0 { return; }
    }
    c := CmpInt(|as_|, |bs|);
  }

  method CompareMapsLoop(a: Value, b: Value) returns (c: int)
    requires a.Map? && b.Map?
    ensures c == CompareEntries(a, SortedKeys(a.fields.Keys), b, SortedKeys(b.fields.Keys))
  {
    hide Compare, SortedKeys;
    var ak, bk := SortedKeys(a.fields.Keys), SortedKeys(b.fields.Keys);
    var n := if |ak| < |bk| then |ak| else |bk|;
    for i := 0 to n
      invariant CompareEntries(a, ak, b, bk) == CompareEntries(a, ak[i..], b, bk[i..])
    {
      assert ak[i] in ak && bk[i] in bk;
      assert ak[i..][1..] == ak[i + 1..] && bk[i..][1..] == bk[i + 1..];
      c := CompareBytes(ak[i], bk[i]);
      if c != 0 { return; }
      c := Compare(a.fields[ak[i]], b.fields[bk[i]]);
      if c != 0 { return; }
    }
    c := CmpInt(|ak|, |bk|);
  }

  // What the encoding demands of a value: timestamps with non-negative nanos,
  // geopoints without NaN, vectors of fewer than 2^32 elements, at every depth
  // the order looks at.
  predicate WellFormed(v: Value)
    decreases v
  {
    match v
    case Timestamp(_, n) => n >= 0
    case GeoPoint(lat, lng) => !IsNaN(lat) && !IsNaN(lng)
    case Array(es) => AllWellFormed(es)
    case Map(m) =>
      if IsVector(m) then
        var es := VectorElems(m);
        |es| < 0x1_0000_0000 && (es == [] || AllWellFormed(es))
      else forall k :: k in m ==> WellFormed(m[k])
    case _ => true
  }

  predicate AllWellFormed(es: seq<Value>)
    decreases es
  {
    forall i :: 0 <= i < |es| ==> WellFormed(es[i])
  }
}
