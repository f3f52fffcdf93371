// Field transforms (applyTransforms, numericTransform and extremumTransform in
// internal/writes/writes.go).
module Transforms {
  import opened Bytes
  import opened Numbers
  import opened Values
  import opened Orders
  import opened SortKeys
  import opened FieldPaths
  import opened Conversions
  import opened Storage

  // Microseconds since the zero time, up to the year 9999.
  type Instant = t: nat | t < 315537897600 * 1_000_000

  // tsValue.
  function TimeValue(t: Instant): Value {
    Timestamp(t / 1_000_000 + MIN_SECONDS, (t % 1_000_000) * 1000)
  }

  lemma ServerTimeStored(t: Instant)
    ensures Store(TimeValue(t)) == Some(TimeValue(t))
  {
    var s, n := t / 1_000_000 + MIN_SECONDS, (t % 1_000_000) * 1000;
    ThousandsIn(Nanoseconds(s, n), s, n);
    Normal(Nanoseconds(s, n), s, n);
  }

  datatype Transform =
    | ServerValue(path: Str, requestTime: bool)
    | Increment(path: Str, operand: Value)
    | Maximum(path: Str, operand: Value)
    | Minimum(path: Str, operand: Value)
    | Union(path: Str, elems: seq<Value>)
    | Remove(path: Str, elems: seq<Value>)
    | Unsupported(path: Str)

  // ---------------------------------------------------------------- increment

  // int64 addition wraps.
  function Wrap64(n: int): Int64
    requires 0 - TWO64 <= n < TWO64
  {
    if n >= TWO63 then n - TWO64 else if n < 0 - TWO63 then n + TWO64 else n
  }

  // addInt64: the wrapped sum, unless its sign shows an overflow.
  function AddInt64(a: Int64, b: Int64): Option<Int64> {
    var s := Wrap64(a + b);
    if (a > 0 && b > 0 && s < 0) || (a < 0 && b < 0 && s >= 0) then None else Some(s)
  }

  function IncrementInt(a: Int64, b: Int64): Int64 {
    var s := AddInt64(a, b);
    if s.Some? then s.value
    else if (a > 0) == (b > 0) && a > 0 then 0x7FFF_FFFF_FFFF_FFFF
    else -0x8000_0000_0000_0000
  }

  // The increment is the exact sum, clamped to the range of int64.
  lemma IncrementSaturates(a: Int64, b: Int64)
    ensures IncrementInt(a, b) ==
      if a + b >= TWO63 then 0x7FFF_FFFF_FFFF_FFFF else if a + b < 0 - TWO63 then -0x8000_0000_0000_0000 else a + b
  {}

  predicate IsNumber(v: Value) { v.Integer? || v.DoubleV? }

  function DoubleOf(v: Value): Double
    requires IsNumber(v)
  {
    if v.Integer? then Float64(v.x) else v.d
  }

  // numericTransform; a missing field reads as None.
  function Incremented(cur: Option<Value>, operand: Value): Value {
    if !IsNumber(operand) || cur.None? || !IsNumber(cur.value) then operand
    else if cur.value.Integer? && operand.Integer? then Integer(IncrementInt(cur.value.x, operand.x))
    else DoubleV(AddDouble(DoubleOf(cur.value), DoubleOf(operand)))
  }

  // ------------------------------------------------------------------ extrema

  // extremumTransform, for the maximum (up) or the minimum.
  function Extremum(cur: Option<Value>, operand: Value, up: bool): Value {
    if cur.None? || !IsNumber(cur.value) then operand
    else if IsNaNValue(cur.value) then cur.value
    else if IsNaNValue(operand) then DoubleV(NAN)
    else
      var c := Compare(operand, cur.value);
      if (if up then c > 0 else c < 0) then operand else cur.value
  }

  predicate Unbeaten(r: Value, v: Value, up: bool) {
    if up then Compare(v, r) <= 0 else Compare(v, r) >= 0
  }

  // Of two numbers it is one that is not beaten, NaN beats all, and on a tie the
  // stored one stays.
  lemma ExtremumIs(cur: Value, operand: Value, up: bool)
    requires IsNumber(cur) && IsNumber(operand)
    ensures var r := Extremum(Some(cur), operand, up);
      && (IsNaNValue(r) <==> IsNaNValue(cur) || IsNaNValue(operand))
      && (!IsNaNValue(r) ==> r in {cur, operand} && Unbeaten(r, cur, up) && Unbeaten(r, operand, up))
      && (Compare(cur, operand) == 0 ==> r == cur)
  {
    hide Compare;
    CompareTotalOrder(cur, operand, cur);
    CompareTotalOrder(operand, cur, operand);
    if Compare(cur, operand) == 0 { NaNTies(cur, operand); }
  }

  lemma NaNTies(a: Value, b: Value)
    requires IsNumber(a) && IsNumber(b) && Compare(a, b) == 0
    ensures IsNaNValue(a) <==> IsNaNValue(b)
  {}

  // ------------------------------------------------------------------- arrays

  predicate HasEqual(list: seq<Value>, v: Value) {
    exists i :: 0 <= i < |list| && Compare(list[i], v) == 0
  }

  function Elements(v: Option<Value>): seq<Value> {
    if v.Some? && v.value.Array? then v.value.elems else []
  }

  function UnionOf(existing: seq<Value>, els: seq<Value>): seq<Value>
    decreases |els|
  {
    if els == [] then existing
    else UnionOf(if HasEqual(existing, els[0]) then existing else existing + [els[0]], els[1..])
  }

  function Without(existing: seq<Value>, els: seq<Value>): seq<Value>
    decreases |existing|
  {
    if existing == [] then []
    else (if HasEqual(els, existing[0]) then [] else [existing[0]]) + Without(existing[1..], els)
  }

  method UnionLoop(existing: seq<Value>, els: seq<Value>) returns (r: seq<Value>)
    ensures r == UnionOf(existing, els)
  {
    hide HasEqual;
    r := existing;
    for i := 0 to |els|
      invariant UnionOf(existing, els) == UnionOf(r, els[i..])
    {
      assert els[i..][1..] == els[i + 1..];
      if !HasEqual(r, els[i]) { r := r + [els[i]]; }
    }
  }

  method RemoveLoop(existing: seq<Value>, els: seq<Value>) returns (kept: seq<Value>)
    ensures kept == Without(existing, els)
  {
    hide HasEqual;
    kept := [];
    for i := 0 to |existing|
      invariant Without(existing, els) == kept + Without(existing[i..], els)
    {
      assert existing[i..][1..] == existing[i + 1..];
      ghost var rest := Without(existing[i + 1..], els);
      if !HasEqual(els, existing[i]) {
        assert (kept + [existing[i]]) + rest == kept + ([existing[i]] + rest);
        kept := kept + [existing[i]];
      } else {
        assert [] + rest == rest;
      }
    }
    assert kept + [] == kept;
  }

  // The union keeps what was there, in place, and adds only what it was given and
  // lacked; everything given is in it.
  lemma {:induction false} UnionHas(existing: seq<Value>, els: seq<Value>)
    ensures existing <= UnionOf(existing, els)
    ensures forall i :: 0 <= i < |els| ==> HasEqual(UnionOf(existing, els), els[i])
    ensures forall v :: v in UnionOf(existing, els) ==> v in existing || (v in els && !HasEqual(existing, v))
    decreases |els|
  {
    hide Compare;
    if els != [] {
      Swaps(els[0], els[0]);
      var next := if HasEqual(existing, els[0]) then existing else existing + [els[0]];
      UnionHas(next, els[1..]);
      var u := UnionOf(existing, els);
      assert HasEqual(next, els[0]) by { if next != existing { assert next[|existing|] == els[0]; } }
      StillEqual(next, u, els[0]);
      forall i | 0 <= i < |els| ensures HasEqual(u, els[i]) {
        if i > 0 { assert els[i] == els[1..][i - 1]; }
      }
      forall v | v in u ensures v in existing || (v in els && !HasEqual(existing, v)) {
        if v !in next {
          assert v in els[1..] && !HasEqual(next, v);
          if HasEqual(existing, v) { StillEqual(existing, next, v); }
        }
      }
    }
  }

  lemma StillEqual(a: seq<Value>, b: seq<Value>, v: Value)
    requires a <= b && HasEqual(a, v)
    ensures HasEqual(b, v)
  {
    hide Compare;
    var i :| 0 <= i < |a| && Compare(a[i], v) == 0;
    assert b[i] == a[i];
  }

  // Removal leaves exactly the elements that equal none of those given.
  lemma {:induction false} WithoutHas(existing: seq<Value>, els: seq<Value>, v: Value)
    ensures v in Without(existing, els) <==> v in existing && !HasEqual(els, v)
    decreases |existing|
  {
    hide HasEqual;
    if existing != [] { WithoutHas(existing[1..], els, v); }
  }

  // ---------------------------------------------------------------- transforms

  function Transformed(fields: Fields, tr: Transform, time: Instant): Option<Fields> {
    var path := Parse(tr.path);
    if path.None? then None
    else
      var p, cur := path.value, GetField(fields, path.value);
      match tr
      case ServerValue(_, requestTime) => if requestTime then Some(SetField(fields, p, TimeValue(time))) else None
      case Increment(_, v) => Some(SetField(fields, p, Incremented(cur, v)))
      case Maximum(_, v) => Some(SetField(fields, p, Extremum(cur, v, true)))
      case Minimum(_, v) => Some(SetField(fields, p, Extremum(cur, v, false)))
      case Union(_, els) => Some(SetField(fields, p, Array(UnionOf(Elements(cur), els))))
      case Remove(_, els) => Some(SetField(fields, p, Array(Without(Elements(cur), els))))
      case Unsupported(_) => None
  }

  function TransformAll(fields: Fields, trs: seq<Transform>, time: Instant): Option<Fields>
    decreases |trs|
  {
    if trs == [] then Some(fields)
    else
      var r := Transformed(fields, trs[0], time);
      if r.None? then None else TransformAll(r.value, trs[1..], time)
  }

  // applyTransforms: in order, each seeing the earlier ones, up to the first error.
  method ApplyTransforms(fields: Fields, trs: seq<Transform>, time: Instant) returns (r: Option<Fields>)
    ensures r == TransformAll(fields, trs, time)
  {
    var cur := fields;
    for i := 0 to |trs|
      invariant TransformAll(fields, trs, time) == TransformAll(cur, trs[i..], time)
    {
      assert trs[i..][1..] == trs[i + 1..];
      var next := TransformOne(cur, trs[i], time);
      if next.None? { return None; }
      cur := next.value;
    }
    return Some(cur);
  }

  method TransformOne(fields: Fields, tr: Transform, time: Instant) returns (r: Option<Fields>)
    ensures r == Transformed(fields, tr, time)
  {
    hide Incremented, Extremum, UnionOf, Without, SetField;
    var path := ParseFieldPath(tr.path);
    if path.None? { return None; }
    var p, cur := path.value, GetField(fields, path.value);
    match tr
    case ServerValue(_, requestTime) =>
      if !requestTime { return None; }
      return Some(SetField(fields, p, TimeValue(time)));
    case Increment(_, v) => return Some(SetField(fields, p, Incremented(cur, v)));
    case Maximum(_, v) => return Some(SetField(fields, p, Extremum(cur, v, true)));
    case Minimum(_, v) => return Some(SetField(fields, p, Extremum(cur, v, false)));
    case Union(_, els) =>
      var u := UnionLoop(Elements(cur), els);
      return Some(SetField(fields, p, Array(u)));
    case Remove(_, els) =>
      var u := RemoveLoop(Elements(cur), els);
      return Some(SetField(fields, p, Array(u)));
    case Unsupported(_) => return None;
  }
}
