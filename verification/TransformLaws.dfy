// What each field transform does to the field at its path, and that it does nothing
// else (applyTransforms in internal/writes/writes.go).
module TransformLaws {
  import opened Bytes
  import opened Numbers
  import opened Values
  import opened FieldPaths
  import opened Writes
  import opened Storage
  import opened Conversions
  import opened Rounding
  import opened Orders
  import opened Transforms
  import opened Transactions

  // What the transform leaves at its path, given what was there.
  ghost predicate Leaves(tr: Transform, cur: Option<Value>, r: Value, time: Instant) {
    match tr
    case ServerValue(_, requestTime) => requestTime && IsTime(r, time)
    case Increment(_, v) => Increments(cur, v, r)
    case Maximum(_, v) => if NotNumber(cur) then r == v else Greatest(cur.value, v, r)
    case Minimum(_, v) => if NotNumber(cur) then r == v else Least(cur.value, v, r)
    case Union(_, els) => r.Array? && Joins(Present(cur), els, r.elems)
    case Remove(_, els) => r.Array? && Drops(Present(cur), els, r.elems)
    case Unsupported(_) => false
  }

  // The commit time, normalized.
  predicate IsTime(r: Value, time: Instant) {
    r.Timestamp? && 0 <= r.nanos < GIGA && Nanoseconds(r.seconds, r.nanos) == MIN_SECONDS * GIGA + time * 1000
  }

  lemma TimeIs(time: Instant)
    ensures IsTime(TimeValue(time), time)
  {
    var s := time / 1_000_000;
    assert time == s * 1_000_000 + time % 1_000_000;
    assert (time % 1_000_000) * 1000 < GIGA;
  }

  predicate NotNumber(cur: Option<Value>) { cur.None? || (!cur.value.Integer? && !cur.value.DoubleV?) }

  function Present(cur: Option<Value>): seq<Value> { if cur.Some? && cur.value.Array? then cur.value.elems else [] }

  // Two integers to their exact sum, clamped; other numbers to the rounded sum of the
  // doubles nearest to them; anything else to the operand.
  ghost predicate Increments(cur: Option<Value>, v: Value, r: Value) {
    if NotNumber(cur) || (!v.Integer? && !v.DoubleV?) then r == v
    else if cur.value.Integer? && v.Integer? then
      var n := cur.value.x + v.x;
      r.Integer? && r.x == if n > 0x7FFF_FFFF_FFFF_FFFF then 0x7FFF_FFFF_FFFF_FFFF else if n < -0x8000_0000_0000_0000 then -0x8000_0000_0000_0000 else n
    else r.DoubleV? && exists a, b :: NearestTo(cur.value, a) && NearestTo(v, b) && IsSum(a, b, r.d)
  }

  // A double as itself, an integer as the double nearest to it.
  ghost predicate NearestTo(v: Value, d: Double) {
    if v.DoubleV? then d == v.d else v.Integer? && IsNearest(d, Abs(v.x) * Unit()) && (d.neg <==> v.x < 0)
  }

  // NaN and infinities as in arithmetic; finite doubles to the one nearest to the sum,
  // infinite past the greatest.
  ghost predicate IsSum(a: Double, b: Double, d: Double) {
    if a.exp < 2047 && b.exp < 2047 then
      var n := Units(a) + Units(b);
      && (n == 0 ==> IsZero(d) && (d.neg <==> a.neg && b.neg))
      && (n != 0 ==> (d.neg <==> n < 0) && if d.exp < 2047 then IsNearest(d, Abs(n)) else d.frac == 0)
    else if IsNaN(a) || IsNaN(b) || (IsInf(a) && IsInf(b) && a.neg != b.neg) then IsNaN(d)
    else d == if IsInf(a) then a else b
  }

  // NaN before everything; else the one that is not less, the stored one on a tie.
  predicate Greatest(cur: Value, v: Value, r: Value) {
    if IsNaNValue(cur) || IsNaNValue(v) then IsNaNValue(r)
    else r in {cur, v} && Compare(r, cur) >= 0 && Compare(r, v) >= 0 && (Compare(cur, v) == 0 ==> r == cur)
  }

  predicate Least(cur: Value, v: Value, r: Value) {
    if IsNaNValue(cur) || IsNaNValue(v) then IsNaNValue(r)
    else r in {cur, v} && Compare(r, cur) <= 0 && Compare(r, v) <= 0 && (Compare(cur, v) == 0 ==> r == cur)
  }

  // What was there in place, then those given that equal nothing there, all of them in.
  predicate Joins(before: seq<Value>, els: seq<Value>, after: seq<Value>) {
    && before <= after
    && (forall i :: 0 <= i < |els| ==> HasEqual(after, els[i]))
    && (forall v :: v in after ==> v in before || (v in els && !HasEqual(before, v)))
    && (forall i, j :: 0 <= i < j < |after| && j >= |before| ==> Compare(after[i], after[j]) != 0)
  }

  // Those that equal none of those given, in order.
  predicate Drops(before: seq<Value>, els: seq<Value>, after: seq<Value>)
    decreases |before|
  {
    if before == [] then after == []
    else if HasEqual(els, before[0]) then Drops(before[1..], els, after)
    else after != [] && after[0] == before[0] && Drops(before[1..], els, after[1..])
  }

  // ------------------------------------------------------------------ theorem

  // A transform that succeeds leaves what it should at its path and every path not
  // comparable with it as it was.
  lemma TransformExact(fields: Fields, tr: Transform, time: Instant)
    requires Transformed(fields, tr, time).Some?
    ensures Parse(tr.path).Some?
    ensures var p, left := Parse(tr.path).value, Transformed(fields, tr, time).value;
      && GetField(left, p).Some? && Leaves(tr, GetField(fields, p), GetField(left, p).value, time)
      && forall q :: Incomparable(p, q) ==> GetField(left, q) == GetField(fields, q)
  {
    hide Incremented, Extremum, UnionOf, Without, SetField, Parse, GetField, Increments, Greatest, Least, Joins, Drops, TimeValue, IsTime;
    var p := Parse(tr.path).value;
    var cur := GetField(fields, p);
    var r := NewValue(tr, cur, time);
    forall q ensures Incomparable(p, q) ==> GetField(SetField(fields, p, r), q) == GetField(fields, q) { SetReads(fields, p, r, q); }
    SetReads(fields, p, r, p);
    match tr
    case ServerValue(_, _) => TimeIs(time);
    case Increment(_, v) => IncrementedIs(cur, v);
    case Maximum(_, v) => MaximumIs(cur, v);
    case Minimum(_, v) => MinimumIs(cur, v);
    case Union(_, els) => UnionIs(Elements(cur), els);
    case Remove(_, els) => RemovalIs(Elements(cur), els);
  }

  function NewValue(tr: Transform, cur: Option<Value>, time: Instant): Value {
    match tr
    case ServerValue(_, _) => TimeValue(time)
    case Increment(_, v) => Incremented(cur, v)
    case Maximum(_, v) => Extremum(cur, v, true)
    case Minimum(_, v) => Extremum(cur, v, false)
    case Union(_, els) => Array(UnionOf(Elements(cur), els))
    case Remove(_, els) => Array(Without(Elements(cur), els))
    case Unsupported(_) => Unknown
  }

  // ---------------------------------------------------------------- increments

  lemma IncrementedIs(cur: Option<Value>, v: Value)
    ensures Increments(cur, v, Incremented(cur, v))
  {
    hide AddDouble, Float64, IsNearest, IsSum;
    if !NotNumber(cur) && IsNumber(v) {
      if cur.value.Integer? && v.Integer? {
        IncrementSaturates(cur.value.x, v.x);
      } else {
        DoubleNearest(cur.value);
        DoubleNearest(v);
        SumIs(DoubleOf(cur.value), DoubleOf(v));
      }
    }
  }

  lemma DoubleNearest(v: Value)
    requires IsNumber(v)
    ensures NearestTo(v, DoubleOf(v))
  {
    hide Float64, IsNearest;
    if v.Integer? { Float64Nearest(v.x); }
  }

  lemma SumIs(a: Double, b: Double)
    ensures IsSum(a, b, AddDouble(a, b))
  {
    hide IsNearest, RoundMagnitude, Magnitude;
    if a.exp < 2047 && b.exp < 2047 { AddNearest(a, b); }
  }

  // ------------------------------------------------------------------- extrema

  lemma MaximumIs(cur: Option<Value>, v: Value)
    ensures var r := Extremum(cur, v, true); if NotNumber(cur) then r == v else Greatest(cur.value, v, r)
  {
    hide Compare, TypeOrder;
    NaNIs();
    if !NotNumber(cur) {
      Swaps(cur.value, v);
      Swaps(cur.value, cur.value);
      Swaps(v, v);
    }
  }

  lemma MinimumIs(cur: Option<Value>, v: Value)
    ensures var r := Extremum(cur, v, false); if NotNumber(cur) then r == v else Least(cur.value, v, r)
  {
    hide Compare, TypeOrder;
    NaNIs();
    if !NotNumber(cur) {
      Swaps(cur.value, v);
      Swaps(cur.value, cur.value);
      Swaps(v, v);
    }
  }

  lemma NaNIs()
    ensures IsNaNValue(DoubleV(NAN))
  {}

  // -------------------------------------------------------------------- arrays

  lemma {:induction false} UnionIs(before: seq<Value>, els: seq<Value>)
    ensures Joins(before, els, UnionOf(before, els))
    decreases |els|
  {
    hide Compare, HasEqual;
    UnionHas(before, els);
    UnionApart(before, els);
  }

  // No element that was added equals an earlier one.
  lemma {:induction false} UnionApart(before: seq<Value>, els: seq<Value>)
    ensures before <= UnionOf(before, els)
    ensures forall i, j :: 0 <= i < j < |UnionOf(before, els)| && j >= |before| ==>
      Compare(UnionOf(before, els)[i], UnionOf(before, els)[j]) != 0
    decreases |els|
  {
    hide Compare;
    if els != [] {
      var next := if HasEqual(before, els[0]) then before else before + [els[0]];
      UnionApart(next, els[1..]);
      var after := UnionOf(before, els);
      assert after == UnionOf(next, els[1..]);
      forall i, j | 0 <= i < j < |after| && j >= |before| ensures Compare(after[i], after[j]) != 0 {
        if j == |before| && |next| > |before| {
          assert after[j] == next[j] == els[0] && after[i] == next[i] == before[i];
        }
      }
    }
  }

  lemma {:induction false} RemovalIs(before: seq<Value>, els: seq<Value>)
    ensures Drops(before, els, Without(before, els))
    decreases |before|
  {
    hide HasEqual;
    if before != [] {
      RemovalIs(before[1..], els);
      var w, rest := Without(before, els), Without(before[1..], els);
      if HasEqual(els, before[0]) {
        assert w == [] + rest == rest;
      } else {
        assert w == [before[0]] + rest && w[1..] == rest;
      }
    }
  }

  // ------------------------------------------------------- within a write

  // The fields one transform more leaves, told from those without it.
  ghost predicate Adds(before: Fields, tr: Transform, after: Fields, time: Instant) {
    Parse(tr.path).Some? &&
    var p := Parse(tr.path).value;
    && GetField(after, p).Some? && Leaves(tr, GetField(before, p), GetField(after, p).value, time)
    && forall q :: Incomparable(p, q) ==> GetField(after, q) == GetField(before, q)
  }

  lemma {:induction false} OneMore(fields: Fields, trs: seq<Transform>, tr: Transform, time: Instant)
    ensures var a, b := TransformAll(fields, trs, time), TransformAll(fields, trs + [tr], time);
      b.Some? ==> a.Some? && Transformed(a.value, tr, time) == b
    decreases |trs|
  {
    hide Transformed;
    var all := trs + [tr];
    if trs == [] {
      assert all == [tr] && all[1..] == [];
    } else {
      assert all[1..] == trs[1..] + [tr] && all[0] == trs[0];
      var r := Transformed(fields, trs[0], time);
      if r.Some? { OneMore(r.value, trs[1..], tr, time); }
    }
  }

  // A write carries out its transforms after its operation and in order: with one more
  // at the end it leaves what it left without, and then what that transform does.
  lemma LastTransform(st: DocState, w: Write, tr: Transform, time: Instant)
    requires !w.Delete? && ApplyWrite(st, w.(transforms := w.transforms + [tr]), time).Some?
    ensures ApplyWrite(st, w, time).Some?
    ensures Adds(ApplyWrite(st, w, time).value.fields, tr, ApplyWrite(st, w.(transforms := w.transforms + [tr]), time).value.fields, time)
  {
    hide TransformAll, Transformed, ApplyUpdate, Adds;
    var base := if w.Update? then ApplyUpdate(FieldsOf(st), w.fields, w.mask) else TransformAll(FieldsOf(st), w.own, time);
    OneMore(base.value, w.transforms, tr, time);
    AddedBy(TransformAll(base.value, w.transforms, time).value, tr, time);
  }

  lemma AddedBy(fields: Fields, tr: Transform, time: Instant)
    requires Transformed(fields, tr, time).Some?
    ensures Adds(fields, tr, Transformed(fields, tr, time).value, time)
  {
    hide Transformed, Leaves;
    TransformExact(fields, tr, time);
  }

  // A write of transforms alone begins with the fields that are there, and none of a
  // document that is not.
  lemma OwnTransforms(st: DocState, n: Str, own: seq<Transform>, pre: Precondition, tr: Transform, time: Instant)
    requires ApplyWrite(st, TransformDoc(n, own + [tr], pre, []), time).Some?
    ensures ApplyWrite(st, TransformDoc(n, own, pre, []), time).Some?
    ensures Adds(ApplyWrite(st, TransformDoc(n, own, pre, []), time).value.fields, tr,
                 ApplyWrite(st, TransformDoc(n, own + [tr], pre, []), time).value.fields, time)
    ensures own == [] ==> ApplyWrite(st, TransformDoc(n, own, pre, []), time).value.fields == if st.exists_ then st.fields else map[]
  {
    hide Transformed, Adds;
    OneMore(FieldsOf(st), own, tr, time);
    AddedBy(TransformAll(FieldsOf(st), own, time).value, tr, time);
  }
}
