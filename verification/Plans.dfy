// The planner (internal/index/plan.go): which index serves a query, and the
// half-open byte ranges to scan.
module Plans {
  import opened Bytes
  import opened Values
  import opened SortKeys
  import opened FieldPaths
  import opened Queries
  import opened Indexes

  datatype Inequality = Inequality(path: Str, op: Op, value: Value)

  // An `in` list, or an array-contains-any list when contains is set.
  datatype InList = InList(path: Str, values: seq<Value>, contains: bool)

  datatype Contains = Contains(path: Str, value: Value)

  // What collect has found so far.
  datatype Found = Found(eq: map<Str, Value>, ineq: Option<Inequality>, in_: Option<InList>, contains: Option<Contains>)

  const NOTHING := Found(map[], None, None, None)

  // ------------------------------------------------------------------ collect

  function CollectField(path: Str, op: Op, operand: Value, acc: Found): Option<Found> {
    if path == NAME then None
    else
      match op
      case Eq => if path in acc.eq then None else Some(acc.(eq := acc.eq[path := operand]))
      case Gt => CollectIneq(path, op, operand, acc)
      case Ge => CollectIneq(path, op, operand, acc)
      case Lt => CollectIneq(path, op, operand, acc)
      case Le => CollectIneq(path, op, operand, acc)
      case ArrayContains => if acc.contains.Some? then None else Some(acc.(contains := Some(Contains(path, operand))))
      case In => CollectList(path, operand, false, acc)
      case ArrayContainsAny => CollectList(path, operand, true, acc)
      case _ => None
  }

  function CollectIneq(path: Str, op: Op, operand: Value, acc: Found): Option<Found> {
    if acc.ineq.Some? then None else Some(acc.(ineq := Some(Inequality(path, op, operand))))
  }

  function CollectList(path: Str, operand: Value, contains: bool, acc: Found): Option<Found> {
    if acc.in_.Some? || ListOf(operand) == [] then None
    else Some(acc.(in_ := Some(InList(path, ListOf(operand), contains))))
  }

  function Collect(f: Filter, acc: Found): Option<Found>
    decreases f
  {
    match f
    case Composite(j, fs) => if j != And then None else CollectAll(fs, acc)
    case FieldFilter(p, op, v) => CollectField(p, op, v, acc)
    case Unary(_, _) => None
    case NoFilter => None
  }

  function CollectAll(fs: seq<Filter>, acc: Found): Option<Found>
    decreases fs
  {
    if fs == [] then Some(acc)
    else
      var r := Collect(fs[0], acc);
      if r.None? then None else CollectAll(fs[1..], r.value)
  }

  // The source's walk over a composite, updating one accumulator.
  method CollectLoop(f: Filter, acc: Found) returns (r: Option<Found>)
    ensures r == Collect(f, acc)
    decreases f
  {
    if f.Composite? {
      if f.junction != And { return None; }
      var cur := acc;
      for i := 0 to |f.filters|
        invariant CollectAll(f.filters, acc) == CollectAll(f.filters[i..], cur)
      {
        assert f.filters[i..][1..] == f.filters[i + 1..];
        var sub := CollectLoop(f.filters[i], cur);
        if sub.None? { return None; }
        cur := sub.value;
      }
      return Some(cur);
    } else {
      return Collect(f, acc);
    }
  }

  function CollectQuery(q: Query): Option<Found> {
    if q.where_.None? then Some(NOTHING) else Collect(q.where_.value, NOTHING)
  }

  // ------------------------------------------------------------- splitFilters

  datatype Split = Split(eq: map<Str, Value>, ineq: Option<Inequality>, in_: Option<InList>)

  function SplitFilters(q: Query): Option<Split> {
    var found := CollectQuery(q);
    if found.None? then None
    else
      var c := found.value;
      if c.contains.Some? && (!Searchable(c.contains.value.value) || c.contains.value.path in c.eq) then None
      else
        var eq := if c.contains.Some? then c.eq[c.contains.value.path := c.contains.value.value] else c.eq;
        if c.ineq.Some? && (q.order == [] || q.order[0].isName || Print(q.order[0].path) != c.ineq.value.path) then None
        else if c.in_.Some? && (c.in_.value.path in eq || (c.ineq.Some? && c.ineq.value.path == c.in_.value.path)) then None
        else Some(Split(eq, c.ineq, c.in_))
  }

  // The array-contains field of a query, the empty string when there is none.
  function ContainsPath(q: Query): Str {
    var found := CollectQuery(q);
    if found.None? then []
    else if found.value.contains.Some? then found.value.contains.value.path
    else if found.value.in_.Some? && found.value.in_.value.contains then found.value.in_.value.path
    else []
  }

  // -------------------------------------------------------------------- match

  datatype Matched = Matched(prefix: seq<byte>, reversed: bool)

  function Want(spec: OrderSpec): Str {
    if spec.isName then NAME else Print(spec.path)
  }

  predicate PrefixFits(fs: seq<Field>, eq: map<Str, Value>, cPath: Str)
    requires |eq| <= |fs|
  {
    forall i :: 0 <= i < |eq| ==> fs[i].path in eq && fs[i].contains == (cPath != [] && fs[i].path == cPath)
  }

  predicate OrderFits(rest: seq<Field>, order: seq<OrderSpec>)
    requires |order| <= |rest|
  {
    && (forall i :: 0 <= i < |order| ==> rest[i].path == Want(order[i]))
    && (forall i :: 0 <= i < |order| ==> (rest[i].desc != order[i].desc) == (rest[0].desc != order[0].desc))
  }

  function EqValues(fs: seq<Field>, eq: map<Str, Value>): (r: seq<Value>)
    requires |eq| <= |fs| && forall i :: 0 <= i < |eq| ==> fs[i].path in eq
    ensures |r| == |eq| && forall i :: 0 <= i < |eq| ==> r[i] == eq[fs[i].path]
  {
    seq(|eq|, i requires 0 <= i < |eq| => eq[fs[i].path])
  }

  function Match(d: Def, eq: map<Str, Value>, cPath: Str, order: seq<OrderSpec>): Option<Matched> {
    var fs := EffectiveFields(d);
    if |fs| < |eq| + |order| || !PrefixFits(fs, eq, cPath) || !OrderFits(fs[|eq|..], order) then None
    else Some(Matched(PrefixKey(d, EqValues(fs, eq)), order != [] && fs[|eq|].desc != order[0].desc))
  }

  // The source's first loop: the leading fields are the equality set.
  method PrefixLoop(fs: seq<Field>, eq: map<Str, Value>, cPath: Str) returns (vals: Option<seq<Value>>)
    requires |eq| <= |fs|
    ensures vals == if PrefixFits(fs, eq, cPath) then Some(EqValues(fs, eq)) else None
  {
    var out: seq<Value> := [];
    for i := 0 to |eq|
      invariant |out| == i
      invariant forall k :: 0 <= k < i ==> fs[k].path in eq && out[k] == eq[fs[k].path]
      invariant forall k :: 0 <= k < i ==> fs[k].contains == (cPath != [] && fs[k].path == cPath)
    {
      var f := fs[i];
      if f.path !in eq { return None; }
      if f.contains != (cPath != [] && f.path == cPath) { return None; }
      out := out + [eq[f.path]];
    }
    assert out == EqValues(fs, eq);
    return Some(out);
  }

  // The second: the rest lines up with the ordering, in one scan direction.
  method OrderLoop(rest: seq<Field>, order: seq<OrderSpec>) returns (fits: bool, reversed: bool)
    requires |order| <= |rest|
    ensures fits == OrderFits(rest, order)
    ensures fits ==> reversed == (order != [] && rest[0].desc != order[0].desc)
  {
    reversed := false;
    for i := 0 to |order|
      invariant forall k :: 0 <= k < i ==> rest[k].path == Want(order[k]) && (rest[k].desc != order[k].desc) == reversed
      invariant i == 0 ==> !reversed
    {
      var f := rest[i];
      if f.path != Want(order[i]) { return false, reversed; }
      if i == 0 {
        reversed := f.desc != order[i].desc;
      } else if (f.desc != order[i].desc) != reversed {
        return false, reversed;
      }
    }
    fits := true;
  }

  method MatchLoop(d: Def, eq: map<Str, Value>, cPath: Str, order: seq<OrderSpec>) returns (r: Option<Matched>)
    ensures r == Match(d, eq, cPath, order)
  {
    var fs := EffectiveFields(d);
    if |fs| < |eq| + |order| { return None; }
    var vals := PrefixLoop(fs, eq, cPath);
    if vals.None? { return None; }
    var fits, reversed := OrderLoop(fs[|eq|..], order);
    if !fits { return None; }
    var prefix := BuildPrefixKey(d, vals.value);
    return Some(Matched(prefix, reversed));
  }

  // ------------------------------------------------------------------- bounds

  function MaxBound(a: Bound, b: Bound): Bound {
    if b.None? then a
    else if a.None? || CompareBytes(b.value, a.value) > 0 then b
    else a
  }

  // nil is unbounded above.
  function MinBound(a: Bound, b: Bound): Bound {
    if b.None? then a
    else if a.None? || CompareBytes(b.value, a.value) < 0 then b
    else a
  }

  // Appending nothing to a nil slice leaves nil.
  function CursorKey(d: Def, eqCount: nat, prefix: seq<byte>, vals: seq<Value>): Bound {
    var k := prefix + Concat(CursorComps(d, eqCount, vals));
    if k == [] then None else Some(k)
  }

  function CursorComps(d: Def, eqCount: nat, vals: seq<Value>): seq<seq<byte>> {
    var fs := EffectiveFields(d);
    if eqCount >= |fs| then [] else PrefixComps(fs[eqCount..], vals[..Min(|vals|, |fs| - eqCount)])
  }

  method BuildCursorKey(d: Def, eqCount: nat, prefix: seq<byte>, vals: seq<Value>) returns (r: Bound)
    ensures r == CursorKey(d, eqCount, prefix, vals)
  {
    hide SortKey, PrefixComps, EffectiveFields;
    CursorSize(d, eqCount, vals);
    var key := prefix;
    var fs := EffectiveFields(d);
    ghost var comps := CursorComps(d, eqCount, vals);
    assert prefix + Concat(comps[..0]) == prefix;
    var i := 0;
    while i < |vals|
      invariant 0 <= i <= |comps| <= |vals|
      invariant key == prefix + Concat(comps[..i])
    {
      var pos := eqCount + i;
      if pos >= |fs| { break; }
      CursorStep(d, eqCount, prefix, vals, i);
      if fs[pos].desc {
        key := AppendSortKeyDesc(key, vals[i]);
      } else {
        key := AppendSortKey(key, vals[i]);
      }
      i := i + 1;
    }
    assert comps[..i] == comps;
    r := if key == [] then None else Some(key);
  }

  lemma CursorSize(d: Def, eqCount: nat, vals: seq<Value>)
    ensures var n := |EffectiveFields(d)|;
      |CursorComps(d, eqCount, vals)| == if eqCount >= n then 0 else Min(|vals|, n - eqCount)
  {}

  // One more cursor value, encoded in the direction of its field.
  lemma CursorStep(d: Def, eqCount: nat, prefix: seq<byte>, vals: seq<Value>, i: nat)
    requires i < |vals| && eqCount + i < |EffectiveFields(d)|
    ensures var comps := CursorComps(d, eqCount, vals);
      && i < |comps| <= |vals|
      && prefix + Concat(comps[..i + 1]) == (prefix + Concat(comps[..i])) + DirKey(vals[i], EffectiveFields(d)[eqCount + i].desc)
  {
    var comps := CursorComps(d, eqCount, vals);
    assert EffectiveFields(d)[eqCount..][i] == EffectiveFields(d)[eqCount + i];
    ConcatSnoc(comps[..i], comps[i]);
    assert comps[..i + 1] == comps[..i] + [comps[i]];
    Assoc(prefix, Concat(comps[..i]), comps[i]);
  }

  lemma ConcatSnoc(comps: seq<seq<byte>>, c: seq<byte>)
    ensures Concat(comps + [c]) == Concat(comps) + c
  {
    ConcatSplit(comps + [c], |comps|);
    assert (comps + [c])[..|comps|] == comps && (comps + [c])[|comps|..] == [c];
    assert Concat([c]) == c + [] == c;
  }

  // PrefixEnd of a possibly nil slice.
  function EndOf(k: Bound): Bound {
    if k.None? then None else PrefixEnd(k.value)
  }

  function StartBound(k: Bound, inclusive: bool): Bound { if inclusive then k else EndOf(k) }

  function EndBound(k: Bound, inclusive: bool): Bound { if inclusive then EndOf(k) else k }

  datatype Span = Span(lo: Bound, hi: Bound)

  // The single type tag that every key of v's type begins with.
  function TypeBucket(v: Value, desc: bool): byte { DirKey(v, desc)[0] }

  // The inequality's share: clamp to the operand's type, then to the operand.
  function IneqSpan(d: Def, eqCount: nat, prefix: seq<byte>, ineq: Inequality, desc: bool, s: Span): Span {
    var bucket := prefix + [TypeBucket(ineq.value, desc)];
    var lo, hi := MaxBound(s.lo, Some(bucket)), MinBound(s.hi, PrefixEnd(bucket));
    var k := CursorKey(d, eqCount, prefix, [ineq.value]);
    if ineq.op == Gt then (if desc then Span(lo, MinBound(hi, k)) else Span(MaxBound(lo, EndOf(k)), hi))
    else if ineq.op == Ge then (if desc then Span(lo, MinBound(hi, EndOf(k))) else Span(MaxBound(lo, k), hi))
    else if ineq.op == Lt then (if desc then Span(MaxBound(lo, EndOf(k)), hi) else Span(lo, MinBound(hi, k)))
    else (if desc then Span(MaxBound(lo, k), hi) else Span(lo, MinBound(hi, EndOf(k))))
  }

  function Cap(vals: seq<Value>, n: nat): seq<Value> { if |vals| > n then vals[..n] else vals }

  // A cursor bounds the end its position sits at in scan order.
  function StartSpan(d: Def, eqCount: nat, prefix: seq<byte>, reversed: bool, cur: Cursor, n: nat, s: Span): Span {
    var k := CursorKey(d, eqCount, prefix, Cap(cur.values, n));
    if reversed then Span(s.lo, MinBound(s.hi, EndBound(k, cur.before)))
    else Span(MaxBound(s.lo, StartBound(k, cur.before)), s.hi)
  }

  function EndSpan(d: Def, eqCount: nat, prefix: seq<byte>, reversed: bool, cur: Cursor, n: nat, s: Span): Span {
    var k := CursorKey(d, eqCount, prefix, Cap(cur.values, n));
    if reversed then Span(MaxBound(s.lo, StartBound(k, !cur.before)), s.hi)
    else Span(s.lo, MinBound(s.hi, EndBound(k, !cur.before)))
  }

  function Clip(s: Span): Span {
    if s.hi.Some? && s.lo.Some? && CompareBytes(s.lo.value, s.hi.value) >= 0 then Span(s.lo, s.lo) else s
  }

  function CursorSpan(d: Def, eqCount: nat, prefix: seq<byte>, reversed: bool, q: Query, s: Span): Span {
    var s1 := if q.start.Some? then StartSpan(d, eqCount, prefix, reversed, q.start.value, |q.order|, s) else s;
    var s2 := if q.end.Some? then EndSpan(d, eqCount, prefix, reversed, q.end.value, |q.order|, s1) else s1;
    Clip(s2)
  }

  function Bounds(d: Def, eqCount: nat, prefix: seq<byte>, reversed: bool, q: Query): Span {
    var s := Span(Some(prefix), PrefixEnd(prefix));
    var fs := EffectiveFields(d);
    if eqCount >= |fs| then s
    else
      var split := SplitFilters(q);
      if split.Some? && split.value.ineq.Some? then
        var ineq, desc := split.value.ineq.value, fs[eqCount].desc;
        var s1 := IneqSpan(d, eqCount, prefix, ineq, desc, s);
        if IsNaNValue(ineq.value) then
          var lo := MaxBound(s.lo, Some(prefix + [TypeBucket(ineq.value, desc)]));
          Span(lo, lo)
        else CursorSpan(d, eqCount, prefix, reversed, q, s1)
      else CursorSpan(d, eqCount, prefix, reversed, q, s)
  }

  // bounds as written: lo and hi narrowed in place.
  method BoundsLoop(d: Def, eqCount: nat, prefix: seq<byte>, reversed: bool, q: Query) returns (lo: Bound, hi: Bound)
    ensures Span(lo, hi) == Bounds(d, eqCount, prefix, reversed, q)
  {
    lo := Some(prefix);
    hi := FindPrefixEnd(prefix);
    var fs := EffectiveFields(d);
    if eqCount >= |fs| { return; }
    var split := SplitFilters(q);
    if split.Some? && split.value.ineq.Some? {
      var ineq, desc := split.value.ineq.value, fs[eqCount].desc;
      lo, hi := NarrowIneq(d, eqCount, prefix, ineq, desc, lo, hi);
      if IsNaNValue(ineq.value) { return lo, lo; }
    }
    lo, hi := NarrowCursors(d, eqCount, prefix, reversed, q, lo, hi);
  }

  method NarrowIneq(d: Def, eqCount: nat, prefix: seq<byte>, ineq: Inequality, desc: bool, lo0: Bound, hi0: Bound)
    returns (lo: Bound, hi: Bound)
    ensures IsNaNValue(ineq.value) ==> lo == MaxBound(lo0, Some(prefix + [TypeBucket(ineq.value, desc)]))
    ensures !IsNaNValue(ineq.value) ==> Span(lo, hi) == IneqSpan(d, eqCount, prefix, ineq, desc, Span(lo0, hi0))
  {
    var bucket := prefix + [TypeBucket(ineq.value, desc)];
    lo := MaxBound(lo0, Some(bucket));
    var bucketEnd := FindPrefixEnd(bucket);
    hi := MinBound(hi0, bucketEnd);
    if IsNaNValue(ineq.value) { return; }
    var k := BuildCursorKey(d, eqCount, prefix, [ineq.value]);
    if ineq.op == Gt {
      if desc { hi := MinBound(hi, k); } else { lo := MaxBound(lo, EndOf(k)); }
    } else if ineq.op == Ge {
      if desc { hi := MinBound(hi, EndOf(k)); } else { lo := MaxBound(lo, k); }
    } else if ineq.op == Lt {
      if desc { lo := MaxBound(lo, EndOf(k)); } else { hi := MinBound(hi, k); }
    } else {
      if desc { lo := MaxBound(lo, k); } else { hi := MinBound(hi, EndOf(k)); }
    }
  }

  method NarrowCursors(d: Def, eqCount: nat, prefix: seq<byte>, reversed: bool, q: Query, lo0: Bound, hi0: Bound)
    returns (lo: Bound, hi: Bound)
    ensures Span(lo, hi) == CursorSpan(d, eqCount, prefix, reversed, q, Span(lo0, hi0))
  {
    lo, hi := lo0, hi0;
    if q.start.Some? {
      var k := BuildCursorKey(d, eqCount, prefix, Cap(q.start.value.values, |q.order|));
      if reversed {
        hi := MinBound(hi, EndBound(k, q.start.value.before));
      } else {
        lo := MaxBound(lo, StartBound(k, q.start.value.before));
      }
    }
    if q.end.Some? {
      var k := BuildCursorKey(d, eqCount, prefix, Cap(q.end.value.values, |q.order|));
      var inclusive := !q.end.value.before;
      if reversed {
        lo := MaxBound(lo, StartBound(k, inclusive));
      } else {
        hi := MinBound(hi, EndBound(k, inclusive));
      }
    }
    if hi.Some? && lo.Some? && CompareBytes(lo.value, hi.value) >= 0 { hi := lo; }
  }

  // --------------------------------------------------------------- planRanges

  datatype Range = Range(span: Span, suffixFrom: nat)

  datatype Ranges = Ranges(ranges: seq<Range>, reversed: bool)

  // One value of a list: its range, unless its prefix was already planned.
  function PlanValues(d: Def, eq: map<Str, Value>, in_: InList, cPath: Str, q: Query, vals: seq<Value>,
                      seen: set<seq<byte>>, acc: Ranges): Option<Ranges>
    decreases |vals|
  {
    if vals == [] then Some(acc)
    else if !Searchable(vals[0]) then PlanValues(d, eq, in_, cPath, q, vals[1..], seen, acc)
    else
      var sub := eq[in_.path := vals[0]];
      var m := Match(d, sub, cPath, q.order);
      if m.None? then None
      else if m.value.prefix in seen then PlanValues(d, eq, in_, cPath, q, vals[1..], seen, acc)
      else
        var r := Range(Bounds(d, |sub|, m.value.prefix, m.value.reversed, q), |m.value.prefix|);
        PlanValues(d, eq, in_, cPath, q, vals[1..], seen + {m.value.prefix}, Ranges(acc.ranges + [r], m.value.reversed))
  }

  function PlanRanges(d: Def, split: Split, q: Query): Option<Ranges> {
    var cPath := ContainsPath(q);
    if split.in_.None? then
      var m := Match(d, split.eq, cPath, q.order);
      if m.None? then None
      else Some(Ranges([Range(Bounds(d, |split.eq|, m.value.prefix, m.value.reversed, q), |m.value.prefix|)], m.value.reversed))
    else
      PlanValues(d, split.eq, split.in_.value, cPath, q, split.in_.value.values, {}, Ranges([], false))
  }

  method PlanRangesLoop(d: Def, split: Split, q: Query) returns (r: Option<Ranges>)
    ensures r == PlanRanges(d, split, q)
  {
    var cPath := ContainsPath(q);
    if split.in_.None? {
      var m := MatchLoop(d, split.eq, cPath, q.order);
      if m.None? { return None; }
      var lo, hi := BoundsLoop(d, |split.eq|, m.value.prefix, m.value.reversed, q);
      return Some(Ranges([Range(Span(lo, hi), |m.value.prefix|)], m.value.reversed));
    }
    var in_ := split.in_.value;
    var acc := Ranges([], false);
    var seen: set<seq<byte>> := {};
    for i := 0 to |in_.values|
      invariant PlanRanges(d, split, q) == PlanValues(d, split.eq, in_, cPath, q, in_.values[i..], seen, acc)
    {
      var v := in_.values[i];
      assert in_.values[i..][0] == v && in_.values[i..][1..] == in_.values[i + 1..];
      if !Searchable(v) { continue; }
      var sub := split.eq[in_.path := v];
      var m := MatchLoop(d, sub, cPath, q.order);
      if m.None? { return None; }
      var lo, hi := BoundsLoop(d, |sub|, m.value.prefix, m.value.reversed, q);
      if m.value.prefix in seen { continue; }
      seen := seen + {m.value.prefix};
      acc := Ranges(acc.ranges + [Range(Span(lo, hi), |m.value.prefix|)], m.value.reversed);
    }
    return Some(acc);
  }

  // ---------------------------------------------------------------------- For

  datatype Plan = Plan(def: Def, ranges: seq<Range>, reversed: bool, dedup: bool)

  predicate Candidate(d: Def, q: Query, ready: set<Def>) {
    d.collectionId == q.collectionId && d.group == q.allDescendants && d in ready
  }

  // The plan of one definition, when it serves the query.
  function PlanOf(d: Def, q: Query): Option<Plan> {
    var split := SplitFilters(q);
    if split.None? then None
    else
      var r := PlanRanges(d, split.value, q);
      if r.None? then None
      else Some(Plan(d, r.value.ranges, r.value.reversed, split.value.in_.Some? && split.value.in_.value.contains))
  }

  // No candidate among these definitions serves the query.
  predicate NonePlans(defs: seq<Def>, q: Query, ready: set<Def>) {
    forall k :: 0 <= k < |defs| && Candidate(defs[k], q, ready) ==> PlanOf(defs[k], q).None?
  }

  // For: the first ready definition of the collection that serves the query.
  method For(q: Query, defs: seq<Def>, ready: set<Def>) returns (r: Option<Plan>)
    ensures r.Some? ==> r.value.def in defs && Candidate(r.value.def, q, ready) && PlanOf(r.value.def, q) == r
    ensures r.Some? ==> r.value.def in ready && r.value.def.collectionId == q.collectionId && (r.value.def.group <==> q.allDescendants)
    ensures r.Some? ==> exists i | 0 <= i < |defs| :: defs[i] == r.value.def && NonePlans(defs[..i], q, ready)
    ensures r.None? ==> NonePlans(defs, q, ready)
  {
    hide PlanRanges, SplitFilters;
    var split := SplitFilters(q);
    if split.None? { return None; }
    for i := 0 to |defs|
      invariant NonePlans(defs[..i], q, ready)
    {
      var d := defs[i];
      if !Candidate(d, q, ready) { continue; }
      var rs := PlanRangesLoop(d, split.value, q);
      if rs.None? { continue; }
      r := Some(Plan(d, rs.value.ranges, rs.value.reversed, split.value.in_.Some? && split.value.in_.value.contains));
      assert defs[i] == d && r == PlanOf(d, q);
      return r;
    }
    assert defs[..|defs|] == defs;
    return None;
  }
}
