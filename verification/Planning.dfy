// The ranges of a whole plan: one per distinct searchable value of a list, all
// scanned in one direction, together covering every document that matches.
module Planning {
  import opened Bytes
  import opened Values
  import opened SortKeys
  import opened FieldPaths
  import opened Queries
  import opened Indexes
  import opened Plans
  import opened Spans
  import opened Layouts
  import opened RangeExact

  // The range planned for one choice of a list value.
  function ServingOf(d: Def, q: Query, split: Split, v: Value): Serving {
    Serving(d, EqWith(split, v), ContainsPath(q), q.order)
  }

  predicate IsMatched(d: Def, q: Query, split: Split, v: Value) {
    Match(d, EqWith(split, v), ContainsPath(q), q.order).Some?
  }

  function PrefixFor(d: Def, q: Query, split: Split, v: Value): seq<byte>
    requires IsMatched(d, q, split, v)
  {
    Matching(ServingOf(d, q, split, v)).prefix
  }

  // The planned range i stands for the choice vs[i].
  predicate RangeFor(d: Def, q: Query, split: Split, v: Value, r: Range, reversed: bool) {
    && Choice(split, v) && IsMatched(d, q, split, v)
    && r == Range(BoundsFor(ServingOf(d, q, split, v), q), |PrefixFor(d, q, split, v)|)
    && Matching(ServingOf(d, q, split, v)).reversed == reversed
  }

  ghost predicate Tracks(d: Def, q: Query, split: Split, vs: seq<Value>, rs: Ranges, seen: set<seq<byte>>) {
    && |vs| == |rs.ranges|
    && (forall i :: 0 <= i < |vs| ==> RangeFor(d, q, split, vs[i], rs.ranges[i], rs.reversed))
    && (forall i :: 0 <= i < |vs| ==> PrefixFor(d, q, split, vs[i]) in seen)
    && (forall i, j :: 0 <= i < j < |vs| ==> PrefixFor(d, q, split, vs[i]) != PrefixFor(d, q, split, vs[j]))
    && (forall p :: p in seen ==> exists i :: 0 <= i < |vs| && PrefixFor(d, q, split, vs[i]) == p)
  }

  // The direction does not depend on the value.
  lemma SameDirection(d: Def, q: Query, split: Split, u: Value, v: Value)
    requires IsMatched(d, q, split, u) && IsMatched(d, q, split, v)
    ensures Matching(ServingOf(d, q, split, u)).reversed == Matching(ServingOf(d, q, split, v)).reversed
    ensures |EqWith(split, u)| == |EqWith(split, v)|
  {
    if split.in_.Some? {
      var p := split.in_.value.path;
      assert split.eq[p := u].Keys == split.eq.Keys + {p} == split.eq[p := v].Keys;
    }
    MatchFits(ServingOf(d, q, split, u));
    MatchFits(ServingOf(d, q, split, v));
  }

  lemma {:induction false} ValuesTracked(d: Def, q: Query, split: Split, vals: seq<Value>, seen: set<seq<byte>>, acc: Ranges, vs: seq<Value>)
    returns (us: seq<Value>, seen': set<seq<byte>>)
    requires split.in_.Some? && (forall v :: v in vals ==> v in split.in_.value.values)
    requires Tracks(d, q, split, vs, acc, seen)
    requires PlanValues(d, split.eq, split.in_.value, ContainsPath(q), q, vals, seen, acc).Some?
    ensures Tracks(d, q, split, us, PlanValues(d, split.eq, split.in_.value, ContainsPath(q), q, vals, seen, acc).value, seen')
    ensures seen <= seen'
    ensures forall v :: v in vals && Searchable(v) ==> IsMatched(d, q, split, v) && PrefixFor(d, q, split, v) in seen'
    decreases |vals|
  {
    if vals == [] {
      us, seen' := vs, seen;
    } else {
      var v := vals[0];
      if !Searchable(v) {
        us, seen' := ValuesTracked(d, q, split, vals[1..], seen, acc, vs);
      } else {
        assert IsMatched(d, q, split, v);
        var p := PrefixFor(d, q, split, v);
        if p in seen {
          us, seen' := ValuesTracked(d, q, split, vals[1..], seen, acc, vs);
        } else {
          var next := NextRanges(d, q, split, v, acc);
          TrackOne(d, q, split, vs, acc, seen, v);
          us, seen' := ValuesTracked(d, q, split, vals[1..], seen + {p}, next, vs + [v]);
        }
      }
      forall u | u in vals && Searchable(u) ensures IsMatched(d, q, split, u) && PrefixFor(d, q, split, u) in seen' {
        assert u == v || u in vals[1..];
      }
    }
  }

  function NextRanges(d: Def, q: Query, split: Split, v: Value, acc: Ranges): Ranges
    requires IsMatched(d, q, split, v)
  {
    var s := ServingOf(d, q, split, v);
    Ranges(acc.ranges + [Range(BoundsFor(s, q), |Matching(s).prefix|)], Matching(s).reversed)
  }

  lemma TrackOne(d: Def, q: Query, split: Split, vs: seq<Value>, acc: Ranges, seen: set<seq<byte>>, v: Value)
    requires Tracks(d, q, split, vs, acc, seen) && Choice(split, v) && IsMatched(d, q, split, v)
    requires PrefixFor(d, q, split, v) !in seen
    ensures Tracks(d, q, split, vs + [v], NextRanges(d, q, split, v, acc), seen + {PrefixFor(d, q, split, v)})
  {
    hide Match, Bounds, BoundsFor, PrefixFor, Choice;
    NewRange(d, q, split, v, acc);
    var us, p, next := vs + [v], PrefixFor(d, q, split, v), NextRanges(d, q, split, v, acc);
    forall i | 0 <= i < |us| ensures RangeFor(d, q, split, us[i], next.ranges[i], next.reversed) {
      if i < |vs| { KeepsRange(d, q, split, vs[i], acc, i, v); }
    }
    forall x | x in seen + {p} ensures exists i :: 0 <= i < |us| && PrefixFor(d, q, split, us[i]) == x {
      if x == p {
        assert us[|vs|] == v;
      } else {
        var i :| 0 <= i < |vs| && PrefixFor(d, q, split, vs[i]) == x;
        assert us[i] == vs[i];
      }
    }
  }

  lemma NewRange(d: Def, q: Query, split: Split, v: Value, acc: Ranges)
    requires Choice(split, v) && IsMatched(d, q, split, v)
    ensures var next := NextRanges(d, q, split, v, acc);
      RangeFor(d, q, split, v, next.ranges[|acc.ranges|], next.reversed)
  {
    hide Match, Bounds;
  }

  // A planned range stays planned when the next value is added.
  lemma KeepsRange(d: Def, q: Query, split: Split, u: Value, acc: Ranges, i: nat, v: Value)
    requires i < |acc.ranges| && RangeFor(d, q, split, u, acc.ranges[i], acc.reversed) && IsMatched(d, q, split, v)
    ensures var next := NextRanges(d, q, split, v, acc); RangeFor(d, q, split, u, next.ranges[i], next.reversed)
  {
    hide Match, Bounds;
    SameDirection(d, q, split, u, v);
  }

  predicate Covered(d: Def, q: Query, split: Split, vs: seq<Value>, v: Value)
    requires forall i :: 0 <= i < |vs| ==> IsMatched(d, q, split, vs[i])
  {
    IsMatched(d, q, split, v) && exists i :: 0 <= i < |vs| && PrefixFor(d, q, split, vs[i]) == PrefixFor(d, q, split, v)
  }

  // A plan is a list of choices with pairwise different prefixes, and every choice
  // shares its prefix with one of them.
  ghost predicate IsPlan(d: Def, q: Query, split: Split, vs: seq<Value>, plan: Plan) {
    && |vs| == |plan.ranges| && plan.def == d
    && (forall i :: 0 <= i < |vs| ==> RangeFor(d, q, split, vs[i], plan.ranges[i], plan.reversed))
    && (forall i, j :: 0 <= i < j < |vs| ==> PrefixFor(d, q, split, vs[i]) != PrefixFor(d, q, split, vs[j]))
    && (forall v :: Choice(split, v) ==> Covered(d, q, split, vs, v))
    && plan.dedup == (split.in_.Some? && split.in_.value.contains)
    && (split.in_.None? ==> |vs| == 1)
  }

  lemma PlanIs(d: Def, q: Query) returns (vs: seq<Value>)
    requires PlanOf(d, q).Some?
    ensures SplitFilters(q).Some? && IsPlan(d, q, SplitFilters(q).value, vs, PlanOf(d, q).value)
  {
    var split, plan := SplitFilters(q).value, PlanOf(d, q).value;
    if split.in_.None? {
      vs := [Null];
      forall v ensures Covered(d, q, split, vs, v) {
        assert EqWith(split, v) == split.eq == EqWith(split, vs[0]);
      }
    } else {
      var seen;
      vs, seen := ValuesTracked(d, q, split, split.in_.value.values, {}, Ranges([], false), []);
      forall v | Choice(split, v) ensures Covered(d, q, split, vs, v) {
        assert v in split.in_.value.values && Searchable(v);
      }
    }
  }

  // --------------------------------------------------------------- hypotheses

  // Whether the query fixes a field by equality, a list or array-contains.
  predicate HasEquality(q: Query) {
    CollectQuery(q).Some? &&
    (CollectQuery(q).value.eq != map[] || CollectQuery(q).value.in_.Some? || CollectQuery(q).value.contains.Some?)
  }

  // A cursor the index can position: no value at the name term, and when it holds
  // no value at all, an equality to stand on or nothing to exclude.
  ghost predicate SoundCursor(q: Query, cur: Cursor, keepsTies: bool) {
    && |cur.values| < |q.order| && (forall i :: 0 <= i < |cur.values| ==> WellFormed(cur.values[i]))
    && (cur.values != [] || HasEquality(q) || keepsTies)
  }

  // Everything the planned ranges need to be exact, besides a plan: what to check
  // of a definition and a query before the call.
  ghost predicate Servable(d: Def, q: Query) {
    && SoundDef(d) && SoundOrder(q.order)
    && CollectQuery(q).Some? && SoundFound(CollectQuery(q).value)
    && (forall i :: 0 <= i < |d.fields| && d.fields[i].contains ==> d.fields[i].path == ContainsPath(q) != [])
    && (q.start.Some? ==> SoundCursor(q, q.start.value, q.start.value.before))
    && (q.end.Some? ==> SoundCursor(q, q.end.value, !q.end.value.before))
  }

  // Under them every choice is a range that serves the query.
  lemma ChoiceServes(d: Def, q: Query, split: Split, v: Value)
    requires Servable(d, q) && SplitFilters(q) == Some(split) && Choice(split, v) && IsMatched(d, q, split, v)
    ensures ServesQuery(ServingOf(d, q, split, v), q)
  {
    hide Match, Collect, SplitFilters, ContainsPath, EffectiveFields, WellFormed;
    var s := ServingOf(d, q, split, v);
    SubSound(q, v);
    forall i | 0 <= i < |d.fields| && d.fields[i].contains ensures d.fields[i].path in s.eq {
      ContainsInEq(q, split, v, d.fields[i].path);
    }
    LaidOut(s);
    if HasEquality(q) {
      EqualityInEq(q, split, v);
      NonEmptyMap(s.eq);
    }
  }

  lemma NonEmptyMap<A, B>(m: map<A, B>)
    requires m != map[]
    ensures |m| > 0
  {
    assert m.Keys == {} ==> m == map[];
  }

  lemma ContainsInEq(q: Query, split: Split, v: Value, p: Str)
    requires SplitFilters(q) == Some(split) && p == ContainsPath(q)
    ensures p != [] ==> p in EqWith(split, v)
  {
    SplitIs(q);
  }

  lemma EqualityInEq(q: Query, split: Split, v: Value)
    requires SplitFilters(q) == Some(split) && HasEquality(q)
    ensures EqWith(split, v) != map[]
  {
    SplitIs(q);
    var c := CollectQuery(q).value;
    if c.in_.Some? {
      assert c.in_.value.path in EqWith(split, v);
    } else if c.contains.Some? {
      assert c.contains.value.path in EqWith(split, v);
    }
  }

  // ------------------------------------------------- selection by the whole plan

  // A document meets the query's filters, and lies in its cursors, exactly when
  // the range of some choice selects it.
  lemma PlanSelects(d: Def, q: Query, split: Split, name: Str, fields: Fields)
    requires Servable(d, q) && SplitFilters(q) == Some(split)
    ensures Matches(q, name, fields) && InCursorRange(q, OrderKey(q.order, name, fields)) <==>
      exists v :: Choice(split, v) && Selected(ServingOf(d, q, split, v), q, name, fields)
  {
    QueryHolds(q, name, fields);
    ChoiceHolds(q, name, fields);
    if Matches(q, name, fields) && InCursorRange(q, OrderKey(q.order, name, fields)) {
      var v :| Choice(split, v) && EqAll(EqWith(split, v), ContainsPath(q), name, fields);
      assert Selected(ServingOf(d, q, split, v), q, name, fields);
    }
    forall v | Choice(split, v) && Selected(ServingOf(d, q, split, v), q, name, fields)
      ensures Matches(q, name, fields) && InCursorRange(q, OrderKey(q.order, name, fields))
    {
      assert EqAll(EqWith(split, v), ContainsPath(q), name, fields);
    }
  }

  // Choices with one prefix select the same documents.
  lemma SamePrefixSelects(d: Def, q: Query, split: Split, u: Value, v: Value, name: Str, fields: Fields)
    requires Servable(d, q) && SplitFilters(q) == Some(split) && SoundFields(fields)
    requires Choice(split, u) && Choice(split, v) && IsMatched(d, q, split, u) && IsMatched(d, q, split, v)
    requires PrefixFor(d, q, split, u) == PrefixFor(d, q, split, v)
    requires Selected(ServingOf(d, q, split, u), q, name, fields)
    ensures Selected(ServingOf(d, q, split, v), q, name, fields)
  {
    var s, t := ServingOf(d, q, split, u), ServingOf(d, q, split, v);
    SameDirection(d, q, split, u, v);
    ChoiceServes(d, q, split, u);
    ChoiceServes(d, q, split, v);
    var k := RangeKey(s, name, fields);
    RangeIsExact(s, q, name, fields, k);
    RangeIsExact(t, q, name, fields, k);
  }

  // Every matching document is selected by one of the planned ranges.
  lemma PlanCovers(d: Def, q: Query, split: Split, vs: seq<Value>, plan: Plan, name: Str, fields: Fields) returns (i: nat)
    requires Servable(d, q) && SplitFilters(q) == Some(split) && IsPlan(d, q, split, vs, plan) && SoundFields(fields)
    requires Matches(q, name, fields) && InCursorRange(q, OrderKey(q.order, name, fields))
    ensures i < |vs| && Selected(ServingOf(d, q, split, vs[i]), q, name, fields)
  {
    hide Match, Bounds, Collect, SplitFilters, ContainsPath, Matches, InCursorRange, Servable, SoundFields, Selected, Choice;
    PlanSelects(d, q, split, name, fields);
    var v :| Choice(split, v) && Selected(ServingOf(d, q, split, v), q, name, fields);
    i :| 0 <= i < |vs| && PrefixFor(d, q, split, vs[i]) == PrefixFor(d, q, split, v);
    assert RangeFor(d, q, split, vs[i], plan.ranges[i], plan.reversed);
    SamePrefixSelects(d, q, split, v, vs[i], name, fields);
  }

  // An `in` list plans disjoint ranges: a document is in at most one of them.
  lemma RangesDisjoint(d: Def, q: Query, split: Split, vs: seq<Value>, plan: Plan, name: Str, fields: Fields, i: nat, j: nat)
    requires Servable(d, q) && SplitFilters(q) == Some(split) && IsPlan(d, q, split, vs, plan) && SoundFields(fields)
    requires !plan.dedup && i < |vs| && j < |vs|
    requires Selected(ServingOf(d, q, split, vs[i]), q, name, fields)
    requires Selected(ServingOf(d, q, split, vs[j]), q, name, fields)
    ensures i == j
  {
    hide Match, Bounds, Collect, SplitFilters, ContainsPath;
    assert RangeFor(d, q, split, vs[i], plan.ranges[i], plan.reversed);
    assert RangeFor(d, q, split, vs[j], plan.ranges[j], plan.reversed);
    if i != j {
      InListField(q, split, vs[i], name, fields);
      InListField(q, split, vs[j], name, fields);
      SameValuePrefix(d, q, split, FieldAt(fields, split.in_.value.path).value, vs[i], vs[j]);
      assert false;
    }
  }

  // A document selected through an `in` value holds that value.
  lemma InListField(q: Query, split: Split, v: Value, name: Str, fields: Fields)
    requires SplitFilters(q) == Some(split) && split.in_.Some? && !split.in_.value.contains && SoundFields(fields)
    requires EqAll(EqWith(split, v), ContainsPath(q), name, fields)
    ensures var w := FieldAt(fields, split.in_.value.path); w.Some? && WellFormed(w.value) && Compare(w.value, v) == 0
  {
    hide Collect, Compare, WellFormed;
    SplitIs(q);
    var p := split.in_.value.path;
    assert EqOp(ContainsPath(q), p) == Eq;
    assert p in EqWith(split, v) && EqWith(split, v)[p] == v;
    assert EvalField(p, Eq, v, name, fields);
  }

  // Values equal to one field value have one key, hence one prefix.
  lemma SameValuePrefix(d: Def, q: Query, split: Split, w: Value, u: Value, v: Value)
    requires Servable(d, q) && SplitFilters(q) == Some(split) && split.in_.Some?
    requires Choice(split, u) && Choice(split, v) && IsMatched(d, q, split, u) && IsMatched(d, q, split, v)
    requires WellFormed(w) && Compare(w, u) == 0 && Compare(w, v) == 0
    ensures PrefixFor(d, q, split, u) == PrefixFor(d, q, split, v)
  {
    hide Collect, SplitFilters, ContainsPath, SortKey, Compare, WellFormed;
    SubSound(q, u);
    SubSound(q, v);
    var p := split.in_.value.path;
    assert WellFormed(EqWith(split, u)[p]) && WellFormed(EqWith(split, v)[p]);
    OrderIsomorphism(w, u);
    OrderIsomorphism(w, v);
    SameKeysPrefix(ServingOf(d, q, split, u), ServingOf(d, q, split, v));
  }

  // The prefix depends only on the keys of the equality values.
  lemma SameKeysPrefix(s: Serving, t: Serving)
    requires Match(s.d, s.eq, s.cPath, s.order).Some? && Match(t.d, t.eq, t.cPath, t.order).Some?
    requires s.d == t.d && s.eq.Keys == t.eq.Keys && forall p :: p in s.eq ==> SortKey(s.eq[p]) == SortKey(t.eq[p])
    ensures Matching(s).prefix == Matching(t).prefix
  {
    hide SortKey;
    MatchFits(s);
    MatchFits(t);
    assert |s.eq| == |s.eq.Keys| == |t.eq.Keys| == |t.eq|;
    var fs := EffectiveFields(s.d);
    var a, b := EqValues(fs, s.eq), EqValues(fs, t.eq);
    var n := Min(|a|, |s.d.fields|);
    assert PrefixComps(s.d.fields, a[..n]) == PrefixComps(s.d.fields, b[..n]);
  }
}
