// The probes equality filters are narrowed with (internal/value/containment.go and
// containmentProbes in internal/store/query.go), and what narrowing keeps.
module Containment {
  import opened Bytes
  import opened Numbers
  import opened Values
  import opened SortKeys
  import opened FieldPaths
  import opened Queries
  import opened Conversions
  import opened Storage
  import opened Orders
  import opened Layouts
  import opened Merge
  import opened General
  import opened NamePath
  import opened Encoding
  import opened Covering

  // ------------------------------------------------------------------ nestPath

  function Nest(path: Path, leaf: Json): Json
    requires path != []
  {
    Tagged(path[0], if |path| == 1 then leaf else Tagged(TAG_M, Nest(path[1..], leaf)))
  }

  method NestPath(path: Path, leaf: Json) returns (node: Json)
    requires path != []
    ensures node == Nest(path, leaf)
  {
    node := leaf;
    var i := |path| - 1;
    while i >= 0
      invariant -1 <= i < |path|
      invariant node == if i == |path| - 1 then leaf else if i >= 0 then Tagged(TAG_M, Nest(path[i + 1..], leaf)) else Nest(path, leaf)
    {
      var wrapped := Tagged(path[i], node);
      assert path[i..][1..] == path[i + 1..];
      assert wrapped == Nest(path[i..], leaf);
      if i > 0 {
        node := Tagged(TAG_M, wrapped);
      } else {
        assert path[0..] == path;
        node := wrapped;
      }
      i := i - 1;
    }
  }

  // A document's data includes a nested leaf exactly when its field at the path
  // exists and includes the leaf.
  lemma {:induction false} NestExact(f: Formats, fields: Fields, path: Path, leaf: Json)
    requires path != [] && Data(f, fields).Some?
    ensures Includes(Data(f, fields).value, Nest(path, leaf)) <==>
      var v := GetField(fields, path); v.Some? && Encode(f, v.value).Some? && Includes(Encode(f, v.value).value, leaf)
    decreases |path|
  {
    hide Encode, Data, Includes;
    var a, k := Data(f, fields).value, path[0];
    DataAt(f, fields, k);
    if |path| == 1 {
      IncludesTagged(a, k, leaf);
    } else {
      var rest := Nest(path[1..], leaf);
      IncludesTagged(a, k, Tagged(TAG_M, rest));
      if k in fields {
        IncludesTagged(a.m[k], TAG_M, rest);
        EncodedMap(f, fields[k]);
        if fields[k].Map? { NestExact(f, fields[k].fields, path[1..], leaf); }
      }
    }
  }

  // ------------------------------------------------------------- probe groups

  // ContainmentJSON, or ArrayContainmentJSON.
  function Probe(path: Path, e: Json, inArray: bool): Json
    requires path != []
  {
    Nest(path, if inArray then Tagged(TAG_A, JArr([e])) else e)
  }

  // One probe per value that encodes.
  function ProbesOf(f: Formats, path: Path, vs: seq<Value>, inArray: bool): seq<Json>
    requires path != []
  {
    if vs == [] then []
    else (if Encode(f, vs[0]).Some? then [Probe(path, Encode(f, vs[0]).value, inArray)] else []) + ProbesOf(f, path, vs[1..], inArray)
  }

  function EqualityProbes(f: Formats, path: Path, operand: Value, inArray: bool): seq<Json>
    requires path != []
  {
    if IsNaNValue(operand) then [] else ProbesOf(f, path, Alternatives(operand), inArray)
  }

  lemma {:induction false} ProbesSplit(f: Formats, path: Path, a: seq<Value>, b: seq<Value>, inArray: bool)
    requires path != []
    ensures ProbesOf(f, path, a + b, inArray) == ProbesOf(f, path, a, inArray) + ProbesOf(f, path, b, inArray)
    decreases |a|
  {
    if a == [] {
      assert a + b == b;
    } else {
      ProbesSplit(f, path, a[1..], b, inArray);
      assert (a + b)[1..] == a[1..] + b;
    }
  }

  method Add(f: Formats, path: Path, v: Value, inArray: bool, group: seq<Json>, ghost vs: seq<Value>) returns (r: seq<Json>)
    requires path != [] && group == ProbesOf(f, path, vs, inArray)
    ensures r == ProbesOf(f, path, vs + [v], inArray)
  {
    r := group;
    var e := Encode(f, v);
    assert [v][1..] == [];
    ProbesSplit(f, path, vs, [v], inArray);
    if e.Some? {
      var leaf := if inArray then Tagged(TAG_A, JArr([e.value])) else e.value;
      var p := NestPath(path, leaf);
      r := r + [p];
    }
  }

  // equalityProbes.
  method BuildProbes(f: Formats, path: Path, operand: Value, inArray: bool) returns (group: seq<Json>)
    requires path != []
    ensures group == EqualityProbes(f, path, operand, inArray)
  {
    hide Encode, Float64, ToInt64, ProbesOf;
    if IsNaNValue(operand) { return []; }
    NoProbes(f, path, inArray);
    group := Add(f, path, operand, inArray, [], []);
    assert [] + [operand] == [operand];
    if operand.Integer? {
      group := AddIntTwins(f, path, operand.x, inArray, group);
    } else if operand.DoubleV? {
      group := AddDoubleTwins(f, path, operand.d, inArray, group);
    }
  }

  lemma NoProbes(f: Formats, path: Path, inArray: bool)
    requires path != []
    ensures ProbesOf(f, path, [], inArray) == []
  {}

  method AddIntTwins(f: Formats, path: Path, x: Int64, inArray: bool, group0: seq<Json>) returns (group: seq<Json>)
    requires path != [] && group0 == ProbesOf(f, path, [Integer(x)], inArray)
    ensures group == ProbesOf(f, path, Alternatives(Integer(x)), inArray)
  {
    hide Encode, Float64, ToInt64, ProbesOf;
    group := group0;
    ghost var vs: seq<Value> := [Integer(x)];
    var d := Float64(x);
    // int64(f) is out of range at f == math.MaxInt64, which is 2^63.
    if ToInt64(d) == Whole(x) {
      group := Add(f, path, DoubleV(d), inArray, group, vs);
      vs := vs + [DoubleV(d)];
    }
    if x == 0 {
      group := Add(f, path, DoubleV(MINUS_ZERO), inArray, group, vs);
      vs := vs + [DoubleV(MINUS_ZERO)];
    }
    assert vs == Alternatives(Integer(x));
  }

  method AddDoubleTwins(f: Formats, path: Path, d: Double, inArray: bool, group0: seq<Json>) returns (group: seq<Json>)
    requires path != [] && group0 == ProbesOf(f, path, [DoubleV(d)], inArray)
    ensures group == ProbesOf(f, path, Alternatives(DoubleV(d)), inArray)
  {
    hide Encode, Float64, ToInt64, ProbesOf;
    group := group0;
    ghost var vs: seq<Value> := [DoubleV(d)];
    if ToInt64(d).Whole? {
      var x := Integer(ToInt64(d).x);
      group := Add(f, path, x, inArray, group, vs);
      vs := vs + [x];
    }
    if IsZero(d) {
      group := Add(f, path, DoubleV(PLUS_ZERO), inArray, group, vs);
      vs := vs + [DoubleV(PLUS_ZERO)];
      group := Add(f, path, DoubleV(MINUS_ZERO), inArray, group, vs);
      vs := vs + [DoubleV(MINUS_ZERO)];
    }
    assert vs == Alternatives(DoubleV(d));
  }

  predicate Probed(data: Json, group: seq<Json>) { exists p :: p in group && Includes(data, p) }

  lemma {:induction false} ProbeMember(f: Formats, path: Path, vs: seq<Value>, inArray: bool, p: Json)
    requires path != []
    ensures p in ProbesOf(f, path, vs, inArray) <==>
      exists i :: 0 <= i < |vs| && Encode(f, vs[i]).Some? && p == Probe(path, Encode(f, vs[i]).value, inArray)
    decreases |vs|
  {
    hide Encode, Probe;
    if vs != [] {
      ProbeMember(f, path, vs[1..], inArray, p);
      if p in ProbesOf(f, path, vs[1..], inArray) {
        var i :| 0 <= i < |vs[1..]| && Encode(f, vs[1..][i]).Some? && p == Probe(path, Encode(f, vs[1..][i]).value, inArray);
        assert vs[i + 1] == vs[1..][i];
      }
      if i :| 0 <= i < |vs| && Encode(f, vs[i]).Some? && p == Probe(path, Encode(f, vs[i]).value, inArray) {
        if i > 0 { assert vs[1..][i - 1] == vs[i]; }
      }
    }
  }

  // What a probe finds: the field itself, or an element of it.
  predicate Finds(f: Formats, v: Option<Value>, u: Value, inArray: bool) {
    && v.Some? && Encode(f, u).Some?
    && if inArray then v.value.Array? && exists i :: 0 <= i < |v.value.elems| && Encode(f, v.value.elems[i]) == Encode(f, u)
       else Encode(f, v.value) == Encode(f, u)
  }

  lemma FieldEncodes(f: Formats, fields: Fields, path: Path)
    requires path != [] && Data(f, fields).Some? && GetField(fields, path).Some?
    ensures Encode(f, GetField(fields, path).value).Some?
    decreases |path|
  {
    hide Encode, Data;
    DataAt(f, fields, path[0]);
    if |path| > 1 {
      EncodedMap(f, fields[path[0]]);
      FieldEncodes(f, fields[path[0]].fields, path[1..]);
    }
  }

  lemma ProbeFinds(f: Formats, fields: Fields, path: Path, u: Value, inArray: bool)
    requires path != [] && Data(f, fields).Some? && Scalar(u) && Encode(f, u).Some?
    ensures Includes(Data(f, fields).value, Probe(path, Encode(f, u).value, inArray)) <==> Finds(f, GetField(fields, path), u, inArray)
  {
    hide Encode, Data, Includes, Nest;
    var e, v := Encode(f, u).value, GetField(fields, path);
    NestExact(f, fields, path, if inArray then Tagged(TAG_A, JArr([e])) else e);
    if v.Some? {
      FieldEncodes(f, fields, path);
      if inArray { ArrayFinds(f, v.value, u); } else { IncludesScalar(f, v.value, u); }
    }
  }

  lemma ArrayFinds(f: Formats, v: Value, u: Value)
    requires Encode(f, v).Some? && Scalar(u) && Encode(f, u).Some?
    ensures Includes(Encode(f, v).value, Tagged(TAG_A, JArr([Encode(f, u).value]))) <==>
      v.Array? && exists i :: 0 <= i < |v.elems| && Encode(f, v.elems[i]) == Encode(f, u)
  {
    hide Encode, Scalar;
    var a, e := Encode(f, v).value, Encode(f, u).value;
    EncodedArray(f, v);
    IncludesTagged(a, TAG_A, JArr([e]));
    if v.Array? {
      var es := a.m[TAG_A].es;
      IncludesOne(a.m[TAG_A], e);
      forall i | 0 <= i < |v.elems| ensures Includes(es[i], e) <==> Encode(f, v.elems[i]) == Encode(f, u) {
        IncludesScalar(f, v.elems[i], u);
      }
    }
  }

  lemma IncludesOne(a: Json, e: Json)
    requires a.JArr?
    ensures Includes(a, JArr([e])) <==> exists j :: 0 <= j < |a.es| && Includes(a.es[j], e)
  {
    assert [e][0] == e;
  }

  // The operator a group narrows.
  function GroupOp(inArray: bool): Op { if inArray then ArrayContains else Eq }

  // The operands narrowing loses no document for: scalars, which every spelling is
  // probed for; those no probe is built for; and those whose one probe is sure.
  predicate Covered(f: Formats, v: Value) { Scalar(v) || Encode(f, v).None? || Surely(f, v, v) }

  // An empty group is left out of the WHERE clause.
  predicate Kept(data: Json, group: seq<Json>) { group == [] || Probed(data, group) }

  // A document that meets the filter includes one of its probes, if there are any,
  lemma GroupKeeps(f: Formats, fields: Fields, path: Path, operand: Value, inArray: bool)
    requires path != [] && Data(f, fields).Some? && Covered(f, operand)
    requires GetField(fields, path).Some? && EvalOp(GetField(fields, path).value, GroupOp(inArray), operand)
    requires Scalar(operand) || Ordered(GetField(fields, path).value)
    ensures Kept(Data(f, fields).value, EqualityProbes(f, path, operand, inArray))
  {
    hide Encode, Data, Includes, Compare, Probed, EvalOp, Surely, Ordered;
    if IsNaNValue(operand) { NaNProbes(f, path, operand, inArray); }
    else if Scalar(operand) { ScalarKeeps(f, fields, path, operand, inArray); }
    else { CompoundKeeps(f, fields, path, operand, inArray); }
  }

  lemma NaNProbes(f: Formats, path: Path, operand: Value, inArray: bool)
    requires path != [] && IsNaNValue(operand)
    ensures EqualityProbes(f, path, operand, inArray) == []
  {}

  lemma ScalarKeeps(f: Formats, fields: Fields, path: Path, operand: Value, inArray: bool)
    requires path != [] && Data(f, fields).Some? && Scalar(operand) && !IsNaNValue(operand)
    requires GetField(fields, path).Some? && EvalOp(GetField(fields, path).value, GroupOp(inArray), operand)
    ensures Probed(Data(f, fields).value, EqualityProbes(f, path, operand, inArray))
  {
    hide Encode, Data, Includes, Compare, Probe;
    var v := GetField(fields, path).value;
    FieldEncodes(f, fields, path);
    var w := v;
    if inArray {
      var i :| 0 <= i < |v.elems| && Compare(v.elems[i], operand) == 0;
      EncodedArray(f, v);
      w := v.elems[i];
    }
    ScalarAlternatives(w, operand);
    var k :| 0 <= k < |Alternatives(operand)| && Alternatives(operand)[k] == w;
    AlternativesScalar(operand, k);
    var p := Probe(path, Encode(f, w).value, inArray);
    ProbeFinds(f, fields, path, w, inArray);
    ProbeMember(f, path, Alternatives(operand), inArray, p);
  }

  // One probe, or none.
  lemma CompoundProbes(f: Formats, path: Path, operand: Value, inArray: bool)
    requires path != [] && !Scalar(operand)
    ensures EqualityProbes(f, path, operand, inArray) ==
      if Encode(f, operand).None? then [] else [Probe(path, Encode(f, operand).value, inArray)]
  {
    hide Encode, Probe;
    assert [operand][1..] == [] && Alternatives(operand) == [operand] && !IsNaNValue(operand);
    NoProbes(f, path, inArray);
    assert ProbesOf(f, path, [operand], inArray) == EqualityProbes(f, path, operand, inArray);
  }

  lemma HasOne(w: Value, operand: Value)
    requires Compare(w, operand) == 0 && !Scalar(operand)
    ensures EvalOp(w, Eq, operand) && EvalOp(Array([w]), ArrayContains, operand)
  {
    hide Compare, TypeOrder, Scalar;
    SameType(w, operand);
    CompoundType(operand);
    var v := Array([w]);
    assert v.elems[0] == w;
  }

  lemma CompoundType(v: Value)
    requires !Scalar(v)
    ensures TypeOrder(v) >= 8
  {}

  // What the probe of an operand is included by: the field, or an element of it.
  lemma ProbeIncludes(f: Formats, fields: Fields, path: Path, operand: Value, inArray: bool)
    requires path != [] && Data(f, fields).Some? && Encode(f, operand).Some? && GetField(fields, path).Some?
    ensures var v := GetField(fields, path).value;
      && Encode(f, v).Some?
      && (Includes(Data(f, fields).value, Probe(path, Encode(f, operand).value, inArray)) <==>
          if inArray then v.Array? && ElemIncludes(f, v, operand) else Includes(Encode(f, v).value, Encode(f, operand).value))
  {
    hide Encode, Data, Includes, Nest;
    var e, v := Encode(f, operand).value, GetField(fields, path).value;
    FieldEncodes(f, fields, path);
    NestExact(f, fields, path, if inArray then Tagged(TAG_A, JArr([e])) else e);
    if inArray {
      EncodedArray(f, v);
      IncludesTagged(Encode(f, v).value, TAG_A, JArr([e]));
      if v.Array? { ElemFound(f, v, operand); }
    }
  }

  lemma ElemFound(f: Formats, v: Value, u: Value)
    requires v.Array? && Encode(f, v).Some? && Encode(f, u).Some?
    ensures TAG_A in Encode(f, v).value.m
    ensures Includes(Encode(f, v).value.m[TAG_A], JArr([Encode(f, u).value])) <==> ElemIncludes(f, v, u)
  {
    hide Encode, Includes;
    var e := Encode(f, u).value;
    EncodedArray(f, v);
    var es := Encode(f, v).value.m[TAG_A].es;
    IncludesOne(Encode(f, v).value.m[TAG_A], e);
    if j :| 0 <= j < |es| && Includes(es[j], e) { assert ElemCode(f, v, j) == es[j]; }
    if j :| 0 <= j < |v.elems| && Includes(ElemCode(f, v, j), e) { assert Includes(es[j], e); }
  }

  lemma CompoundKeeps(f: Formats, fields: Fields, path: Path, operand: Value, inArray: bool)
    requires path != [] && Data(f, fields).Some? && Covered(f, operand) && !Scalar(operand)
    requires GetField(fields, path).Some? && EvalOp(GetField(fields, path).value, GroupOp(inArray), operand)
    requires Ordered(GetField(fields, path).value)
    ensures Kept(Data(f, fields).value, EqualityProbes(f, path, operand, inArray))
  {
    hide Encode, Data, Includes, Compare, Probe, Surely, Ordered;
    CompoundProbes(f, path, operand, inArray);
    if Encode(f, operand).Some? {
      var v := GetField(fields, path).value;
      ProbeIncludes(f, fields, path, operand, inArray);
      if inArray {
        var i :| 0 <= i < |v.elems| && Compare(v.elems[i], operand) == 0;
        EncodedArray(f, v);
        ElemOrdered(v, i);
        SurelyIncludes(f, v.elems[i], operand, operand);
        assert Includes(ElemCode(f, v, i), Encode(f, operand).value);
      } else {
        SurelyIncludes(f, v, operand, operand);
      }
    }
  }

  // ---------------------------------------------- operands that are not covered

  // The document whose only field at the path is this one.
  function Wrap(path: Path, v: Value): Fields
    requires path != []
  {
    map[path[0] := if |path| == 1 then v else Map(Wrap(path[1..], v))]
  }

  lemma {:induction false} Wrapped(f: Formats, path: Path, v: Value)
    requires path != [] && Encode(f, v).Some? && forall i :: 0 <= i < |path| ==> !HasNul(path[i])
    ensures GetField(Wrap(path, v), path) == Some(v) && Data(f, Wrap(path, v)).Some? && Encode(f, Map(Wrap(path, v))).Some?
    decreases |path|
  {
    hide Encode, HasNul;
    if |path| > 1 { Wrapped(f, path[1..], v); }
    MembersOf(f, Map(Wrap(path, v)));
  }

  // A document that meets the filter and is excluded.
  lemma GroupLoses(f: Formats, path: Path, operand: Value, inArray: bool) returns (fields: Fields)
    requires ZerosDiffer(f) && path != [] && !Covered(f, operand) && forall i :: 0 <= i < |path| ==> !HasNul(path[i])
    ensures Data(f, fields).Some? && GetField(fields, path).Some? && Ordered(GetField(fields, path).value)
    ensures EvalOp(GetField(fields, path).value, GroupOp(inArray), operand)
    ensures !Kept(Data(f, fields).value, EqualityProbes(f, path, operand, inArray))
  {
    hide Encode, Data, Includes, Compare, Probe, Surely, Ordered, HasNul;
    CompoundProbes(f, path, operand, inArray);
    var w := NotSure(f, operand, operand);
    var v := if inArray then Array([w]) else w;
    OneElem(f, w);
    HasOne(w, operand);
    fields := Wrap(path, v);
    Wrapped(f, path, v);
    ProbeIncludes(f, fields, path, operand, inArray);
    if inArray { assert v.elems[0] == w; }
  }

  lemma OneElem(f: Formats, w: Value)
    requires Encode(f, w).Some? && Ordered(w)
    ensures Encode(f, Array([w])).Some? && Ordered(Array([w]))
  {}

  // Narrowing by one filter keeps every document that meets it, whatever is stored,
  // exactly when the operand is covered.
  lemma CoveredExact(f: Formats, path: Path, operand: Value, inArray: bool)
    requires ZerosDiffer(f) && path != [] && forall i :: 0 <= i < |path| ==> !HasNul(path[i])
    ensures Covered(f, operand) <==>
      forall fields: Fields ::
        Data(f, fields).Some? && GetField(fields, path).Some? && Ordered(GetField(fields, path).value)
        && EvalOp(GetField(fields, path).value, GroupOp(inArray), operand) ==>
          Kept(Data(f, fields).value, EqualityProbes(f, path, operand, inArray))
  {
    hide Data, Ordered, EvalOp, Kept, Covered, HasNul;
    if Covered(f, operand) {
      forall fields: Fields |
        Data(f, fields).Some? && GetField(fields, path).Some? && Ordered(GetField(fields, path).value)
        && EvalOp(GetField(fields, path).value, GroupOp(inArray), operand)
        ensures Kept(Data(f, fields).value, EqualityProbes(f, path, operand, inArray))
      {
        GroupKeeps(f, fields, path, operand, inArray);
      }
    } else {
      var fields := GroupLoses(f, path, operand, inArray);
    }
  }

  // ... and, where the texts are injective, only such documents do.
  lemma GroupExact(f: Formats, fields: Fields, path: Path, operand: Value, inArray: bool)
    requires path != [] && Data(f, fields).Some? && Scalar(operand) && !IsNaNValue(operand)
    requires Injective(f) && !operand.Timestamp? && (inArray ==> Searchable(operand))
    ensures Probed(Data(f, fields).value, EqualityProbes(f, path, operand, inArray)) <==>
      GetField(fields, path).Some? && EvalOp(GetField(fields, path).value, GroupOp(inArray), operand)
  {
    hide Encode, Data, Includes, Compare, Probe, EvalOp;
    var data, group := Data(f, fields).value, EqualityProbes(f, path, operand, inArray);
    if Probed(data, group) {
      var p :| p in group && Includes(data, p);
      ProbeMember(f, path, Alternatives(operand), inArray, p);
      var k :| 0 <= k < |Alternatives(operand)| && Encode(f, Alternatives(operand)[k]).Some?
               && p == Probe(path, Encode(f, Alternatives(operand)[k]).value, inArray);
      AlternativesScalar(operand, k);
      ProbeFinds(f, fields, path, Alternatives(operand)[k], inArray);
      FoundMatches(f, GetField(fields, path), operand, k, inArray);
    }
    if GetField(fields, path).Some? && EvalOp(GetField(fields, path).value, GroupOp(inArray), operand) {
      ScalarKeeps(f, fields, path, operand, inArray);
    }
  }

  lemma FoundMatches(f: Formats, v: Option<Value>, operand: Value, k: nat, inArray: bool)
    requires Injective(f) && Scalar(operand) && !IsNaNValue(operand) && !operand.Timestamp? && (inArray ==> Searchable(operand))
    requires k < |Alternatives(operand)| && Finds(f, v, Alternatives(operand)[k], inArray)
    ensures EvalOp(v.value, GroupOp(inArray), operand)
  {
    hide Encode, Compare, Alternatives, Injective;
    var u := Alternatives(operand)[k];
    assert u in Alternatives(operand);
    AlternativesScalar(operand, k);
    if inArray {
      var i :| 0 <= i < |v.value.elems| && Encode(f, v.value.elems[i]) == Encode(f, u);
      EncodeInjective(f, v.value.elems[i], u);
      ScalarAlternatives(v.value.elems[i], operand);
    } else {
      EncodeInjective(f, v.value, u);
      ScalarAlternatives(v.value, operand);
    }
  }

  // A geopoint is covered exactly when no coordinate is zero or NaN,
  lemma GeoPointCovered(f: Formats, lat: Double, lng: Double)
    requires Injective(f)
    ensures Covered(f, GeoPoint(lat, lng)) <==> !IsZero(lat) && !IsNaN(lat) && !IsZero(lng) && !IsNaN(lng)
  {
    hide Injective, Surely;
    PlainExact(f, GeoPoint(lat, lng));
  }

  // ... so that one stored with negative zeros equals the operand and is excluded.
  lemma GeoPointMissed(f: Formats, k: Str)
    requires ZerosDiffer(f) && !HasNul(k)
    ensures var v, w := GeoPoint(PLUS_ZERO, PLUS_ZERO), GeoPoint(MINUS_ZERO, MINUS_ZERO);
      && EvalOp(w, Eq, v) && Data(f, map[k := w]).Some?
      && !Kept(Data(f, map[k := w]).value, EqualityProbes(f, [k], v, false))
  {
    hide Encode, Includes, Data, Probe;
    var v, w := GeoPoint(PLUS_ZERO, PLUS_ZERO), GeoPoint(MINUS_ZERO, MINUS_ZERO);
    GeoEncoded(f, v);
    GeoEncoded(f, w);
    Wrapped(f, [k], w);
    ProbeIncludes(f, Wrap([k], w), [k], v, false);
    IncludesTagged(Encode(f, w).value, TAG_G, Encode(f, v).value.m[TAG_G]);
    var minus, plus := f.dbl(MINUS_ZERO), f.dbl(PLUS_ZERO);
    PairIncludes(minus, minus, plus, plus);
    CompoundProbes(f, [k], v, false);
  }

  // ---------------------------------------------------------- whole filter trees

  // containmentProbes: None when the tree is not a pure conjunction.
  function ContainmentProbes(f: Formats, filter: Filter): Option<seq<seq<Json>>>
    decreases filter
  {
    match filter
    case Composite(j, fs) => if j != And then None else ProbesOfAll(f, fs)
    case FieldFilter(p, op, operand) =>
      if p == NAME || Parse(p).None? || (op != Eq && op != ArrayContains) then Some([])
      else
        var group := EqualityProbes(f, Parse(p).value, operand, op == ArrayContains);
        Some(if group == [] then [] else [group])
    case Unary(_, _) => Some([])
    case NoFilter => Some([])
  }

  function ProbesOfAll(f: Formats, fs: seq<Filter>): Option<seq<seq<Json>>>
    decreases fs
  {
    if fs == [] then Some([])
    else
      var a, b := ContainmentProbes(f, fs[0]), ProbesOfAll(f, fs[1..]);
      if a.None? || b.None? then None else Some(a.value + b.value)
  }

  // The source's walk, appending to one list.
  method CollectProbes(f: Formats, filter: Filter) returns (r: Option<seq<seq<Json>>>)
    ensures r == ContainmentProbes(f, filter)
    decreases filter
  {
    hide EqualityProbes;
    var out: seq<seq<Json>> := [];
    match filter
    case Composite(j, fs) =>
      if j != And { return None; }
      assert fs[0..] == fs;
      PrependTwice([], [], ProbesOfAll(f, fs));
      for i := 0 to |fs|
        invariant ProbesOfAll(f, fs) == Prepend(out, ProbesOfAll(f, fs[i..]))
      {
        assert fs[i..][1..] == fs[i + 1..];
        var sub := CollectProbes(f, fs[i]);
        if sub.None? { return None; }
        PrependTwice(out, sub.value, ProbesOfAll(f, fs[i + 1..]));
        out := out + sub.value;
      }
      assert out + [] == out;
      return Some(out);
    case FieldFilter(p, op, operand) =>
      if p == NAME { return Some(out); }
      var path := ParseFieldPath(p);
      if path.None? { return Some(out); }
      if op == Eq || op == ArrayContains {
        var group := BuildProbes(f, path.value, operand, op == ArrayContains);
        if group != [] { return Some([group]); }
      }
      return Some(out);
    case _ => return Some(out);
  }

  function Prepend(a: seq<seq<Json>>, b: Option<seq<seq<Json>>>): Option<seq<seq<Json>>> {
    if b.None? then None else Some(a + b.value)
  }

  lemma PrependTwice(a: seq<seq<Json>>, b: seq<seq<Json>>, c: Option<seq<seq<Json>>>)
    ensures Prepend(a, Prepend(b, c)) == Prepend(a + b, c)
    ensures Prepend([], c) == c
  {
    if c.Some? {
      assert [] + c.value == c.value;
      assert a + (b + c.value) == (a + b) + c.value;
    }
  }

  // `data @> p OR ...` for every group.
  predicate Narrowed(data: Json, groups: seq<seq<Json>>) {
    forall i :: 0 <= i < |groups| ==> Probed(data, groups[i])
  }

  // Equality and array-contains operands are scalars throughout the tree.
  predicate ScalarOperands(filter: Filter)
    decreases filter
  {
    match filter
    case Composite(_, fs) => forall i :: 0 <= i < |fs| ==> ScalarOperands(fs[i])
    case FieldFilter(_, op, operand) => op == Eq || op == ArrayContains ==> Scalar(operand)
    case _ => true
  }

  // ... or covered throughout.
  predicate CoveredOperands(f: Formats, filter: Filter)
    decreases filter
  {
    match filter
    case Composite(_, fs) => forall i :: 0 <= i < |fs| ==> CoveredOperands(f, fs[i])
    case FieldFilter(p, op, operand) => p != NAME && Parse(p).Some? && (op == Eq || op == ArrayContains) ==> Covered(f, operand)
    case _ => true
  }

  // No field has a NaN coordinate.
  ghost predicate OrderedFields(fields: Fields) {
    forall p: Path :: GetField(fields, p).Some? ==> Ordered(GetField(fields, p).value)
  }

  // Narrowing never excludes a match.
  lemma {:induction false} NarrowingKeeps(f: Formats, filter: Filter, name: Str, fields: Fields)
    requires CoveredOperands(f, filter) && (ScalarOperands(filter) || OrderedFields(fields))
    requires Data(f, fields).Some? && ContainmentProbes(f, filter).Some?
    requires EvalFilter(filter, name, fields)
    ensures Narrowed(Data(f, fields).value, ContainmentProbes(f, filter).value)
    decreases filter
  {
    hide Data, EqualityProbes, Probed, EvalOp;
    match filter
    case Composite(_, fs) => AllNarrowed(f, fs, name, fields);
    case FieldFilter(p, op, operand) =>
      if p != NAME && Parse(p).Some? && (op == Eq || op == ArrayContains) {
        GroupKeeps(f, fields, Parse(p).value, operand, op == ArrayContains);
      }
    case _ =>
  }

  lemma {:induction false} AllNarrowed(f: Formats, fs: seq<Filter>, name: Str, fields: Fields)
    requires forall i :: 0 <= i < |fs| ==> CoveredOperands(f, fs[i])
    requires (forall i :: 0 <= i < |fs| ==> ScalarOperands(fs[i])) || OrderedFields(fields)
    requires Data(f, fields).Some? && ProbesOfAll(f, fs).Some?
    requires forall i :: 0 <= i < |fs| ==> EvalFilter(fs[i], name, fields)
    ensures Narrowed(Data(f, fields).value, ProbesOfAll(f, fs).value)
    decreases fs
  {
    hide Data, Probed, EvalOp;
    if fs != [] {
      NarrowingKeeps(f, fs[0], name, fields);
      AllNarrowed(f, fs[1..], name, fields);
    }
  }

  // ------------------------------------------------------ the rows SQL returns

  // The WHERE clause RunQuery builds, besides the base conditions.
  predicate SqlNarrowed(f: Formats, q: Query, d: Doc) {
    Data(f, d.fields).Some? &&
    (q.where_.Some? && ContainmentProbes(f, q.where_.value).Some? ==>
       Narrowed(Data(f, d.fields).value, ContainmentProbes(f, q.where_.value).value))
  }

  // What narrowing needs, when it takes place.
  predicate NarrowingServed(f: Formats, q: Query) {
    q.where_.Some? && ContainmentProbes(f, q.where_.value).Some? ==> CoveredOperands(f, q.where_.value)
  }

  // Every document of the table was encoded when it was stored.
  ghost predicate Encoded(f: Formats, table: Table) {
    forall n :: n in table ==> Data(f, table[n].fields).Some?
  }

  lemma SelectionNarrowed(f: Formats, q: Query, table: Table, d: Doc)
    requires SoundTable(table) && Encoded(f, table) && NarrowingServed(f, q)
    requires d in Selection(q, table)
    ensures SqlNarrowed(f, q, d)
  {
    hide Data, EvalFilter, Narrowed, CoveredOperands, OrderedFields, ScalarOperands, InCursorRange, InBase, SoundFields;
    if q.where_.Some? && ContainmentProbes(f, q.where_.value).Some? {
      SoundOrdered(d.fields);
      NarrowingKeeps(f, q.where_.value, d.name, d.fields);
    }
  }

  lemma SoundOrdered(fields: Fields)
    requires SoundFields(fields)
    ensures OrderedFields(fields)
  {
    forall p: Path | GetField(fields, p).Some? ensures Ordered(GetField(fields, p).value) {
      WellFormedOrdered(GetField(fields, p).value);
    }
  }

  // The rows that meet the WHERE clause are candidates for runGeneral.
  lemma NarrowedCandidates(f: Formats, q: Query, table: Table, rows: seq<Doc>)
    requires SoundTable(table) && Encoded(f, table) && NarrowingServed(f, q)
    requires forall i, j :: 0 <= i < j < |rows| ==> rows[i] != rows[j]
    requires forall d :: d in rows <==> d.name in table && table[d.name] == d && InBase(q, d) && SqlNarrowed(f, q, d)
    ensures Candidates(q, table, rows)
  {
    hide SqlNarrowed, NarrowingServed, InBase, Passes, Encoded, SoundFields;
    SelectionSound(q, table);
    forall d | d in Selection(q, table) ensures d in rows { SelectionNarrowed(f, q, table, d); }
  }

  // ... and in name order they are the scan of runNameOrdered.
  lemma NarrowedScan(f: Formats, q: Query, table: Table, scan: seq<Doc>)
    requires NameOnly(q) && SoundTable(table) && Encoded(f, table) && NarrowingServed(f, q)
    requires InByteOrder(q.order[0].desc, scan)
    requires forall d :: d in scan <==>
      d.name in table && table[d.name] == d && InBase(q, d) && SqlNarrowed(f, q, d) && SqlCursors(q, d.name)
    ensures IsNameScan(q, table, scan)
  {
    hide SqlNarrowed, NarrowingServed, InBase, Passes, Encoded, SoundFields, SqlCursors, InByteOrder;
    SelectionSound(q, table);
    forall d | d in Selection(q, table) && SqlCursors(q, d.name) ensures d in scan { SelectionNarrowed(f, q, table, d); }
  }
}
