// Masked updates (internal/writes/writes.go): copying the mask's paths from an
// update into a document.
module Writes {
  import opened Bytes
  import opened Values
  import opened FieldPaths

  // One mask path: set it as the update has it, or delete it when it does not.
  function CopyPath(state: Fields, update: Fields, p: Path): Fields
    requires p != []
  {
    var v := GetField(update, p);
    if v.Some? then SetField(state, p, v.value) else DeleteField(state, p)
  }

  predicate NonEmptyPaths(mask: seq<Path>) {
    forall i :: 0 <= i < |mask| ==> mask[i] != []
  }

  function CopyMask(state: Fields, update: Fields, mask: seq<Path>): Fields
    requires NonEmptyPaths(mask)
    decreases |mask|
  {
    if mask == [] then state else CopyMask(CopyPath(state, update, mask[0]), update, mask[1..])
  }

  predicate Incomparable(p: Path, q: Path) { !(p <= q) && !(q <= p) }

  // The field list of a document update: a full set without a mask, otherwise
  // the mask's paths in order, or an error at the first path that does not parse.
  function ApplyUpdate(state: Fields, update: Fields, mask: Option<seq<Str>>): Option<Fields> {
    if mask.None? then Some(update) else ApplyStrings(state, update, mask.value)
  }

  function ApplyStrings(state: Fields, update: Fields, mask: seq<Str>): Option<Fields>
    decreases |mask|
  {
    if mask == [] then Some(state)
    else
      var p := Parse(mask[0]);
      if p.None? then None else ApplyStrings(CopyPath(state, update, p.value), update, mask[1..])
  }

  method Update(state: Fields, update: Fields, mask: Option<seq<Str>>) returns (r: Option<Fields>)
    ensures r == ApplyUpdate(state, update, mask)
  {
    if mask.None? { return Some(update); }
    var cur := state;
    for i := 0 to |mask.value|
      invariant ApplyStrings(state, update, mask.value) == ApplyStrings(cur, update, mask.value[i..])
    {
      assert mask.value[i..][1..] == mask.value[i + 1..];
      var p := ParseFieldPath(mask.value[i]);
      if p.None? { return None; }
      var v := GetField(update, p.value);
      if v.Some? {
        cur := SetField(cur, p.value, v.value);
      } else {
        cur := DeleteField(cur, p.value);
      }
    }
    return Some(cur);
  }

  // ----------------------------------------------------------- one mask path

  lemma SetReads(f: Fields, p: Path, v: Value, q: Path)
    requires p != []
    ensures p <= q ==> GetField(SetField(f, p, v), q) ==
                       (if p == q then Some(v) else if v.Map? then GetField(v.fields, q[|p|..]) else None)
    ensures Incomparable(p, q) ==> GetField(SetField(f, p, v), q) == GetField(f, q)
  {
    hide GetField, SetField;
    if p <= q { SetReadsBelow(f, p, v, q); }
    if Incomparable(p, q) { SetReadsElsewhere(f, p, v, q); }
  }

  lemma {:induction false} SetReadsBelow(f: Fields, p: Path, v: Value, q: Path)
    requires p != [] && p <= q
    ensures GetField(SetField(f, p, v), q) ==
            (if p == q then Some(v) else if v.Map? then GetField(v.fields, q[|p|..]) else None)
    decreases |p|
  {
    if |p| > 1 {
      Tails(p, q);
      SetReadsBelow(Sub(f, p[0]), p[1..], v, q[1..]);
    }
  }

  lemma {:induction false} SetReadsElsewhere(f: Fields, p: Path, v: Value, q: Path)
    requires p != [] && Incomparable(p, q)
    ensures GetField(SetField(f, p, v), q) == GetField(f, q)
    decreases |p|
  {
    if p[0] == q[0] {
      Tails(p, q);
      if |p| > 1 { SetReadsElsewhere(Sub(f, p[0]), p[1..], v, q[1..]); }
    }
  }

  lemma Tails(p: Path, q: Path)
    requires p != [] && q != [] && p[0] == q[0]
    ensures (p[1..] <= q[1..] <==> p <= q) && (q[1..] <= p[1..] <==> q <= p) && (p == q <==> p[1..] == q[1..])
    ensures p <= q ==> q[|p|..] == q[1..][|p[1..]|..]
  {
    assert p == [p[0]] + p[1..] && q == [q[0]] + q[1..];
  }

  lemma {:induction false} DeleteReads(f: Fields, p: Path, q: Path)
    requires p != []
    ensures p <= q ==> GetField(DeleteField(f, p), q) == None
    ensures Incomparable(p, q) ==> GetField(DeleteField(f, p), q) == GetField(f, q)
    decreases |p|
  {
    if q != [] && p[0] == q[0] {
      if |p| > 1 {
        if p[0] in f && f[p[0]].Map? { DeleteReads(f[p[0]].fields, p[1..], q[1..]); }
        assert p[1..] <= q[1..] <==> p <= q;
        assert q[1..] <= p[1..] <==> q <= p;
      } else {
        assert p <= q;
      }
    }
  }

  // What lies below a path is read through it.
  lemma {:induction false} GetThrough(u: Fields, p: Path, q: Path)
    requires p != [] && p <= q && p != q
    ensures GetField(u, q) ==
      (if GetField(u, p).Some? && GetField(u, p).value.Map? then GetField(GetField(u, p).value.fields, q[|p|..]) else None)
    decreases |p|
  {
    if |p| > 1 && p[0] in u && u[p[0]].Map? {
      assert p[1..] <= q[1..] && q[1..][|p[1..]|..] == q[|p|..];
      GetThrough(u[p[0]].fields, p[1..], q[1..]);
    } else if |p| == 1 {
      assert q[1..] == q[|p|..];
    }
  }

  // After copying p, everything at or below p reads as in the update, and
  // everything incomparable with p as before.
  lemma CopyReads(f: Fields, u: Fields, p: Path, q: Path)
    requires p != []
    ensures p <= q ==> GetField(CopyPath(f, u, p), q) == GetField(u, q)
    ensures Incomparable(p, q) ==> GetField(CopyPath(f, u, p), q) == GetField(f, q)
  {
    var v := GetField(u, p);
    if v.Some? { SetReads(f, p, v.value, q); } else { DeleteReads(f, p, q); }
    if p <= q && p != q { GetThrough(u, p, q); }
  }

  // Copying a path that already agrees changes nothing.
  lemma {:induction false} SetSame(f: Fields, p: Path, v: Value)
    requires p != [] && GetField(f, p) == Some(v)
    ensures SetField(f, p, v) == f
    decreases |p|
  {
    if |p| > 1 { SetSame(f[p[0]].fields, p[1..], v); }
  }

  lemma {:induction false} DeleteAbsent(f: Fields, p: Path)
    requires p != [] && GetField(f, p).None?
    ensures DeleteField(f, p) == f
    decreases |p|
  {
    if |p| > 1 && p[0] in f && f[p[0]].Map? { DeleteAbsent(f[p[0]].fields, p[1..]); }
  }

  lemma CopyStable(f: Fields, u: Fields, p: Path)
    requires p != [] && GetField(f, p) == GetField(u, p)
    ensures CopyPath(f, u, p) == f
  {
    if GetField(u, p).Some? { SetSame(f, p, GetField(u, p).value); } else { DeleteAbsent(f, p); }
  }

  // Copying keeps agreement wherever it already holds.
  lemma CopyKeepsAgreement(f: Fields, u: Fields, p: Path, q: Path)
    requires p != [] && q != [] && GetField(f, q) == GetField(u, q)
    ensures GetField(CopyPath(f, u, p), q) == GetField(u, q)
  {
    CopyReads(f, u, p, q);
    if q <= p && p != q {
      GetThrough(f, q, p);
      GetThrough(u, q, p);
      CopyStable(f, u, p);
    }
  }

  // ------------------------------------------------------------- commutation

  // Two incomparable paths part at some level; the two writes commute there and
  // rebuild the same spine above it.
  lemma {:induction false} WritesCommute(f: Fields, p: Path, v: Option<Value>, q: Path, w: Option<Value>)
    requires p != [] && q != [] && Incomparable(p, q)
    ensures WriteAt(WriteAt(f, p, v), q, w) == WriteAt(WriteAt(f, q, w), p, v)
    decreases |p|
  {
    if p[0] == q[0] {
      assert |p| == 1 ==> p <= q;
      assert |q| == 1 ==> q <= p;
      assert Incomparable(p[1..], q[1..]) by {
        assert p[1..] <= q[1..] ==> p <= q;
        assert q[1..] <= p[1..] ==> q <= p;
      }
      WritesCommute(Sub(f, p[0]), p[1..], v, q[1..], w);
      WriteBelow(f, p, v);
      WriteBelow(f, q, w);
      WriteBelow(WriteAt(f, p, v), q, w);
      WriteBelow(WriteAt(f, q, w), p, v);
      if v.None? { EmptyDelete(p[1..]); }
      if w.None? { EmptyDelete(q[1..]); }
    } else {
      WriteElsewhere(f, p, v, q, w);
    }
  }

  function WriteAt(f: Fields, p: Path, v: Option<Value>): Fields
    requires p != []
  {
    if v.Some? then SetField(f, p, v.value) else DeleteField(f, p)
  }

  // A write below a key touches only that key, and creates it only for a value.
  lemma WriteBelow(f: Fields, p: Path, v: Option<Value>)
    requires |p| > 1
    ensures WriteAt(f, p, v) ==
      if v.Some? || (p[0] in f && f[p[0]].Map?) then f[p[0] := Map(WriteAt(Sub(f, p[0]), p[1..], v))] else f
  {}

  lemma {:induction false} EmptyDelete(p: Path)
    requires p != []
    ensures DeleteField(map[], p) == map[]
  {
    var e: Fields := map[];
    if |p| == 1 { assert e - {p[0]} == e; }
  }

  lemma WriteElsewhere(f: Fields, p: Path, v: Option<Value>, q: Path, w: Option<Value>)
    requires p != [] && q != [] && p[0] != q[0]
    ensures WriteAt(WriteAt(f, p, v), q, w) == WriteAt(WriteAt(f, q, w), p, v)
  {
    hide WriteAt;
    WriteFrame(f, p, v);
    WriteFrame(f, q, w);
    WriteFrame(WriteAt(f, p, v), q, w);
    WriteFrame(WriteAt(f, q, w), p, v);
    WriteLocal(f, WriteAt(f, q, w), p, v);
    WriteLocal(f, WriteAt(f, p, v), q, w);
    var a, b := WriteAt(WriteAt(f, p, v), q, w), WriteAt(WriteAt(f, q, w), p, v);
    forall k ensures (k in a <==> k in b) && (k in a ==> a[k] == b[k]) {}
    assert a == b;
  }

  // Only the first segment's key can change.
  lemma WriteFrame(f: Fields, p: Path, v: Option<Value>)
    requires p != []
    ensures forall k :: k != p[0] ==> (k in WriteAt(f, p, v) <==> k in f) && (k in f ==> WriteAt(f, p, v)[k] == f[k])
  {}

  // What it becomes depends only on that key.
  lemma WriteLocal(f: Fields, g: Fields, p: Path, v: Option<Value>)
    requires p != [] && (p[0] in f <==> p[0] in g) && (p[0] in f ==> f[p[0]] == g[p[0]])
    ensures p[0] in WriteAt(f, p, v) <==> p[0] in WriteAt(g, p, v)
    ensures p[0] in WriteAt(f, p, v) ==> WriteAt(f, p, v)[p[0]] == WriteAt(g, p, v)[p[0]]
  {}

  // Writing at p forgets whatever was written at or below p.
  lemma {:induction false} WriteOver(f: Fields, p: Path, v: Option<Value>, q: Path, w: Option<Value>)
    requires p != [] && p <= q
    requires v.None? ==> w.None?
    ensures WriteAt(WriteAt(f, q, w), p, v) == WriteAt(f, p, v)
    decreases |p|
  {
    if |p| == 1 {
      var a, b := WriteAt(WriteAt(f, q, w), p, v), WriteAt(f, p, v);
      WriteFrame(f, q, w);
      forall k ensures (k in a <==> k in b) && (k in a ==> a[k] == b[k]) {}
      assert a == b;
    } else {
      assert p[1..] <= q[1..] && q[0] == p[0];
      WriteOver(Sub(f, p[0]), p[1..], v, q[1..], w);
      WriteBelow(f, p, v);
      WriteBelow(f, q, w);
      WriteBelow(WriteAt(f, q, w), p, v);
    }
  }

  // Copies from one update commute, whatever the two paths.
  lemma CopiesCommute(f: Fields, u: Fields, p: Path, q: Path)
    requires p != [] && q != []
    ensures CopyPath(CopyPath(f, u, p), u, q) == CopyPath(CopyPath(f, u, q), u, p)
  {
    if p <= q {
      CopyAbsorbs(f, u, p, q);
    } else if q <= p {
      CopyAbsorbs(f, u, q, p);
    } else {
      WritesCommute(f, p, GetField(u, p), q, GetField(u, q));
    }
  }

  lemma CopyAbsorbs(f: Fields, u: Fields, p: Path, q: Path)
    requires p != [] && p <= q
    ensures CopyPath(CopyPath(f, u, q), u, p) == CopyPath(f, u, p)
    ensures CopyPath(CopyPath(f, u, p), u, q) == CopyPath(f, u, p)
  {
    if p != q { GetThrough(u, p, q); }
    WriteOver(f, p, GetField(u, p), q, GetField(u, q));
    CopyReads(f, u, p, q);
    CopyStable(CopyPath(f, u, p), u, q);
  }

  // ---------------------------------------------------------- whole masks

  // Every mask path reads afterwards as it does in the update, present or absent.
  lemma {:induction false} MaskPathsRead(f: Fields, u: Fields, mask: seq<Path>, q: Path)
    requires NonEmptyPaths(mask)
    requires q != [] && (q in mask || GetField(f, q) == GetField(u, q))
    ensures GetField(CopyMask(f, u, mask), q) == GetField(u, q)
    decreases |mask|
  {
    if mask != [] {
      var g := CopyPath(f, u, mask[0]);
      if q == mask[0] {
        CopyReads(f, u, mask[0], q);
      } else if q in mask[1..] {
      } else {
        CopyKeepsAgreement(f, u, mask[0], q);
      }
      MaskPathsRead(g, u, mask[1..], q);
    }
  }

  // Every path comparable with no mask path reads as before.
  lemma {:induction false} MaskFrame(f: Fields, u: Fields, mask: seq<Path>, q: Path)
    requires NonEmptyPaths(mask)
    requires forall i :: 0 <= i < |mask| ==> Incomparable(mask[i], q)
    ensures GetField(CopyMask(f, u, mask), q) == GetField(f, q)
    decreases |mask|
  {
    if mask != [] {
      CopyReads(f, u, mask[0], q);
      MaskFrame(CopyPath(f, u, mask[0]), u, mask[1..], q);
    }
  }

  // An extra copy of a mask path, before the mask, is absorbed.
  lemma {:induction false} MaskAbsorbs(f: Fields, u: Fields, mask: seq<Path>, p: Path)
    requires NonEmptyPaths(mask) && p in mask
    ensures p != [] && CopyMask(CopyPath(f, u, p), u, mask) == CopyMask(f, u, mask)
    decreases |mask|
  {
    var i :| 0 <= i < |mask| && mask[i] == p;
    var g := CopyPath(f, u, mask[0]);
    CopiesCommute(f, u, p, mask[0]);
    if mask[0] == p {
      CopyReads(f, u, p, p);
      CopyStable(g, u, p);
    } else {
      assert mask[1..][i - 1] == p;
      MaskAbsorbs(g, u, mask[1..], p);
    }
  }

  lemma {:induction false} MaskAbsorbsMask(f: Fields, u: Fields, mask: seq<Path>, other: seq<Path>)
    requires NonEmptyPaths(mask) && NonEmptyPaths(other)
    requires forall p :: p in other ==> p in mask
    ensures CopyMask(CopyMask(f, u, other), u, mask) == CopyMask(f, u, mask)
    decreases |other|
  {
    if other != [] {
      MaskAbsorbsMask(CopyPath(f, u, other[0]), u, mask, other[1..]);
      MaskAbsorbs(f, u, mask, other[0]);
    }
  }

  lemma {:induction false} MaskIdempotent(f: Fields, u: Fields, mask: seq<Path>)
    requires NonEmptyPaths(mask)
    requires forall p :: p in mask ==> GetField(f, p) == GetField(u, p)
    ensures CopyMask(f, u, mask) == f
    decreases |mask|
  {
    if mask != [] {
      assert mask[0] in mask;
      CopyStable(f, u, mask[0]);
      MaskIdempotent(f, u, mask[1..]);
    }
  }

  // The order and multiplicity of the mask's paths are irrelevant, comparable
  // paths included.
  lemma MaskOrderIrrelevant(f: Fields, u: Fields, a: seq<Path>, b: seq<Path>)
    requires NonEmptyPaths(a) && NonEmptyPaths(b)
    requires forall p :: p in a <==> p in b
    ensures CopyMask(f, u, a) == CopyMask(f, u, b)
  {
    var g := CopyMask(f, u, b);
    MaskAbsorbsMask(f, u, a, b);
    forall p | p in a ensures GetField(g, p) == GetField(u, p) {
      var i :| 0 <= i < |a| && a[i] == p;
      MaskPathsRead(f, u, b, p);
    }
    MaskIdempotent(g, u, a);
  }

  // A mask of strings is the mask of the parsed paths, when all of them parse.
  lemma {:induction false} StringsAreMask(f: Fields, u: Fields, mask: seq<Str>, paths: seq<Path>)
    requires |paths| == |mask|
    requires forall i :: 0 <= i < |mask| ==> Parse(mask[i]) == Some(paths[i])
    ensures NonEmptyPaths(paths)
    ensures ApplyStrings(f, u, mask) == Some(CopyMask(f, u, paths))
    decreases |mask|
  {
    forall i | 0 <= i < |paths| ensures paths[i] != [] { assert Parse(mask[i]).Some?; }
    if mask != [] { StringsAreMask(CopyPath(f, u, paths[0]), u, mask[1..], paths[1..]); }
  }
}
