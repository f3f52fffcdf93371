// Composite indexes (internal/index/index.go): definitions, the keys a document
// contributes, and the bounds of a prefix scan.
module Indexes {
  import opened Bytes
  import opened Values
  import opened SortKeys
  import opened FieldPaths
  import opened Queries

  datatype Field = Field(path: Str, desc: bool, contains: bool)

  datatype Def = Def(collectionId: Str, fields: seq<Field>, group: bool)

  // A contains component carries no direction.
  function TrailingDirection(d: Def): bool {
    d.fields != [] && !d.fields[|d.fields| - 1].contains && d.fields[|d.fields| - 1].desc
  }

  predicate EndsWithName(d: Def) {
    d.fields != [] && d.fields[|d.fields| - 1].path == NAME
  }

  // The definition's fields with the implicit name terminator.
  function EffectiveFields(d: Def): seq<Field> {
    if EndsWithName(d) then d.fields
    else d.fields + [Field(NAME, TrailingDirection(d), false)]
  }

  // -------------------------------------------------------------- index keys

  function AppendAll(heads: seq<seq<byte>>, c: seq<byte>): (r: seq<seq<byte>>)
    ensures |r| == |heads| && forall i :: 0 <= i < |heads| ==> r[i] == heads[i] + c
  {
    seq(|heads|, i requires 0 <= i < |heads| => heads[i] + c)
  }

  // One head per distinct element and old head, elements outermost.
  function Fan(heads: seq<seq<byte>>, elems: seq<Value>, seen: set<seq<byte>>): seq<seq<byte>>
    decreases |elems|
  {
    if elems == [] then []
    else
      var enc := SortKey(elems[0]);
      if enc in seen then Fan(heads, elems[1..], seen)
      else AppendAll(heads, enc) + Fan(heads, elems[1..], seen + {enc})
  }

  // The heads after one more field; none when the document is not indexed.
  function Extend(f: Field, heads: seq<seq<byte>>, name: Str, fields: Fields): seq<seq<byte>> {
    if f.path == NAME then AppendAll(heads, DirNameKey(name, f.desc))
    else
      var v := FieldAt(fields, f.path);
      if v.None? then []
      else if !f.contains then AppendAll(heads, DirKey(v.value, f.desc))
      else if !v.value.Array? then []
      else Fan(heads, v.value.elems, {})
  }

  function HeadsOf(fs: seq<Field>, heads: seq<seq<byte>>, name: Str, fields: Fields): seq<seq<byte>>
    decreases |fs|
  {
    if fs == [] then heads else HeadsOf(fs[1..], Extend(fs[0], heads, name, fields), name, fields)
  }

  function Keys(d: Def, name: Str, fields: Fields): seq<seq<byte>> {
    HeadsOf(EffectiveFields(d), [[]], name, fields)
  }

  // The source's field loop, with its early returns.
  method BuildKeys(d: Def, name: Str, fields: Fields) returns (heads: seq<seq<byte>>)
    ensures heads == Keys(d, name, fields)
  {
    heads := [[]];
    ghost var fs := EffectiveFields(d);
    for i := 0 to |d.fields|
      invariant HeadsOf(fs[i..], heads, name, fields) == Keys(d, name, fields)
    {
      var f := d.fields[i];
      assert fs[i..][0] == f && fs[i..][1..] == fs[i + 1..];
      if f.path == NAME {
        heads := AppendAll(heads, DirNameKey(name, f.desc));
        continue;
      }
      var v := FieldAt(fields, f.path);
      if v.None? {
        NoHeads(fs[i + 1..], name, fields);
        return [];
      }
      if f.contains {
        if !v.value.Array? {
          NoHeads(fs[i + 1..], name, fields);
          return [];
        }
        heads := FanOut(heads, v.value.elems);
        if heads == [] {
          NoHeads(fs[i + 1..], name, fields);
          return [];
        }
        continue;
      }
      heads := AppendAll(heads, DirKey(v.value, f.desc));
    }
    if !EndsWithName(d) {
      assert fs[|d.fields|..] == [Field(NAME, TrailingDirection(d), false)];
      assert fs[|d.fields|..][1..] == [];
      heads := AppendAll(heads, DirNameKey(name, TrailingDirection(d)));
    }
  }

  method FanOut(heads: seq<seq<byte>>, elems: seq<Value>) returns (next: seq<seq<byte>>)
    ensures next == Fan(heads, elems, {})
  {
    next := [];
    var seen: set<seq<byte>> := {};
    for i := 0 to |elems|
      invariant next + Fan(heads, elems[i..], seen) == Fan(heads, elems, {})
    {
      var enc := SortKey(elems[i]);
      assert elems[i..][1..] == elems[i + 1..];
      if enc in seen { continue; }
      ghost var rest := Fan(heads, elems[i + 1..], seen + {enc});
      assert (next + AppendAll(heads, enc)) + rest == next + (AppendAll(heads, enc) + rest);
      seen := seen + {enc};
      next := next + AppendAll(heads, enc);
    }
    assert next + [] == next;
  }

  lemma {:induction false} NoHeads(fs: seq<Field>, name: Str, fields: Fields)
    ensures HeadsOf(fs, [], name, fields) == []
    decreases |fs|
  {
    if fs != [] {
      var v := FieldAt(fields, fs[0].path);
      if v.Some? && v.value.Array? { NoFan(v.value.elems, {}); }
      NoHeads(fs[1..], name, fields);
    }
  }

  lemma {:induction false} NoFan(elems: seq<Value>, seen: set<seq<byte>>)
    ensures Fan([], elems, seen) == []
    decreases |elems|
  {
    if elems != [] {
      NoFan(elems[1..], seen);
      NoFan(elems[1..], seen + {SortKey(elems[0])});
    }
  }

  // ------------------------------------------- keys as sequences of components

  // c is a component that field f contributes for the document.
  predicate IsComp(f: Field, name: Str, fields: Fields, c: seq<byte>) {
    if f.path == NAME then c == DirNameKey(name, f.desc)
    else
      var v := FieldAt(fields, f.path);
      v.Some? && (if f.contains
                  then v.value.Array? && exists i :: 0 <= i < |v.value.elems| && c == SortKey(v.value.elems[i])
                  else c == DirKey(v.value, f.desc))
  }

  predicate AreComps(fs: seq<Field>, name: Str, fields: Fields, comps: seq<seq<byte>>) {
    |comps| == |fs| && forall i :: 0 <= i < |fs| ==> IsComp(fs[i], name, fields, comps[i])
  }

  function Concat(comps: seq<seq<byte>>): seq<byte> {
    if comps == [] then [] else comps[0] + Concat(comps[1..])
  }

  lemma {:induction false} ConcatSplit(comps: seq<seq<byte>>, n: nat)
    requires n <= |comps|
    ensures Concat(comps) == Concat(comps[..n]) + Concat(comps[n..])
  {
    if n == 0 {
      assert comps[0..] == comps && comps[..0] == [];
    } else {
      ConcatSplit(comps[1..], n - 1);
      assert comps[..n][1..] == comps[1..][..n - 1] && comps[1..][n - 1..] == comps[n..];
      Assoc(comps[0], Concat(comps[1..][..n - 1]), Concat(comps[n..]));
    }
  }

  lemma {:induction false} FanMember(heads: seq<seq<byte>>, elems: seq<Value>, seen: set<seq<byte>>, k: seq<byte>)
    returns (h: seq<byte>, i: nat)
    requires k in Fan(heads, elems, seen)
    ensures h in heads && i < |elems| && k == h + SortKey(elems[i])
    decreases |elems|
  {
    var enc := SortKey(elems[0]);
    if enc !in seen && k in AppendAll(heads, enc) {
      var j :| 0 <= j < |heads| && AppendAll(heads, enc)[j] == k;
      h, i := heads[j], 0;
    } else {
      var j: nat;
      h, j := FanMember(heads, elems[1..], if enc in seen then seen else seen + {enc}, k);
      i := j + 1;
    }
  }

  lemma {:induction false} FanHas(heads: seq<seq<byte>>, elems: seq<Value>, seen: set<seq<byte>>, h: seq<byte>, i: nat)
    requires h in heads && i < |elems| && SortKey(elems[i]) !in seen
    ensures h + SortKey(elems[i]) in Fan(heads, elems, seen)
    decreases |elems|
  {
    var enc := SortKey(elems[0]);
    if SortKey(elems[i]) == enc {
      var j :| 0 <= j < |heads| && heads[j] == h;
      assert AppendAll(heads, enc)[j] == h + enc;
    } else {
      FanHas(heads, elems[1..], if enc in seen then seen else seen + {enc}, h, i - 1);
    }
  }

  lemma ExtendMember(f: Field, heads: seq<seq<byte>>, name: Str, fields: Fields, k: seq<byte>)
    returns (h: seq<byte>, c: seq<byte>)
    requires k in Extend(f, heads, name, fields)
    ensures h in heads && IsComp(f, name, fields, c) && k == h + c
  {
    if f.path != NAME && f.contains {
      var i: nat;
      var elems := FieldAt(fields, f.path).value.elems;
      h, i := FanMember(heads, elems, {}, k);
      c := SortKey(elems[i]);
    } else {
      c := if f.path == NAME then DirNameKey(name, f.desc) else DirKey(FieldAt(fields, f.path).value, f.desc);
      var j :| 0 <= j < |heads| && AppendAll(heads, c)[j] == k;
      h := heads[j];
    }
  }

  lemma ExtendHas(f: Field, heads: seq<seq<byte>>, name: Str, fields: Fields, h: seq<byte>, c: seq<byte>)
    requires h in heads && IsComp(f, name, fields, c)
    ensures h + c in Extend(f, heads, name, fields)
  {
    if f.path != NAME && f.contains {
      var elems := FieldAt(fields, f.path).value.elems;
      var i :| 0 <= i < |elems| && c == SortKey(elems[i]);
      FanHas(heads, elems, {}, h, i);
    } else {
      var j :| 0 <= j < |heads| && heads[j] == h;
      assert AppendAll(heads, c)[j] == h + c;
    }
  }

  lemma {:induction false} HeadMember(fs: seq<Field>, heads: seq<seq<byte>>, name: Str, fields: Fields, k: seq<byte>)
    returns (h: seq<byte>, comps: seq<seq<byte>>)
    requires k in HeadsOf(fs, heads, name, fields)
    ensures h in heads && AreComps(fs, name, fields, comps) && k == h + Concat(comps)
    decreases |fs|
  {
    if fs == [] {
      h, comps := k, [];
      assert k + [] == k;
    } else {
      var g, rest := HeadMember(fs[1..], Extend(fs[0], heads, name, fields), name, fields, k);
      var c;
      h, c := ExtendMember(fs[0], heads, name, fields, g);
      comps := [c] + rest;
      assert comps[1..] == rest;
      Assoc(h, c, Concat(rest));
      forall i | 0 <= i < |fs| ensures IsComp(fs[i], name, fields, comps[i]) {
        if i > 0 { assert fs[1..][i - 1] == fs[i]; }
      }
    }
  }

  lemma {:induction false} HeadHas(fs: seq<Field>, heads: seq<seq<byte>>, name: Str, fields: Fields, h: seq<byte>, comps: seq<seq<byte>>)
    requires h in heads && AreComps(fs, name, fields, comps)
    ensures h + Concat(comps) in HeadsOf(fs, heads, name, fields)
    decreases |fs|
  {
    if fs == [] {
      assert h + [] == h;
    } else {
      ExtendHas(fs[0], heads, name, fields, h, comps[0]);
      HeadHas(fs[1..], Extend(fs[0], heads, name, fields), name, fields, h + comps[0], comps[1..]);
      Assoc(h, comps[0], Concat(comps[1..]));
    }
  }

  // The keys of a document are exactly the concatenations of one component per
  // effective field.
  lemma KeyMember(d: Def, name: Str, fields: Fields, k: seq<byte>) returns (comps: seq<seq<byte>>)
    requires k in Keys(d, name, fields)
    ensures AreComps(EffectiveFields(d), name, fields, comps) && k == Concat(comps)
  {
    var h;
    h, comps := HeadMember(EffectiveFields(d), [[]], name, fields, k);
    assert [] + Concat(comps) == Concat(comps);
  }

  lemma KeyHas(d: Def, name: Str, fields: Fields, comps: seq<seq<byte>>)
    requires AreComps(EffectiveFields(d), name, fields, comps)
    ensures Concat(comps) in Keys(d, name, fields)
  {
    HeadHas(EffectiveFields(d), [[]], name, fields, [], comps);
    assert [] + Concat(comps) == Concat(comps);
  }

  // ------------------------------------------------------------- prefix scans

  // The key prefix of leading values.
  function PrefixComps(fs: seq<Field>, vals: seq<Value>): (r: seq<seq<byte>>)
    requires |vals| <= |fs|
    ensures |r| == |vals| && forall i :: 0 <= i < |vals| ==> r[i] == DirKey(vals[i], fs[i].desc)
  {
    seq(|vals|, i requires 0 <= i < |vals| => DirKey(vals[i], fs[i].desc))
  }

  // Values beyond the definition's fields are ignored.
  function PrefixKey(d: Def, vals: seq<Value>): seq<byte> {
    Concat(PrefixComps(d.fields, vals[..Min(|vals|, |d.fields|)]))
  }

  method BuildPrefixKey(d: Def, vals: seq<Value>) returns (key: seq<byte>)
    ensures key == PrefixKey(d, vals)
  {
    key := [];
    ghost var comps := PrefixComps(d.fields, vals[..Min(|vals|, |d.fields|)]);
    for i := 0 to |vals|
      invariant i <= |d.fields| && key == Concat(comps[..i])
    {
      if i >= |d.fields| {
        assert comps[..i] == comps;
        break;
      }
      var old_ := key;
      if d.fields[i].desc {
        key := AppendSortKeyDesc(key, vals[i]);
      } else {
        key := AppendSortKey(key, vals[i]);
      }
      ConcatSplit(comps[..i + 1], i);
      assert comps[..i + 1][..i] == comps[..i] && comps[..i + 1][i..] == [comps[i]];
      assert Concat([comps[i]]) == comps[i] + [] == comps[i];
    }
    assert comps[..|comps|] == comps;
  }

  type Bound = Option<seq<byte>>

  // The exclusive upper bound of everything that starts with p; None (nil) when
  // p is all 0xFF.
  function PrefixEnd(p: seq<byte>): Bound {
    if p == [] then None
    else
      var e := PrefixEnd(p[1..]);
      if e.Some? then Some([p[0]] + e.value)
      else if p[0] == 0xFF then None
      else Some([p[0] + 1])
  }

  // The source's backward scan for a byte to increment.
  method FindPrefixEnd(p: seq<byte>) returns (r: Bound)
    ensures r == PrefixEnd(p)
  {
    var i := |p| - 1;
    while i >= 0
      invariant -1 <= i < |p|
      invariant forall j :: i < j < |p| ==> p[j] == 0xFF
    {
      if p[i] != 0xFF {
        PrefixEndAt(p, i);
        return Some(p[..i] + [p[i] + 1]);
      }
      i := i - 1;
    }
    AllFF(p);
    return None;
  }

  lemma {:induction false} AllFF(p: seq<byte>)
    requires forall j :: 0 <= j < |p| ==> p[j] == 0xFF
    ensures PrefixEnd(p).None?
  {
    if p != [] { AllFF(p[1..]); }
  }

  lemma {:induction false} PrefixEndAt(p: seq<byte>, i: nat)
    requires i < |p| && p[i] != 0xFF && forall j :: i < j < |p| ==> p[j] == 0xFF
    ensures PrefixEnd(p) == Some(p[..i] + [p[i] + 1])
  {
    if i == 0 {
      AllFF(p[1..]);
      assert p[..0] + [p[0] + 1] == [p[0] + 1];
    } else {
      PrefixEndAt(p[1..], i - 1);
      assert [p[0]] + (p[1..][..i - 1] + [p[i] + 1]) == p[..i] + [p[i] + 1];
    }
  }

  // The half-open interval below PrefixEnd(p) holds what is below p and what
  // starts with p; without an end, everything not below p starts with p.
  lemma {:induction false} PrefixEndExact(p: seq<byte>, k: seq<byte>)
    ensures PrefixEnd(p).Some? ==> (Less(k, PrefixEnd(p).value) <==> Less(k, p) || p <= k)
    ensures PrefixEnd(p).None? ==> Less(k, p) || p <= k
    decreases p
  {
    if p != [] && k != [] {
      var e := PrefixEnd(p[1..]);
      if e.Some? { assert ([p[0]] + e.value)[1..] == e.value; }
      if p[0] == k[0] {
        PrefixEndExact(p[1..], k[1..]);
        assert p <= k <==> p[1..] <= k[1..];
      } else if e.None? && p[0] < k[0] && k[0] - p[0] == 1 {
        var end: seq<byte> := [p[0] + 1];
        assert CompareBytes(k, end) == CompareBytes(k[1..], end[1..]);
      }
    }
  }

  lemma PrefixEndExists(p: seq<byte>)
    requires p != [] && p[0] != 0xFF
    ensures PrefixEnd(p).Some?
  {}
}
