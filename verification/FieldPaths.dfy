// Field paths (internal/value/fieldpath.go): parsing, canonical printing, and
// reading, writing and deleting fields of nested maps.
module FieldPaths {
  import opened Bytes
  import opened Values

  datatype Option<+T> = None | Some(value: T)

  type Path = seq<Str>

  const DOT: byte := 0x2E
  const TICK: byte := 0x60
  const BACKSLASH: byte := 0x5C
  const UNDERSCORE: byte := 0x5F

  // ---------------------------------------------------------------- the grammar

  datatype Segment = Segment(name: Str, rest: Str)

  // The body of a backquoted segment, up to and including the closing backquote.
  function Quoted(s: Str): Option<Segment>
    decreases |s|
  {
    if s == [] then None
    else if s[0] == BACKSLASH then
      if |s| < 2 then None else Glue([s[1]], Quoted(s[2..]))
    else if s[0] == TICK then Some(Segment([], s[1..]))
    else Glue([s[0]], Quoted(s[1..]))
  }

  // pre, read before the rest of a segment.
  function Glue(pre: Str, r: Option<Segment>): Option<Segment> {
    if r.None? then None else Some(Segment(pre + r.value.name, r.value.rest))
  }

  lemma GlueLaws(a: Str, b: Str, r: Option<Segment>)
    ensures Glue([], r) == r
    ensures Glue(a, Glue(b, r)) == Glue(a + b, r)
  {
    if r.Some? { Assoc(a, b, r.value.name); assert [] + r.value.name == r.value.name; }
  }

  // An unquoted segment runs to the next dot and holds no backquote.
  function Bare(s: Str): Option<Segment> {
    if s == [] || s[0] == DOT then Some(Segment([], s))
    else if s[0] == TICK then None
    else Glue([s[0]], Bare(s[1..]))
  }

  function FirstSegment(s: Str): Option<Segment>
    requires s != []
  {
    if s[0] == TICK then Quoted(s[1..])
    else
      var r := Bare(s);
      if r.Some? && r.value.name == [] then None else r
  }

  lemma {:induction false} QuotedShrinks(s: Str)
    ensures Quoted(s).Some? ==> |Quoted(s).value.rest| < |s|
    decreases |s|
  {
    if s != [] {
      if s[0] == BACKSLASH { if |s| >= 2 { QuotedShrinks(s[2..]); } }
      else if s[0] != TICK { QuotedShrinks(s[1..]); }
    }
  }

  lemma {:induction false} BareSplits(s: Str)
    ensures Bare(s).Some? ==> s == Bare(s).value.name + Bare(s).value.rest
  {
    if s != [] && s[0] != DOT && s[0] != TICK { BareSplits(s[1..]); }
  }

  lemma FirstSegmentShrinks(s: Str)
    requires s != []
    ensures FirstSegment(s).Some? ==> |FirstSegment(s).value.rest| < |s|
  {
    if s[0] == TICK { QuotedShrinks(s[1..]); } else { BareSplits(s); }
  }

  // None is every error of ParseFieldPath.
  function Parse(s: Str): (r: Option<Path>)
    ensures r.Some? ==> r.value != []
    decreases |s|
  {
    if s == [] then None
    else
      FirstSegmentShrinks(s);
      var seg := FirstSegment(s);
      if seg.None? then None
      else if seg.value.rest == [] then Some([seg.value.name])
      else if seg.value.rest[0] != DOT then None
      else
        var tail := Parse(seg.value.rest[1..]);
        Onto([seg.value.name], tail)
  }

  function Onto(path: Path, r: Option<Path>): Option<Path> {
    if r.None? then None else Some(path + r.value)
  }

  lemma OntoLaws(a: Path, b: Path, r: Option<Path>)
    ensures Onto([], r) == r
    ensures Onto(a, Onto(b, r)) == Onto(a + b, r)
  {
    if r.Some? { assert a + (b + r.value) == (a + b) + r.value && [] + r.value == r.value; }
  }

  // --------------------------------------------------------------- the printer

  predicate Letter(c: byte) {
    0x61 <= c <= 0x7A || 0x41 <= c <= 0x5A || c == UNDERSCORE
  }

  predicate Digit(c: byte) { 0x30 <= c <= 0x39 }

  predicate IsSimple(s: Str) {
    s != [] && !Digit(s[0]) && forall i :: 0 <= i < |s| ==> Letter(s[i]) || Digit(s[i])
  }

  function Quote(s: Str): Str {
    if s == [] then [TICK]
    else (if s[0] == TICK || s[0] == BACKSLASH then [BACKSLASH, s[0]] else [s[0]]) + Quote(s[1..])
  }

  function PrintSegment(s: Str): Str {
    if IsSimple(s) then s else [TICK] + Quote(s)
  }

  function Print(p: Path): Str {
    if p == [] then []
    else if |p| == 1 then PrintSegment(p[0])
    else PrintSegment(p[0]) + [DOT] + Print(p[1..])
  }

  // ---------------------------------------------------------------- round trip

  lemma {:induction false} QuoteRoundTrip(s: Str, rest: Str)
    ensures Quoted(Quote(s) + rest) == Some(Segment(s, rest))
  {
    if s != [] {
      QuoteRoundTrip(s[1..], rest);
      var q, t := Quote(s) + rest, Quote(s[1..]) + rest;
      if s[0] == TICK || s[0] == BACKSLASH {
        assert q[0] == BACKSLASH && q[1] == s[0] && q[2..] == t;
      } else {
        assert q[0] == s[0] && q[1..] == t;
      }
      assert [s[0]] + s[1..] == s;
    } else {
      assert (Quote(s) + rest)[1..] == rest;
    }
  }

  lemma {:induction false} BareRoundTrip(s: Str, rest: Str)
    requires forall i :: 0 <= i < |s| ==> s[i] != DOT && s[i] != TICK
    requires rest == [] || rest[0] == DOT
    ensures Bare(s + rest) == Some(Segment(s, rest))
  {
    if s == [] {
      assert s + rest == rest;
    } else {
      BareRoundTrip(s[1..], rest);
      assert (s + rest)[0] == s[0] && (s + rest)[1..] == s[1..] + rest;
      assert [s[0]] + s[1..] == s;
    }
  }

  lemma SimpleRoundTrip(s: Str, rest: Str)
    requires IsSimple(s) && (rest == [] || rest[0] == DOT)
    ensures (s + rest)[0] != TICK
    ensures FirstSegment(s + rest) == Some(Segment(s, rest))
  {
    assert (s + rest)[0] == s[0];
    forall i | 0 <= i < |s| ensures s[i] != DOT && s[i] != TICK { assert Letter(s[i]) || Digit(s[i]); }
    BareRoundTrip(s, rest);
  }

  lemma QuotedRoundTrip(s: Str, rest: Str)
    ensures FirstSegment([TICK] + Quote(s) + rest) == Some(Segment(s, rest))
  {
    var t := [TICK] + Quote(s) + rest;
    assert t[0] == TICK && t[1..] == Quote(s) + rest;
    QuoteRoundTrip(s, rest);
  }

  lemma SegmentRoundTrip(s: Str, rest: Str)
    requires rest == [] || rest[0] == DOT
    ensures PrintSegment(s) + rest != []
    ensures FirstSegment(PrintSegment(s) + rest) == Some(Segment(s, rest))
  {
    if IsSimple(s) { SimpleRoundTrip(s, rest); } else { QuotedRoundTrip(s, rest); }
  }

  // Any non-empty path of arbitrary byte segments survives printing and parsing.
  lemma {:induction false} RoundTrip(p: Path)
    requires p != []
    ensures Parse(Print(p)) == Some(p)
  {
    var rest := if |p| == 1 then [] else [DOT] + Print(p[1..]);
    SegmentRoundTrip(p[0], rest);
    if |p| == 1 {
      assert PrintSegment(p[0]) + [] == PrintSegment(p[0]);
      assert [p[0]] == p;
    } else {
      RoundTrip(p[1..]);
      Assoc(PrintSegment(p[0]), [DOT], Print(p[1..]));
      assert rest[1..] == Print(p[1..]);
      assert [p[0]] + p[1..] == p;
    }
  }

  lemma PrintInjective(p: Path, q: Path)
    requires p != [] && q != [] && Print(p) == Print(q)
    ensures p == q
  {
    RoundTrip(p);
    RoundTrip(q);
  }

  // ------------------------------------------------------ the source's loops

  // The index-driven parser.
  method ParseFieldPath(s: Str) returns (r: Option<Path>)
    ensures r == Parse(s)
  {
    if s == [] { return None; }
    var path: Path := [];
    var i := 0;
    assert s[0..] == s;
    OntoLaws([], [], Parse(s));
    while true
      invariant 0 <= i <= |s|
      invariant Parse(s) == Onto(path, Parse(s[i..]))
      decreases |s| - i
    {
      if i >= |s| { return None; }
      ghost var rest := s[i..];
      FirstSegmentShrinks(rest);
      var name, next, ok := ScanSegment(s, i);
      if !ok { return None; }
      ghost var path0 := path;
      path := path + [name];
      i := next;
      if i == |s| { return Some(path); }
      if s[i] != DOT { return None; }
      assert s[i..][1..] == s[i + 1..];
      OntoLaws(path0, [name], Parse(s[i + 1..]));
      i := i + 1;
    }
    return None;
  }

  method ScanSegment(s: Str, start: nat) returns (name: Str, i: nat, ok: bool)
    requires start < |s|
    ensures ok == FirstSegment(s[start..]).Some?
    ensures start < i <= |s| || !ok
    ensures ok ==> FirstSegment(s[start..]) == Some(Segment(name, s[i..]))
  {
    if s[start] == TICK {
      assert s[start..][1..] == s[start + 1..];
      name, i, ok := ScanQuoted(s, start + 1);
    } else {
      name, i, ok := ScanBare(s, start);
    }
  }

  method ScanQuoted(s: Str, from: nat) returns (name: Str, i: nat, ok: bool)
    requires from <= |s|
    ensures ok == Quoted(s[from..]).Some?
    ensures from <= i <= |s|
    ensures ok ==> Quoted(s[from..]) == Some(Segment(name, s[i..]))
  {
    name, i := [], from;
    GlueLaws([], [], Quoted(s[from..]));
    while i < |s|
      invariant from <= i <= |s|
      invariant Quoted(s[from..]) == Glue(name, Quoted(s[i..]))
      decreases |s| - i
    {
      var c := s[i];
      if c == BACKSLASH {
        if i + 1 >= |s| { return name, i, false; }
        assert s[i..][2..] == s[i + 2..];
        GlueLaws(name, [s[i + 1]], Quoted(s[i + 2..]));
        name := name + [s[i + 1]];
        i := i + 2;
        continue;
      }
      assert s[i..][1..] == s[i + 1..];
      if c == TICK {
        assert name + [] == name;
        return name, i + 1, true;
      }
      GlueLaws(name, [c], Quoted(s[i + 1..]));
      name := name + [c];
      i := i + 1;
    }
    return name, i, false;
  }

  method ScanBare(s: Str, start: nat) returns (name: Str, i: nat, ok: bool)
    requires start < |s| && s[start] != TICK
    ensures ok == FirstSegment(s[start..]).Some?
    ensures start <= i <= |s|
    ensures ok ==> i > start && FirstSegment(s[start..]) == Some(Segment(name, s[i..]))
  {
    i := start;
    GlueLaws([], [], Bare(s[start..]));
    assert s[start..start] == [];
    while i < |s| && s[i] != DOT
      invariant start <= i <= |s|
      invariant Bare(s[start..]) == Glue(s[start..i], Bare(s[i..]))
    {
      if s[i] == TICK { return [], i, false; }
      assert s[i..][1..] == s[i + 1..] && s[start..i] + [s[i]] == s[start..i + 1];
      GlueLaws(s[start..i], [s[i]], Bare(s[i + 1..]));
      i := i + 1;
    }
    name := s[start..i];
    assert name + [] == name;
    ok := i != start;
  }

  // The buffer-building printer.
  method PrintPath(p: Path) returns (b: Str)
    ensures b == Print(p)
  {
    b := [];
    for i := 0 to |p|
      invariant i == 0 ==> b == []
      invariant i > 0 ==> b + (if i == |p| then [] else [DOT] + Print(p[i..])) == Print(p)
    {
      ghost var before := b;
      var seg := p[i];
      assert p[i..][0] == seg && p[i..][1..] == p[i + 1..];
      ghost var tail: Str := if i + 1 == |p| then [] else [DOT] + Print(p[i + 1..]);
      assert Print(p[i..]) == PrintSegment(seg) + tail by {
        if i + 1 < |p| { Assoc(PrintSegment(seg), [DOT], Print(p[i + 1..])); }
      }
      if i > 0 {
        Assoc(b, [DOT], Print(p[i..]));
        b := b + [DOT];
      } else {
        assert p[0..] == p;
      }
      assert b + Print(p[i..]) == Print(p);
      Assoc(b, PrintSegment(seg), tail);
      if IsSimple(seg) {
        b := b + seg;
      } else {
        Assoc(b, [TICK], Quote(seg));
        b := AppendQuoted(b + [TICK], seg);
      }
    }
  }

  method AppendQuoted(dst: Str, seg: Str) returns (b: Str)
    ensures b == dst + Quote(seg)
  {
    b := dst;
    for j := 0 to |seg|
      invariant b + Quote(seg[j..]) == dst + Quote(seg)
    {
      assert seg[j..][1..] == seg[j + 1..];
      if seg[j] == TICK || seg[j] == BACKSLASH { b := b + [BACKSLASH]; }
      b := b + [seg[j]];
    }
    b := b + [TICK];
  }

  // ------------------------------------------------------------ nested fields

  function GetField(fields: Fields, path: Path): Option<Value>
    decreases |path|
  {
    if path == [] || path[0] !in fields then None
    else if |path| == 1 then Some(fields[path[0]])
    else if !fields[path[0]].Map? then None
    else GetField(fields[path[0]].fields, path[1..])
  }

  // The map under a key, or a fresh one when it is missing or not a map.
  function Sub(fields: Fields, key: Str): Fields {
    if key in fields && fields[key].Map? then fields[key].fields else map[]
  }

  function SetField(fields: Fields, path: Path, v: Value): Fields
    requires path != []
    decreases |path|
  {
    if |path| == 1 then fields[path[0] := v]
    else fields[path[0] := Map(SetField(Sub(fields, path[0]), path[1..], v))]
  }

  function DeleteField(fields: Fields, path: Path): Fields
    requires path != []
    decreases |path|
  {
    if |path| == 1 then fields - {path[0]}
    else if path[0] !in fields || !fields[path[0]].Map? then fields
    else fields[path[0] := Map(DeleteField(fields[path[0]].fields, path[1..]))]
  }

  // The source's downward walk.
  method GetFieldLoop(fields: Fields, path: Path) returns (r: Option<Value>)
    ensures r == GetField(fields, path)
  {
    var cur := fields;
    for i := 0 to |path|
      invariant GetField(fields, path) == GetField(cur, path[i..])
    {
      assert path[i..][0] == path[i] && path[i..][1..] == path[i + 1..];
      if path[i] !in cur { return None; }
      var v := cur[path[i]];
      if i == |path| - 1 { return Some(v); }
      if !v.Map? { return None; }
      cur := v.fields;
    }
    return None;
  }
}
