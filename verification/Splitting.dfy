// When a limit is pushed down without the cursors of a query over one collection, as a
// test on the two cursors and the limit alone (runNameOrdered in
// internal/store/query.go).
module Splitting {
  import opened Bytes
  import opened Values
  import opened DocNames
  import opened Orders
  import opened SortKeys
  import opened FieldPaths
  import opened Queries
  import opened Spans
  import opened General
  import opened NamePath

  // ------------------------------------------------------------ ids in byte order

  lemma LessNul(a: Str)
    ensures CompareBytes(a, a + [0]) == -1
  {
    SamePrefix(a, [], [0]);
    assert a + [] == a;
    assert CompareBytes([], [0]) == -1;
  }

  // Nothing lies between a string and the string with a NUL appended.
  lemma {:induction false} Next(a: Str, b: Str)
    requires CompareBytes(a, b) < 0
    ensures CompareBytes(a + [0], b) <= 0
    decreases |a|
  {
    if a == [] {
      assert a + [0] == [0];
      assert CompareBytes([0], b) == if b[0] == 0 then CompareBytes([0][1..], b[1..]) else -1;
    } else {
      assert (a + [0])[1..] == a[1..] + [0] && (a + [0])[0] == a[0];
      if a[0] == b[0] { Next(a[1..], b[1..]); }
    }
  }

  lemma NextBoth(a: Str, b: Str)
    requires CompareBytes(a, b) <= 0
    ensures CompareBytes(a + [0], b + [0]) <= 0
  {
    CompareZero(a, b);
    if a == b {
      CompareRefl(a + [0]);
    } else {
      Next(a, b);
      LessNul(b);
      CompareTrans(a + [0], b, b + [0]);
    }
  }

  // a with n NULs appended: the first strings after a.
  function After(a: Str, n: nat): (r: Str)
    ensures |r| == |a| + n && a <= r
  {
    if n == 0 then a else After(a, n - 1) + [0]
  }

  lemma {:induction false} AfterBare(a: Str, n: nat)
    requires NoSlash(a)
    ensures NoSlash(After(a, n))
    decreases n
  {
    if n > 0 { AfterBare(a, n - 1); }
  }

  lemma {:induction false} AfterGrows(a: Str, m: nat, n: nat)
    requires m <= n
    ensures CompareBytes(After(a, m), After(a, n)) <= 0 && (m < n ==> CompareBytes(After(a, m), After(a, n)) < 0)
    decreases n
  {
    if m == n {
      CompareRefl(After(a, m));
    } else {
      AfterGrows(a, m, n - 1);
      LessNul(After(a, n - 1));
      CompareTrans(After(a, m), After(a, n - 1), After(a, n));
    }
  }

  predicate Ascending(ids: seq<Str>) {
    forall i, j :: 0 <= i < j < |ids| ==> CompareBytes(ids[i], ids[j]) < 0
  }

  // An ascending list that starts no lower stays no lower.
  lemma {:induction false} Keeps(a: Str, ids: seq<Str>, n: nat)
    requires Ascending(ids) && n < |ids| && CompareBytes(a, ids[0]) <= 0
    ensures CompareBytes(After(a, n), ids[n]) <= 0
    decreases n
  {
    if n > 0 {
      Keeps(a, ids, n - 1);
      NextBoth(After(a, n - 1), ids[n - 1]);
      Next(ids[n - 1], ids[n]);
      CompareTrans(After(a, n), ids[n - 1] + [0], ids[n]);
    }
  }

  lemma NulFirst(id: Str)
    requires id != []
    ensures CompareBytes([0], id) <= 0
  {
    assert CompareBytes([], id) == -1;
    Next([], id);
    assert [] + [0] == [0];
  }

  // ------------------------------------------------------ names of one collection

  function Base(q: Query): Str { q.parent + [SLASH] + q.collectionId + [SLASH] }

  // An id a document may have.
  predicate IsDocId(id: Str) { id != [] && NoSlash(id) }

  lemma {:induction false} SegmentsTail(c: Str, id: Str)
    requires c != [] && c[|c| - 1] == SLASH && NoSlash(id)
    ensures Segments(c + id) == Segments(c)[..|Segments(c)| - 1] + [id]
    decreases |c|
  {
    hide Segments, FirstSlash, NoSlash;
    var n, k := c + id, FirstSlash(c);
    FirstSlashIn(c, id);
    FirstSegment(c);
    FirstSegment(n);
    assert n[k + 1..] == c[k + 1..] + id && n[..k] == c[..k];
    var rest := Segments(c[k + 1..]);
    if k + 1 == |c| {
      NothingLeft(c, k);
      BareSegments(id);
    } else {
      SegmentsTail(c[k + 1..], id);
    }
    LastReplaced(c[..k], rest, id);
  }

  lemma FirstSegment(s: Str)
    ensures FirstSlash(s) < |s| ==> Segments(s) == [s[..FirstSlash(s)]] + Segments(s[FirstSlash(s) + 1..])
  {
    hide FirstSlash;
  }

  lemma NothingLeft(c: Str, k: nat)
    requires k + 1 == |c|
    ensures c[k + 1..] == [] && Segments([]) == [[]] && Segments([])[..0] == []
  {}

  lemma LastReplaced(x: Str, rest: seq<Str>, id: Str)
    requires rest != []
    ensures ([x] + rest)[..|[x] + rest| - 1] + [id] == [x] + (rest[..|rest| - 1] + [id])
  {}

  lemma {:induction false} FirstSlashIn(c: Str, id: Str)
    requires c != [] && c[|c| - 1] == SLASH
    ensures FirstSlash(c + id) == FirstSlash(c) < |c|
    decreases |c|
  {
    if c[0] != SLASH {
      assert (c + id)[1..] == c[1..] + id;
      FirstSlashIn(c[1..], id);
    }
  }

  lemma {:induction false} BareSegments(s: Str)
    requires NoSlash(s)
    ensures FirstSlash(s) == |s| && Segments(s) == [s]
    decreases |s|
  {
    if s != [] { BareSegments(s[1..]); }
  }

  function Above(q: Query): seq<Str> { Segments(Base(q))[..|Segments(Base(q))| - 1] }

  lemma NameSegments(q: Query, id: Str)
    requires NoSlash(id)
    ensures Segments(Base(q) + id) == Above(q) + [id]
  {
    SegmentsTail(Base(q), id);
  }

  // Some document can be in the base, and then one of any id.
  predicate Possible(q: Query) { Nameable(q, Base(q) + [0]) }

  lemma NameableExact(q: Query, id: Str)
    requires !q.allDescendants && IsDocId(id)
    ensures Nameable(q, Base(q) + id) <==> Possible(q)
  {
    hide Segments;
    NameSegments(q, id);
    NameSegments(q, [0]);
    var s, t := Above(q) + [id], Above(q) + [[0]];
    var n := |s|;
    assert |Base(q)| > 0;
    assert s[..n - 1] == Above(q) == t[..n - 1];
    if n >= 2 { assert s[..n - 2] == t[..n - 2] && s[n - 2] == t[n - 2]; }
    assert (exists i :: 5 <= i < n && s[i] == []) <==> (exists i :: 5 <= i < n && t[i] == []) by {
      if i :| 5 <= i < n && s[i] == [] { assert t[i] == []; }
      if i :| 5 <= i < n && t[i] == [] { assert s[i] == []; }
    }
  }

  lemma NameableId(q: Query, n: Str) returns (id: Str)
    requires !q.allDescendants && Nameable(q, n)
    ensures IsDocId(id) && n == Base(q) + id && Possible(q)
  {
    hide Segments;
    NameParts(n);
    id := ParseName(n).value.docId;
    assert IsDocId(id) by {
      var segs := Segments(n);
      assert segs[|segs| - 1] == id;
    }
    NameableExact(q, id);
  }

  // ----------------------------------------------------------- where cursors stand

  // The id a cursor at a name of the collection, or below it, stands at; empty when it
  // stands on one side of the whole collection.
  function CursorId(q: Query, c: Option<Cursor>): Str {
    if Inside(q, c) then Segments(c.value.values[0].name)[|Above(q)|] else []
  }

  predicate Inside(q: Query, c: Option<Cursor>) {
    && c.Some? && c.value.values != [] && c.value.values[0].Reference?
    && var t := Segments(c.value.values[0].name); |Above(q)| < |t| && t[..|Above(q)|] == Above(q)
  }

  ghost function PlaceOf(q: Query, c: Cursor, id: Str): int
    requires NameOnly(q)
  {
    CompareToCursor(q.order, [Reference(Base(q) + id)], c)
  }

  // Outside, all ids have one place,
  lemma OutsidePlace(q: Query, c: Cursor, id: Str, other: Str)
    requires NameOnly(q) && !Inside(q, Some(c)) && NoSlash(id) && NoSlash(other)
    ensures PlaceOf(q, c, id) == PlaceOf(q, c, other)
  {
    hide CompareToCursor, Segments, CompareBytes;
    CursorPlace(q, Base(q) + id, c);
    CursorPlace(q, Base(q) + other, c);
    if c.values != [] && c.values[0].Reference? {
      NameSegments(q, id);
      NameSegments(q, other);
      SegmentsApart(Above(q), id, other, Segments(c.values[0].name));
    }
    if c.values != [] && !c.values[0].Reference? { OneType(Base(q) + id, Base(q) + other, c.values[0]); }
  }

  lemma OneType(a: Str, b: Str, v: Value)
    requires !v.Reference?
    ensures Compare(Reference(a), v) == Compare(Reference(b), v)
  {}

  lemma {:induction false} SegmentsApart(s: seq<Str>, a: Str, b: Str, t: seq<Str>)
    requires !(|s| < |t| && t[..|s|] == s)
    ensures CompareSegments(s + [a], t) == CompareSegments(s + [b], t)
    decreases |s|
  {
    hide CompareBytes;
    if s == [] {
      assert t == [];
    } else if t != [] {
      assert (s + [a])[1..] == s[1..] + [a] && (s + [b])[1..] == s[1..] + [b];
      CompareZero(s[0], t[0]);
      if s[0] == t[0] {
        if |s| < |t| { assert t[..|s|] == [t[0]] + t[1..][..|s[1..]|] && s == [s[0]] + s[1..]; }
        SegmentsApart(s[1..], a, b, t[1..]);
      }
    }
  }

  // ... inside, other ids than the cursor's have theirs by byte order.
  lemma InsidePlace(q: Query, c: Cursor, id: Str)
    requires NameOnly(q) && Inside(q, Some(c)) && NoSlash(id) && id != CursorId(q, Some(c))
    ensures PlaceOf(q, c, id) == Flip(q.order[0].desc, CompareBytes(id, CursorId(q, Some(c))))
  {
    hide CompareToCursor, Segments, CompareBytes;
    CursorPlace(q, Base(q) + id, c);
    NameSegments(q, id);
    var t := Segments(c.values[0].name);
    SegmentsShared(Above(q), id, t);
    CompareZero(id, t[|Above(q)|]);
  }

  lemma {:induction false} SegmentsShared(s: seq<Str>, a: Str, t: seq<Str>)
    requires |s| < |t| && t[..|s|] == s
    ensures CompareBytes(a, t[|s|]) != 0 ==> CompareSegments(s + [a], t) == CompareBytes(a, t[|s|])
    decreases |s|
  {
    hide CompareBytes;
    if s == [] {
      assert s + [a] == [a];
    } else {
      assert (s + [a])[1..] == s[1..] + [a];
      assert t[0] == t[..|s|][0] == s[0];
      CompareZero(s[0], t[0]);
      assert t[1..][..|s[1..]|] == t[..|s|][1..];
      SegmentsShared(s[1..], a, t[1..]);
    }
  }

  lemma CursorIdBare(q: Query, c: Option<Cursor>)
    ensures NoSlash(CursorId(q, c))
  {
    if Inside(q, c) { SegmentsBare(c.value.values[0].name, |Above(q)|); }
  }

  // Past the cursor's id all ids have one place.
  lemma SamePlace(q: Query, c: Cursor, a: Str, b: Str)
    requires NameOnly(q) && NoSlash(a) && NoSlash(b)
    requires CompareBytes(CursorId(q, Some(c)), a) < 0 && CompareBytes(CursorId(q, Some(c)), b) < 0
    ensures PlaceOf(q, c, a) == PlaceOf(q, c, b)
  {
    hide CompareToCursor, Segments, CompareBytes, Inside, CursorId;
    if Inside(q, Some(c)) {
      var x := CursorId(q, Some(c));
      CompareZero(x, a);
      CompareZero(x, b);
      CompareSwap(x, a);
      CompareSwap(x, b);
      InsidePlace(q, c, a);
      InsidePlace(q, c, b);
    } else {
      OutsidePlace(q, c, a, b);
    }
  }

  // ------------------------------------------------------------------- the test

  predicate Drops(q: Query, id: Str)
    requires NameOnly(q)
  {
    q.start.Some? && !AfterStart(CompareToCursor(q.order, [Reference(Base(q) + id)], q.start.value), q.start.value)
  }

  predicate BeforeEndCursor(q: Query, id: Str)
    requires NameOnly(q)
  {
    q.end.Some? ==> BeforeEnd(CompareToCursor(q.order, [Reference(Base(q) + id)], q.end.value), q.end.value)
  }

  predicate KeepsBoth(q: Query, id: Str)
    requires NameOnly(q)
  {
    !Drops(q, id) && BeforeEndCursor(q, id)
  }

  // The cursor's id, when it is one and on the kept side, else the next one.
  function Lowest(q: Query, c: Option<Cursor>, kept: bool): (id: Str)
    ensures id != []
  {
    var x := CursorId(q, c);
    if x != [] && kept then x else x + [0]
  }

  // A query over one collection splits exactly when this holds. Ascending, the lowest
  // ids of all are dropped and enough of the lowest ids after the start are kept;
  // descending, an id after the start cursor's is dropped and the lowest one that the
  // end cursor allows is kept.
  predicate SplitTest(q: Query)
    requires NameOnly(q)
  {
    && Possible(q) && q.limit > 0
    && if q.order[0].desc then Drops(q, CursorId(q, q.start) + [0]) && KeepsBoth(q, LowestEnd(q))
       else exists s: int :: 1 <= s <= q.limit && SplitAt(q, s)
  }

  predicate SplitAt(q: Query, s: int)
    requires NameOnly(q) && 1 <= s <= q.limit
  {
    Drops(q, After([0], s - 1)) && KeepsBoth(q, After(LowestStart(q), q.limit - s))
  }

  function LowestStart(q: Query): (id: Str)
    requires NameOnly(q)
    ensures id != []
  {
    Lowest(q, q.start, !Drops(q, CursorId(q, q.start)))
  }

  function LowestEnd(q: Query): (id: Str)
    requires NameOnly(q)
    ensures id != []
  {
    Lowest(q, q.end, BeforeEndCursor(q, CursorId(q, q.end)))
  }

  lemma LowestBare(q: Query, c: Option<Cursor>, kept: bool)
    ensures IsDocId(Lowest(q, c, kept))
  {
    CursorIdBare(q, c);
  }

  // ----------------------------------------------------- along the scan direction

  lemma ScanOrder(q: Query, a: Str, b: Str)
    requires NoSlash(a) && NoSlash(b)
    ensures CompareBytes(Base(q) + a, Base(q) + b) == CompareBytes(a, b) == CompareResourceNames(Base(q) + a, Base(q) + b)
    ensures Agree(Base(q) + a, Base(q) + b)
  {
    SamePrefix(Base(q), a, b);
    SiblingsAgree(Base(q), a, b);
  }

  lemma DropsIs(q: Query, id: Str)
    requires NameOnly(q)
    ensures Drops(q, id) <==> !StartKeeps(q, Base(q) + id)
    ensures BeforeEndCursor(q, id) <==> EndKeeps(q, Base(q) + id)
  {}

  // Earlier in the scan than a dropped one is dropped, earlier than one before the end
  // is before it.
  lemma Earlier(q: Query, a: Str, b: Str)
    requires NameOnly(q) && NoSlash(a) && NoSlash(b) && Flip(q.order[0].desc, CompareBytes(a, b)) <= 0
    ensures Drops(q, b) ==> Drops(q, a)
    ensures BeforeEndCursor(q, b) ==> BeforeEndCursor(q, a)
  {
    hide Drops, BeforeEndCursor, StartKeeps, EndKeeps, CompareBytes, CompareResourceNames;
    DropsIs(q, a);
    DropsIs(q, b);
    ScanOrder(q, a, b);
    CompareZero(a, b);
    if a != b {
      if StartKeeps(q, Base(q) + a) { StartUp(q, Base(q) + a, Base(q) + b); }
      if EndKeeps(q, Base(q) + b) { EndDown(q, Base(q) + a, Base(q) + b); }
    }
  }

  // The other way round: of two ids one dropped and one kept, the dropped one is first.
  lemma DroppedIsFirst(q: Query, a: Str, b: Str)
    requires NameOnly(q) && NoSlash(a) && NoSlash(b) && Drops(q, a) && !Drops(q, b)
    ensures Flip(q.order[0].desc, CompareBytes(a, b)) < 0
  {
    hide Drops, CompareBytes;
    CompareSwap(a, b);
    if Flip(q.order[0].desc, CompareBytes(a, b)) >= 0 { Earlier(q, b, a); }
  }

  // ------------------------------------------------------- lowest ids are lowest

  // Ascending, no kept id is below the lowest one, and that one is kept when any is.
  lemma StartLowest(q: Query, id: Str)
    requires NameOnly(q) && !q.order[0].desc && IsDocId(id) && !Drops(q, id)
    ensures CompareBytes(LowestStart(q), id) <= 0 && !Drops(q, LowestStart(q))
  {
    hide CompareToCursor, CompareBytes, CursorId, Inside;
    var x, m := CursorId(q, q.start), LowestStart(q);
    CursorIdBare(q, q.start);
    NotBelowStart(q, id);
    LessNul(x);
    CompareZero(x, id);
    if x == [] { NulFirst(id); }
    if m == x + [0] {
      if x != id { Next(x, id); }
      if q.start.Some? { SamePlace(q, q.start.value, m, id); }
    }
  }

  lemma NotBelowStart(q: Query, id: Str)
    requires NameOnly(q) && !q.order[0].desc && IsDocId(id) && !Drops(q, id)
    ensures CompareBytes(CursorId(q, q.start), id) <= 0
    ensures CursorId(q, q.start) == id ==> !Drops(q, CursorId(q, q.start))
  {
    hide CompareToCursor, CompareBytes;
    var x := CursorId(q, q.start);
    CompareSwap(x, id);
    CompareZero(x, id);
    if Inside(q, q.start) && x != id { InsidePlace(q, q.start.value, id); }
    if !Inside(q, q.start) { FirstEmpty(id); }
  }

  lemma FirstEmpty(id: Str)
    ensures CompareBytes([], id) <= 0
  {}

  // Descending, the same for the end cursor.
  lemma EndLowest(q: Query, id: Str)
    requires NameOnly(q) && q.order[0].desc && IsDocId(id) && BeforeEndCursor(q, id)
    ensures CompareBytes(LowestEnd(q), id) <= 0 && BeforeEndCursor(q, LowestEnd(q))
  {
    hide CompareToCursor, CompareBytes, CursorId, Inside;
    var x, m := CursorId(q, q.end), LowestEnd(q);
    CursorIdBare(q, q.end);
    NotBelowEnd(q, id);
    LessNul(x);
    CompareZero(x, id);
    if x == [] { NulFirst(id); }
    if m == x + [0] {
      if x != id { Next(x, id); }
      if q.end.Some? { SamePlace(q, q.end.value, m, id); }
    }
  }

  lemma NotBelowEnd(q: Query, id: Str)
    requires NameOnly(q) && q.order[0].desc && IsDocId(id) && BeforeEndCursor(q, id)
    ensures CompareBytes(CursorId(q, q.end), id) <= 0
    ensures CursorId(q, q.end) == id ==> BeforeEndCursor(q, CursorId(q, q.end))
  {
    hide CompareToCursor, CompareBytes;
    var x := CursorId(q, q.end);
    CompareSwap(x, id);
    CompareZero(x, id);
    if Inside(q, q.end) && x != id { InsidePlace(q, q.end.value, id); }
    if !Inside(q, q.end) { FirstEmpty(id); }
  }

  // ------------------------------------------------------------ a split passes it

  // The ids of a split.
  lemma SplitIds(q: Query, names: seq<Str>) returns (ids: seq<Str>)
    requires NameOnly(q) && !q.allDescendants && IsSplit(q, names)
    ensures |ids| == q.limit + 1 == |names| && Possible(q) && q.limit > 0
    ensures forall i :: 0 <= i < |ids| ==> IsDocId(ids[i]) && names[i] == Base(q) + ids[i]
    ensures forall i, j :: 0 <= i < j < |ids| ==> Flip(q.order[0].desc, CompareBytes(ids[i], ids[j])) < 0
    ensures Drops(q, ids[0]) && KeepsBoth(q, ids[q.limit])
  {
    hide Nameable, InScan, StartKeeps, EndKeeps, Drops, BeforeEndCursor, CompareBytes, Possible;
    assert Nameable(q, names[0]);
    ids := IdsOf(q, names);
    forall i, j | 0 <= i < j < |ids| ensures Flip(q.order[0].desc, CompareBytes(ids[i], ids[j])) < 0 {
      assert InScan(q.order[0].desc, names[i], names[j]);
      InScanBytes(q, names[i], names[j]);
      ScanOrder(q, ids[i], ids[j]);
    }
    var zero := NameableId(q, names[0]);
    DropsIs(q, ids[0]);
    DropsIs(q, ids[q.limit]);
  }

  lemma InScanBytes(q: Query, a: Str, b: Str)
    requires NameOnly(q) && InScan(q.order[0].desc, a, b)
    ensures Flip(q.order[0].desc, CompareBytes(a, b)) < 0
  {}

  lemma {:induction false} IdsOf(q: Query, names: seq<Str>) returns (ids: seq<Str>)
    requires !q.allDescendants && forall i :: 0 <= i < |names| ==> Nameable(q, names[i])
    ensures |ids| == |names| && forall i :: 0 <= i < |ids| ==> IsDocId(ids[i]) && names[i] == Base(q) + ids[i]
    decreases |names|
  {
    hide Nameable, Possible, IsDocId, Base;
    if names == [] {
      ids := [];
    } else {
      var id := NameableId(q, names[0]);
      var rest := IdsOf(q, names[1..]);
      ids := [id] + rest;
    }
  }

  lemma SplitPasses(q: Query, names: seq<Str>)
    requires NameOnly(q) && !q.allDescendants && IsSplit(q, names)
    ensures SplitTest(q)
  {
    hide Drops, KeepsBoth, CompareBytes, Possible, IsSplit;
    var ids := SplitIds(q, names);
    if q.order[0].desc { Downward(q, ids); } else { var s := Upward(q, ids); }
  }

  lemma Downward(q: Query, ids: seq<Str>)
    requires NameOnly(q) && q.order[0].desc && q.limit > 0 && |ids| == q.limit + 1
    requires forall i :: 0 <= i < |ids| ==> IsDocId(ids[i])
    requires Drops(q, ids[0]) && KeepsBoth(q, ids[q.limit])
    ensures Drops(q, CursorId(q, q.start) + [0]) && KeepsBoth(q, LowestEnd(q))
  {
    hide Drops, BeforeEndCursor, CompareBytes, CursorId;
    EndLowest(q, ids[q.limit]);
    LowestBare(q, q.end, BeforeEndCursor(q, CursorId(q, q.end)));
    CompareSwap(LowestEnd(q), ids[q.limit]);
    if Drops(q, LowestEnd(q)) { Earlier(q, ids[q.limit], LowestEnd(q)); }
    AboveDropped(q, ids[0]);
  }

  // Descending, where any id is dropped the first one above the cursor's is.
  lemma AboveDropped(q: Query, id: Str)
    requires NameOnly(q) && q.order[0].desc && IsDocId(id) && Drops(q, id)
    ensures Drops(q, CursorId(q, q.start) + [0])
  {
    hide CompareToCursor, CompareBytes, Inside, CursorId;
    var x := CursorId(q, q.start);
    CursorIdBare(q, q.start);
    LessNul(x);
    CompareZero(x + [0], x);
    CompareSwap(x, x + [0]);
    if Inside(q, q.start) { InsidePlace(q, q.start.value, x + [0]); } else { OutsidePlace(q, q.start.value, x + [0], id); }
  }

  lemma Upward(q: Query, ids: seq<Str>) returns (s: int)
    requires NameOnly(q) && !q.order[0].desc && q.limit > 0 && |ids| == q.limit + 1 && Ascending(ids)
    requires forall i :: 0 <= i < |ids| ==> IsDocId(ids[i])
    requires Drops(q, ids[0]) && KeepsBoth(q, ids[q.limit])
    ensures 1 <= s <= q.limit && SplitAt(q, s)
  {
    hide Drops, KeepsBoth, CompareBytes, LowestStart;
    s := 1;
    while s < q.limit && Drops(q, ids[s])
      invariant 1 <= s <= q.limit && Drops(q, ids[s - 1])
    {
      s := s + 1;
    }
    KeepsIs(q, ids[q.limit]);
    LowestDropped(q, ids, s - 1);
    var rest := ids[s..];
    assert rest[0] == ids[s] && rest[|rest| - 1] == ids[q.limit];
    LowestKept(q, rest);
  }

  // As many of the lowest ids are dropped,
  lemma LowestDropped(q: Query, ids: seq<Str>, n: nat)
    requires NameOnly(q) && !q.order[0].desc && n < |ids| && Ascending(ids) && (forall i :: 0 <= i < |ids| ==> IsDocId(ids[i]))
    requires Drops(q, ids[n])
    ensures Drops(q, After([0], n))
  {
    hide Drops, CompareBytes, Ascending;
    NulFirst(ids[0]);
    Keeps([0], ids, n);
    AfterBare([0], n);
    Earlier(q, After([0], n), ids[n]);
  }

  // ... and as many of the lowest kept ones kept.
  lemma LowestKept(q: Query, ids: seq<Str>)
    requires NameOnly(q) && !q.order[0].desc && ids != [] && Ascending(ids) && (forall i :: 0 <= i < |ids| ==> IsDocId(ids[i]))
    requires !Drops(q, ids[0]) && KeepsBoth(q, ids[|ids| - 1])
    ensures KeepsBoth(q, After(LowestStart(q), |ids| - 1))
  {
    hide Drops, BeforeEndCursor, CompareBytes, LowestStart, Ascending, CursorId;
    var m, n := LowestStart(q), |ids| - 1;
    StartLowest(q, ids[0]);
    Keeps(m, ids, n);
    LowestIs(q);
    LowestBare(q, q.start, !Drops(q, CursorId(q, q.start)));
    AfterBare(m, n);
    Earlier(q, After(m, n), ids[n]);
    AfterGrows(m, 0, n);
    if Drops(q, After(m, n)) { Earlier(q, m, After(m, n)); }
  }

  lemma LowestIs(q: Query)
    requires NameOnly(q)
    ensures LowestStart(q) == Lowest(q, q.start, !Drops(q, CursorId(q, q.start)))
  {}

  // ----------------------------------------------------- what passes it splits

  lemma TestSplits(q: Query)
    requires NameOnly(q) && !q.allDescendants && SplitTest(q)
    ensures Splits(q)
  {
    hide Drops, KeepsBoth, CompareBytes, Possible, IsSplit, CursorId, LowestStart, LowestEnd, SplitAt;
    if q.order[0].desc {
      DownSplits(q);
    } else {
      var s: int :| 1 <= s <= q.limit && SplitAt(q, s);
      UpSplits(q, s);
    }
  }

  // Ids in scan order with the ends as they should be.
  lemma IdsSplit(q: Query, ids: seq<Str>)
    requires NameOnly(q) && !q.allDescendants && Possible(q) && q.limit > 0 && |ids| == q.limit + 1
    requires forall i :: 0 <= i < |ids| ==> IsDocId(ids[i])
    requires forall i, j :: 0 <= i < j < |ids| ==> Flip(q.order[0].desc, CompareBytes(ids[i], ids[j])) < 0
    requires Drops(q, ids[0]) && KeepsBoth(q, ids[q.limit])
    ensures Splits(q)
  {
    hide Nameable, StartKeeps, EndKeeps, Drops, BeforeEndCursor, CompareBytes, Possible, Base;
    var names := seq(|ids|, i requires 0 <= i < |ids| => Base(q) + ids[i]);
    forall i | 0 <= i < |ids| ensures Nameable(q, names[i]) { NameableExact(q, ids[i]); }
    forall i, j | 0 <= i < j < |ids| ensures InScan(q.order[0].desc, names[i], names[j]) { ScanOrder(q, ids[i], ids[j]); }
    DropsIs(q, ids[0]);
    DropsIs(q, ids[q.limit]);
    assert IsSplit(q, names);
  }

  lemma UpSplits(q: Query, s: int)
    requires NameOnly(q) && !q.allDescendants && !q.order[0].desc && Possible(q) && 1 <= s <= q.limit && SplitAt(q, s)
    ensures Splits(q)
  {
    hide Drops, BeforeEndCursor, CompareBytes, Possible, LowestStart;
    var m := LowestStart(q);
    LowestIs(q);
    LowestBare(q, q.start, !Drops(q, CursorId(q, q.start)));
    AfterBare([0], s - 1);
    AfterBare(m, q.limit - s);
    StartLowest(q, After(m, q.limit - s));
    DroppedIsFirst(q, After([0], s - 1), m);
    var ids := Rising(m, s, q.limit);
    AfterGrows([0], 0, s - 1);
    Earlier(q, [0], After([0], s - 1));
    IdsSplit(q, ids);
  }

  // The s lowest ids, and then the lowest from m on.
  lemma Rising(m: Str, s: nat, n: nat) returns (ids: seq<Str>)
    requires 1 <= s <= n && IsDocId(m) && CompareBytes(After([0], s - 1), m) < 0
    ensures |ids| == n + 1 && ids[0] == [0] && ids[n] == After(m, n - s)
    ensures (forall i :: 0 <= i < |ids| ==> IsDocId(ids[i])) && Ascending(ids)
  {
    hide CompareBytes;
    ids := seq(n + 1, i requires 0 <= i <= n => if i < s then After([0], i) else After(m, i - s));
    forall i | 0 <= i < |ids| ensures IsDocId(ids[i]) {
      if i < s { AfterBare([0], i); } else { AfterBare(m, i - s); }
    }
    forall i, j | 0 <= i < j < |ids| ensures CompareBytes(ids[i], ids[j]) < 0 { Rises(m, s, i, j); }
  }

  lemma Rises(m: Str, s: nat, i: nat, j: nat)
    requires s >= 1 && i < j && CompareBytes(After([0], s - 1), m) < 0
    ensures CompareBytes(if i < s then After([0], i) else After(m, i - s), if j < s then After([0], j) else After(m, j - s)) < 0
  {
    hide CompareBytes;
    if j < s {
      AfterGrows([0], i, j);
    } else if i >= s {
      AfterGrows(m, i - s, j - s);
    } else {
      AfterGrows([0], i, s - 1);
      AfterGrows(m, 0, j - s);
      CompareTrans(After([0], i), After([0], s - 1), m);
      CompareTrans(After([0], i), m, After(m, j - s));
    }
  }

  lemma DownSplits(q: Query)
    requires NameOnly(q) && !q.allDescendants && q.order[0].desc && Possible(q) && q.limit > 0
    requires Drops(q, CursorId(q, q.start) + [0]) && KeepsBoth(q, LowestEnd(q))
    ensures Splits(q)
  {
    hide Drops, KeepsBoth, CompareBytes, Possible, CursorId, LowestEnd;
    KeepsIs(q, LowestEnd(q));
    var a, m, n := CursorId(q, q.start) + [0], LowestEnd(q), q.limit;
    CursorIdBare(q, q.start);
    EndBare(q);
    DroppedIsFirst(q, a, m);
    CompareSwap(a, m);
    var ids := Falling(a, m, n);
    AfterBare(a, n - 1);
    AfterGrows(a, 0, n - 1);
    CompareSwap(a, After(a, n - 1));
    Earlier(q, After(a, n - 1), a);
    IdsSplit(q, ids);
  }

  // n ids from a on, the greatest first, and then m below them.
  lemma Falling(a: Str, m: Str, n: nat) returns (ids: seq<Str>)
    requires n > 0 && IsDocId(a) && IsDocId(m) && CompareBytes(m, a) < 0
    ensures |ids| == n + 1 && ids[0] == After(a, n - 1) && ids[n] == m
    ensures forall i :: 0 <= i < |ids| ==> IsDocId(ids[i])
    ensures forall i, j :: 0 <= i < j < |ids| ==> CompareBytes(ids[i], ids[j]) > 0
  {
    hide CompareBytes;
    ids := seq(n + 1, i requires 0 <= i <= n => if i < n then After(a, n - 1 - i) else m);
    forall i | 0 <= i < |ids| ensures IsDocId(ids[i]) {
      if i < n { AfterBare(a, n - 1 - i); }
    }
    forall i, j | 0 <= i < j < |ids| ensures CompareBytes(ids[i], ids[j]) > 0 { Falls(a, m, n, i, j); }
  }

  lemma KeepsIs(q: Query, id: Str)
    requires NameOnly(q) && KeepsBoth(q, id)
    ensures !Drops(q, id)
  {}

  lemma EndBare(q: Query)
    requires NameOnly(q)
    ensures IsDocId(LowestEnd(q))
  {
    LowestBare(q, q.end, BeforeEndCursor(q, CursorId(q, q.end)));
  }

  lemma Falls(a: Str, m: Str, n: nat, i: nat, j: nat)
    requires i < j <= n && CompareBytes(m, a) < 0
    ensures CompareBytes(After(a, n - 1 - i), if j < n then After(a, n - 1 - j) else m) > 0
  {
    hide CompareBytes;
    if j < n {
      AfterGrows(a, n - 1 - j, n - 1 - i);
      CompareSwap(After(a, n - 1 - i), After(a, n - 1 - j));
    } else {
      AfterGrows(a, 0, n - 1 - i);
      CompareTrans(m, a, After(a, n - 1 - i));
      CompareSwap(After(a, n - 1 - i), m);
    }
  }

  // ---------------------------------------------------------------- theorem

  // Over one collection the condition on a pushed limit is this test.
  lemma SplitsExact(q: Query)
    requires NameOnly(q) && !q.allDescendants
    ensures Splits(q) <==> SplitTest(q)
  {
    hide IsSplit, SplitTest;
    if Splits(q) {
      var names :| IsSplit(q, names);
      SplitPasses(q, names);
    }
    if SplitTest(q) { TestSplits(q); }
  }
}
