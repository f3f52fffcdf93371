// The name-ordered fast path (runNameOrdered in internal/store/query.go): order,
// cursors and limit pushed down to SQL, where names compare as bytes.
module NamePath {
  import opened Bytes
  import opened Values
  import opened DocNames
  import opened Orders
  import opened SortKeys
  import opened FieldPaths
  import opened Queries
  import opened Indexes
  import opened Spans
  import opened Layouts
  import opened Merge
  import opened General

  // ------------------------------------------------- byte order and name order

  // At their first difference, one name ends a segment and the other goes on with
  // a byte below '/'.
  predicate SlashInverted(a: Str, b: Str)
    decreases a
  {
    if a == [] || b == [] then false
    else if a[0] == b[0] then SlashInverted(a[1..], b[1..])
    else (a[0] == SLASH && b[0] < SLASH) || (b[0] == SLASH && a[0] < SLASH)
  }

  predicate Agree(a: Str, b: Str) { CompareBytes(a, b) == CompareResourceNames(a, b) }

  // Bytes order two names as their segments do exactly when no such inversion
  // decides between them.
  lemma {:induction false} AgreeExact(a: Str, b: Str)
    ensures Agree(a, b) <==> !SlashInverted(a, b)
    ensures SlashInverted(a, b) ==> CompareBytes(a, b) == -CompareResourceNames(a, b) != 0
    decreases a
  {
    if a == [] || b == [] {
      EmptyFirst(a, b);
    } else if a[0] == b[0] {
      AgreeExact(a[1..], b[1..]);
      SameHead(a, b);
    } else {
      OtherHead(a, b);
    }
  }

  lemma EmptyFirst(a: Str, b: Str)
    requires a == [] || b == []
    ensures CompareResourceNames(a, b) == CmpInt(|a|, |b|)
  {
    NamesEqual(a, b);
    if b != [] {
      EmptyNameFirst(b);
    } else if a != [] {
      EmptyNameFirst(a);
      SegmentsSwap(Segments([]), Segments(a));
    }
  }

  // The first segment and what follows it.
  lemma SplitFirst(s: Str)
    requires s != []
    ensures s[0] == SLASH ==> Segments(s) == [[]] + Segments(s[1..])
    ensures s[0] != SLASH ==> var t := Segments(s[1..]); Segments(s) == [[s[0]] + t[0]] + t[1..]
  {
    var i := FirstSlash(s);
    if s[0] == SLASH {
      assert s[..0] == [];
    } else {
      var t := s[1..];
      assert FirstSlash(t) == i - 1;
      if i == |s| {
        assert s == [s[0]] + t;
      } else {
        assert s[..i] == [s[0]] + t[..i - 1] && s[i + 1..] == t[i..];
      }
    }
  }

  lemma SameHead(a: Str, b: Str)
    requires a != [] && b != [] && a[0] == b[0]
    ensures CompareResourceNames(a, b) == CompareResourceNames(a[1..], b[1..])
  {
    hide Segments;
    SplitFirst(a);
    SplitFirst(b);
    var s, t := Segments(a), Segments(b);
    var x, y := Segments(a[1..]), Segments(b[1..]);
    if a[0] == SLASH {
      assert s[0] == [] == t[0] && s[1..] == x && t[1..] == y;
    } else {
      assert s[0][1..] == x[0] && t[0][1..] == y[0] && s[1..] == x[1..] && t[1..] == y[1..];
    }
  }

  lemma OtherHead(a: Str, b: Str)
    requires a != [] && b != [] && a[0] != b[0]
    ensures CompareResourceNames(a, b) ==
      if a[0] == SLASH then -1 else if b[0] == SLASH then 1 else CmpInt(a[0], b[0])
  {
    hide Segments;
    SplitFirst(a);
    SplitFirst(b);
  }

  lemma AgreeSwap(a: Str, b: Str)
    requires Agree(a, b)
    ensures Agree(b, a)
  {
    CompareSwap(a, b);
    SegmentsSwap(Segments(a), Segments(b));
  }

  // Names in one collection never invert.
  lemma {:induction false} SiblingsAgree(p: Str, x: Str, y: Str)
    requires NoSlash(x) && NoSlash(y)
    ensures !SlashInverted(p + x, p + y) && Agree(p + x, p + y)
    decreases |p| + |x|
  {
    if p != [] {
      SiblingsAgree(p[1..], x, y);
      assert (p + x)[1..] == p[1..] + x && (p + y)[1..] == p[1..] + y;
      assert (p + x)[0] == p[0] == (p + y)[0];
    } else if x != [] && y != [] {
      SiblingsAgree([], x[1..], y[1..]);
      assert p + x == x && p + y == y && [] + x[1..] == x[1..] && [] + y[1..] == y[1..];
    } else {
      assert p + x == x && p + y == y;
    }
    AgreeExact(p + x, p + y);
  }

  // --------------------------------------------------------------- the table

  // Rows carry the parts of their parsed name.
  ghost predicate SoundNames(table: Table) {
    forall n :: n in table ==> ParseName(n) == Some(DocPath(table[n].parentPath, table[n].collectionId, LastSegment(n)))
  }

  predicate IsChild(q: Query, name: Str) {
    var p := q.parent + [SLASH] + q.collectionId + [SLASH];
    p <= name && NoSlash(name[|p|..])
  }

  lemma ChildrenAgree(q: Query, a: Str, b: Str)
    requires IsChild(q, a) && IsChild(q, b)
    ensures Agree(a, b)
  {
    var p := q.parent + [SLASH] + q.collectionId + [SLASH];
    assert a == p + a[|p|..] && b == p + b[|p|..];
    SiblingsAgree(p, a[|p|..], b[|p|..]);
  }

  lemma BaseIsChildren(q: Query, table: Table, n: Str)
    requires SoundNames(table) && n in table && !q.allDescendants && InBase(q, table[n])
    ensures IsChild(q, n)
  {
    hide Segments;
    NameParts(n);
    var p := q.parent + [SLASH] + q.collectionId + [SLASH];
    assert n[|p|..] == ParseName(n).value.docId;
  }

  // ------------------------------------------------------------- the SQL query

  predicate NameOnly(q: Query) { |q.order| == 1 && q.order[0].isName }

  datatype NameBounds = NameBounds(start: Str, end: Str, startIncl: bool, endIncl: bool)

  predicate OneReference(c: Option<Cursor>) {
    c.Some? ==> |c.value.values| == 1 && c.value.values[0].Reference?
  }

  function CursorName(c: Option<Cursor>): Str
    requires OneReference(c)
  {
    if c.None? then [] else c.value.values[0].name
  }

  function NameCursorBounds(q: Query): Option<NameBounds> {
    if !OneReference(q.start) || !OneReference(q.end) then None
    else Some(NameBounds(CursorName(q.start), CursorName(q.end),
                     q.start.None? || q.start.value.before, q.end.Some? && !q.end.value.before))
  }

  // `name > start`, or the other operators, in the direction of the scan.
  predicate Past(desc: bool, incl: bool, c: int) { Flip(desc, c) > 0 || (incl && c == 0) }

  predicate SqlCursors(q: Query, name: Str)
    requires NameOnly(q)
  {
    var b, desc := NameCursorBounds(q), q.order[0].desc;
    b.Some? ==>
      && (b.value.start != [] ==> Past(desc, b.value.startIncl, CompareBytes(name, b.value.start)))
      && (b.value.end != [] ==> Past(!desc, b.value.endIncl, CompareBytes(name, b.value.end)))
  }

  predicate LimitPushed(q: Query) { q.where_.None? && q.offset == 0 && q.limit >= 0 }

  predicate Before(desc: bool, a: Doc, b: Doc) { Flip(desc, CompareBytes(a.name, b.name)) < 0 }

  ghost predicate InByteOrder(desc: bool, rows: seq<Doc>) {
    forall i, j :: 0 <= i < j < |rows| ==> Before(desc, rows[i], rows[j])
  }

  // The rows in name order. Narrowing may leave out rows that do not pass.
  ghost predicate IsNameScan(q: Query, table: Table, scan: seq<Doc>)
    requires NameOnly(q)
  {
    && InByteOrder(q.order[0].desc, scan)
    && (forall d :: d in scan ==> d.name in table && table[d.name] == d && InBase(q, d) && SqlCursors(q, d.name))
    && (forall d :: d in Selection(q, table) && SqlCursors(q, d.name) ==> d in scan)
  }

  function SqlLimit(q: Query, scan: seq<Doc>): seq<Doc> {
    if LimitPushed(q) then Take(scan, q.limit) else scan
  }

  // ------------------------------------------------------- what the loop computes

  function Passing(q: Query, rows: seq<Doc>): seq<Doc> {
    if rows == [] then []
    else
      var n := |rows| - 1;
      if Passes(q, rows[n]) then Passing(q, rows[..n]) + [rows[n]] else Passing(q, rows[..n])
  }

  lemma {:induction false} FilterHas(q: Query, rows: seq<Doc>)
    ensures forall d :: d in Passing(q, rows) <==> d in rows && Passes(q, d)
    decreases |rows|
  {
    hide Passes;
    if rows != [] {
      var n := |rows| - 1;
      FilterHas(q, rows[..n]);
      assert rows == rows[..n] + [rows[n]];
    }
  }

  lemma {:induction false} FilterMonotone(q: Query, rows: seq<Doc>, i: nat)
    requires i <= |rows|
    ensures Passing(q, rows[..i]) <= Passing(q, rows)
    decreases |rows| - i
  {
    hide Passes;
    if i < |rows| {
      FilterMonotone(q, rows, i + 1);
      assert rows[..i + 1][..i] == rows[..i];
    } else {
      assert rows[..i] == rows;
    }
  }

  lemma {:induction false} FilterOrdered(q: Query, rows: seq<Doc>)
    requires InQueryOrder(q, rows)
    ensures InQueryOrder(q, Passing(q, rows))
    decreases |rows|
  {
    hide Passes, CompareDocs;
    if rows != [] {
      var n := |rows| - 1;
      FilterOrdered(q, rows[..n]);
      FilterHas(q, rows[..n]);
      var f := Passing(q, rows[..n]);
      forall i | 0 <= i < |f| ensures CompareDocs(q, f[i], rows[n]) < 0 {
        assert f[i] in f;
        var k :| 0 <= k < n && rows[..n][k] == f[i];
        assert rows[k] == f[i];
      }
    }
  }

  lemma {:induction false} FilterAll(q: Query, rows: seq<Doc>)
    requires forall i :: 0 <= i < |rows| ==> Passes(q, rows[i])
    ensures Passing(q, rows) == rows
    decreases |rows|
  {
    hide Passes;
    if rows != [] {
      FilterAll(q, rows[..|rows| - 1]);
    }
  }

  lemma FullPage<T>(a: seq<T>, b: seq<T>, offset: nat, limit: nat)
    requires a <= b && |Page(a, offset, limit)| >= limit && offset <= |a|
    ensures Page(b, offset, limit) == Page(a, offset, limit)
  {
    assert a == b[..|a|];
  }

  // One more element: skipped, emitted, or past the limit.
  lemma PageSnoc<T>(a: seq<T>, x: T, offset: nat, limit: int)
    ensures Page(a + [x], offset, limit) ==
      if |a| < offset || 0 <= limit <= |Page(a, offset, limit)| then Page(a, offset, limit)
      else Page(a, offset, limit) + [x]
  {}

  lemma FilterStep(q: Query, rows: seq<Doc>, i: nat)
    requires i < |rows|
    ensures Passing(q, rows[..i + 1]) ==
      if Passes(q, rows[i]) then Passing(q, rows[..i]) + [rows[i]] else Passing(q, rows[..i])
  {
    hide Passes;
    assert rows[..i + 1][..i] == rows[..i];
  }

  // The loop over rows: skip what does not pass, then the offset, then emit up to
  // the limit.
  method FilterPage(q: Query, rows: seq<Doc>) returns (out: seq<Doc>)
    requires q.offset >= 0
    ensures out == Page(Passing(q, rows), q.offset, q.limit)
  {
    hide Passes, Page, Passing;
    out := [];
    var skipped, emitted := 0, 0;
    NoRows(q);
    assert rows[..0] == [];
    for i := 0 to |rows|
      invariant out == Page(Passing(q, rows[..i]), q.offset, q.limit) && emitted == |out|
      invariant skipped == Min(q.offset, |Passing(q, rows[..i])|)
    {
      var doc := rows[i];
      ghost var before := Passing(q, rows[..i]);
      FilterStep(q, rows, i);
      if !Passes(q, doc) { continue; }
      PageSnoc(before, doc, q.offset, q.limit);
      if skipped < q.offset {
        skipped := skipped + 1;
        continue;
      }
      if q.limit >= 0 && emitted >= q.limit {
        FilterMonotone(q, rows, i);
        FullPage(before, Passing(q, rows), q.offset, q.limit);
        return;
      }
      out := out + [doc];
      emitted := emitted + 1;
    }
    assert rows[..|rows|] == rows;
  }

  lemma NoRows(q: Query)
    requires q.offset >= 0
    ensures Passing(q, []) == [] && Page(Passing(q, []), q.offset, q.limit) == []
  {}

  // --------------------------------------------------- agreement with runGeneral

  // Bytes order the names of the base, and these against pushed cursors, as segments do.
  ghost predicate NamesServe(q: Query, table: Table) {
    && SoundNames(table)
    && (forall a, b :: a in table && b in table && InBase(q, table[a]) && InBase(q, table[b]) ==> Agree(a, b))
    && (NameCursorBounds(q).Some? ==>
          forall n :: n in table && InBase(q, table[n]) ==> CursorAgrees(q.start, n) && CursorAgrees(q.end, n))
  }

  // ... and a pushed limit does not cut before a start cursor that was not pushed.
  ghost predicate LimitServed(q: Query)
    requires NameOnly(q)
  {
    LimitPushed(q) ==> NameCursorBounds(q).Some? || !Splits(q)
  }

  // What the fast path needs.
  ghost predicate NameServable(q: Query, table: Table)
    requires NameOnly(q)
  {
    NamesServe(q, table) && LimitServed(q)
  }

  lemma ServedNames(q: Query, table: Table, n: Str)
    requires SoundNames(table) && n in table
    ensures n != []
  {
    NameParts(n);
  }

  predicate CursorAgrees(c: Option<Cursor>, n: Str) {
    c.Some? && OneReference(c) ==> Agree(n, CursorName(c))
  }

  predicate ChildCursor(q: Query, c: Option<Cursor>) {
    c.Some? ==> OneReference(c) && IsChild(q, CursorName(c))
  }

  // One collection of one parent, with cursors that are absent or name its
  // children, always qualifies.
  lemma SingleParentServable(q: Query, table: Table)
    requires NameOnly(q) && SoundNames(table) && !q.allDescendants && ChildCursor(q, q.start) && ChildCursor(q, q.end)
    ensures NameServable(q, table)
  {
    hide IsChild, ParseName, Agree;
    forall a, b | a in table && b in table && InBase(q, table[a]) && InBase(q, table[b]) ensures Agree(a, b) {
      BaseIsChildren(q, table, a);
      BaseIsChildren(q, table, b);
      ChildrenAgree(q, a, b);
    }
    forall n | n in table && InBase(q, table[n]) ensures CursorAgrees(q.start, n) && CursorAgrees(q.end, n) {
      BaseIsChildren(q, table, n);
      if q.start.Some? { ChildrenAgree(q, n, CursorName(q.start)); }
      if q.end.Some? { ChildrenAgree(q, n, CursorName(q.end)); }
    }
  }

  // With a name order, comparing documents is comparing names.
  lemma NameCompare(q: Query, a: Doc, b: Doc)
    requires NameOnly(q)
    ensures CompareDocs(q, a, b) == Flip(q.order[0].desc, CompareResourceNames(a.name, b.name))
  {
    var ka, kb := KeyOf(q, a), KeyOf(q, b);
    assert CompareTerms(q.order, ka, kb, 0) == 0;
  }

  lemma NamePlace(q: Query, d: Doc, cur: Cursor)
    requires NameOnly(q) && OneReference(Some(cur))
    ensures CompareToCursor(q.order, KeyOf(q, d), cur) ==
      Flip(q.order[0].desc, CompareResourceNames(d.name, cur.values[0].name))
  {
    assert CompareTerms(q.order, KeyOf(q, d), cur.values, 0) == 0;
  }

  // The pushed start cursor is the query's,
  lemma StartPushed(q: Query, d: Doc)
    requires NameOnly(q) && q.start.Some? && OneReference(q.start) && CursorAgrees(q.start, d.name) && d.name != []
    ensures var c := CursorName(q.start);
      AfterStart(CompareToCursor(q.order, KeyOf(q, d), q.start.value), q.start.value)
      <==> (if c == [] then Flip(q.order[0].desc, 1) > 0 else Past(q.order[0].desc, q.start.value.before, CompareBytes(d.name, c)))
  {
    hide CompareToCursor, CompareResourceNames;
    NamePlace(q, d, q.start.value);
    if CursorName(q.start) == [] { EmptyFirst(d.name, []); }
  }

  lemma EndPushed(q: Query, d: Doc)
    requires NameOnly(q) && q.end.Some? && OneReference(q.end) && CursorAgrees(q.end, d.name) && d.name != []
    ensures var c := CursorName(q.end);
      BeforeEnd(CompareToCursor(q.order, KeyOf(q, d), q.end.value), q.end.value)
      <==> (if c == [] then Flip(q.order[0].desc, 1) < 0 else Past(!q.order[0].desc, !q.end.value.before, CompareBytes(d.name, c)))
  {
    hide CompareToCursor, CompareResourceNames;
    NamePlace(q, d, q.end.value);
    if CursorName(q.end) == [] { EmptyFirst(d.name, []); }
  }

  // A pushed scan passes whole or not at all: the latter under a cursor at the
  // empty name, which SQL leaves to the loop.
  lemma PushedUniform(q: Query, table: Table, scan: seq<Doc>)
    requires NameOnly(q) && NamesServe(q, table) && NameCursorBounds(q).Some? && IsNameScan(q, table, scan) && LimitPushed(q)
    ensures (forall i :: 0 <= i < |scan| ==> Passes(q, scan[i])) || (forall i :: 0 <= i < |scan| ==> !Passes(q, scan[i]))
  {
    hide CompareToCursor, CompareResourceNames, CompareBytes, KeyOf;
    forall i | 0 <= i < |scan| ensures Passes(q, scan[i]) <==> !EmptyCursor(q) {
      assert scan[i] in scan;
      PushedPasses(q, table, scan[i]);
    }
  }

  // A cursor at the empty name that lets no document through.
  predicate EmptyCursor(q: Query)
    requires NameOnly(q) && NameCursorBounds(q).Some?
  {
    || (q.start.Some? && CursorName(q.start) == [] && q.order[0].desc)
    || (q.end.Some? && CursorName(q.end) == [] && !q.order[0].desc)
  }

  lemma PushedPasses(q: Query, table: Table, d: Doc)
    requires NameOnly(q) && NamesServe(q, table) && NameCursorBounds(q).Some? && LimitPushed(q)
    requires d.name in table && table[d.name] == d && InBase(q, d) && SqlCursors(q, d.name)
    ensures Passes(q, d) <==> !EmptyCursor(q)
  {
    hide CompareToCursor, CompareResourceNames, CompareBytes, KeyOf, Agree, InBase, SoundNames;
    ServedNames(q, table, d.name);
    if q.start.Some? { StartPushed(q, d); }
    if q.end.Some? { EndPushed(q, d); }
  }

  // SQL cursors exclude no selected document.
  lemma CursorsKeep(q: Query, table: Table, d: Doc)
    requires NameOnly(q) && NamesServe(q, table) && SoundTable(table) && d in Selection(q, table)
    ensures SqlCursors(q, d.name)
  {
    hide CompareToCursor, CompareResourceNames, CompareBytes, KeyOf, Agree, InBase, Matches, SoundNames;
    ServedNames(q, table, d.name);
    if NameCursorBounds(q).Some? {
      if q.start.Some? { StartPushed(q, d); }
      if q.end.Some? { EndPushed(q, d); }
    }
  }

  // The passing rows of the scan, in scan order, are the answer.
  lemma ScanAnswers(q: Query, table: Table, scan: seq<Doc>)
    requires NameOnly(q) && NamesServe(q, table) && SoundTable(table) && IsNameScan(q, table, scan)
    ensures Passing(q, scan) == Answer(q, Selection(q, table))
  {
    hide Passes, InBase, CompareDocs, Agree, SqlCursors, Answer, SoundFields;
    forall i, j | 0 <= i < j < |scan| ensures CompareDocs(q, scan[i], scan[j]) < 0 {
      assert scan[i] in scan && scan[j] in scan;
      InScanOrder(q, table, scan[i], scan[j]);
    }
    FilterOrdered(q, scan);
    FilterHas(q, scan);
    SelectionSound(q, table);
    var docs := Selection(q, table);
    forall d ensures d in Passing(q, scan) <==> d in docs {
      if d in docs { CursorsKeep(q, table, d); }
    }
    assert q.order[0].isName;
    AnswerIs(q, docs);
    AnswerUnique(q, Passing(q, scan), Answer(q, docs), docs);
  }

  lemma InScanOrder(q: Query, table: Table, a: Doc, b: Doc)
    requires NameOnly(q) && NamesServe(q, table) && SoundTable(table)
    requires a.name in table && table[a.name] == a && InBase(q, a) && b.name in table && table[b.name] == b && InBase(q, b)
    requires Before(q.order[0].desc, a, b)
    ensures CompareDocs(q, a, b) < 0
  {
    hide InBase, CompareDocs, CompareResourceNames, CompareBytes;
    NameCompare(q, a, b);
    assert Agree(a.name, b.name);
  }

  lemma {:induction false} FilterSplit(q: Query, a: seq<Doc>, b: seq<Doc>)
    ensures Passing(q, a + b) == Passing(q, a) + Passing(q, b) && |Passing(q, b)| <= |b|
    decreases |b|
  {
    hide Passes;
    if b == [] {
      assert a + b == a && Passing(q, a) + [] == Passing(q, a);
    } else {
      var n := |b| - 1;
      FilterSplit(q, a, b[..n]);
      assert (a + b)[..|a + b| - 1] == a + b[..n];
    }
  }

  predicate AllPass(q: Query, rows: seq<Doc>) { forall i :: 0 <= i < |rows| ==> Passes(q, rows[i]) }

  predicate NonePass(q: Query, rows: seq<Doc>) { forall i :: 0 <= i < |rows| ==> !Passes(q, rows[i]) }

  lemma {:induction false} FilterSize(q: Query, rows: seq<Doc>)
    ensures |Passing(q, rows)| <= |rows|
    ensures |Passing(q, rows)| == |rows| <==> AllPass(q, rows)
    ensures |Passing(q, rows)| == 0 <==> NonePass(q, rows)
    decreases |rows|
  {
    hide Passes;
    if rows != [] {
      var n := |rows| - 1;
      FilterSize(q, rows[..n]);
      assert rows == rows[..n] + [rows[n]];
    }
  }

  // A pushed limit that the loop then filters gives the asked-for page exactly when
  // the loop drops none of the rows fetched, or has none to keep beyond them.
  lemma CutExact(q: Query, scan: seq<Doc>)
    requires LimitPushed(q) && q.limit <= |scan|
    ensures Page(Passing(q, SqlLimit(q, scan)), 0, q.limit) == Page(Passing(q, scan), 0, q.limit) <==>
      AllPass(q, scan[..q.limit]) || NonePass(q, scan[q.limit..])
  {
    hide Passes, Passing, AllPass, NonePass;
    var a, b := scan[..q.limit], scan[q.limit..];
    assert scan == a + b && SqlLimit(q, scan) == a;
    FilterSplit(q, a, b);
    FilterSize(q, a);
    FilterSize(q, b);
  }

  // ------------------------------------------------- a limit pushed without its cursors

  ghost predicate StartKeeps(q: Query, n: Str)
    requires NameOnly(q)
  {
    q.start.Some? ==> AfterStart(CompareToCursor(q.order, [Reference(n)], q.start.value), q.start.value)
  }

  ghost predicate EndKeeps(q: Query, n: Str)
    requires NameOnly(q)
  {
    q.end.Some? ==> BeforeEnd(CompareToCursor(q.order, [Reference(n)], q.end.value), q.end.value)
  }

  lemma PassesName(q: Query, d: Doc)
    requires NameOnly(q) && q.where_.None?
    ensures Passes(q, d) <==> StartKeeps(q, d.name) && EndKeeps(q, d.name)
  {
    assert KeyOf(q, d) == [Reference(d.name)];
  }

  lemma CursorPlace(q: Query, n: Str, cur: Cursor)
    requires NameOnly(q)
    ensures CompareToCursor(q.order, [Reference(n)], cur) ==
      if cur.values == [] then 0 else Flip(q.order[0].desc, Compare(Reference(n), cur.values[0]))
  {
    var key := [Reference(n)];
    assert CompareTerms(q.order, key, cur.values, 0) == 0;
  }

  // The comparison with a cursor only grows along the scan.
  lemma PlaceGrows(q: Query, a: Str, b: Str, cur: Cursor)
    requires NameOnly(q) && Flip(q.order[0].desc, CompareResourceNames(a, b)) < 0
    ensures var x, y := CompareToCursor(q.order, [Reference(a)], cur), CompareToCursor(q.order, [Reference(b)], cur);
      x <= y && (x == 0 && y == 0 ==> cur.values == [])
  {
    hide CompareToCursor;
    CursorPlace(q, a, cur);
    CursorPlace(q, b, cur);
    if cur.values != [] {
      var v := cur.values[0];
      if v.Reference? {
        SegmentsTriple(Segments(a), Segments(b), Segments(v.name));
      } else {
        OtherType(a, b, v);
      }
    }
  }

  lemma OtherType(a: Str, b: Str, v: Value)
    requires !v.Reference?
    ensures Compare(Reference(a), v) == Compare(Reference(b), v) != 0
  {}

  lemma StartUp(q: Query, a: Str, b: Str)
    requires NameOnly(q) && Flip(q.order[0].desc, CompareResourceNames(a, b)) < 0 && StartKeeps(q, a)
    ensures StartKeeps(q, b)
  {
    hide CompareToCursor, CompareResourceNames;
    if q.start.Some? { PlaceGrows(q, a, b, q.start.value); }
  }

  lemma EndDown(q: Query, a: Str, b: Str)
    requires NameOnly(q) && Flip(q.order[0].desc, CompareResourceNames(a, b)) < 0 && EndKeeps(q, b)
    ensures EndKeeps(q, a)
  {
    hide CompareToCursor, CompareResourceNames;
    if q.end.Some? { PlaceGrows(q, a, b, q.end.value); }
  }

  // The document a name stands for.
  function DocNamed(n: Str): Doc
    requires ParseName(n).Some?
  {
    Doc(n, ParseName(n).value.parent, ParseName(n).value.collectionId, map[])
  }

  predicate Nameable(q: Query, n: Str) { ParseName(n).Some? && InBase(q, DocNamed(n)) }

  ghost predicate InScan(desc: bool, a: Str, b: Str) { Agree(a, b) && Flip(desc, CompareBytes(a, b)) < 0 }

  // Names of the query's base, one more than the limit, in scan order: the first one
  // the start cursor drops, the last one both cursors keep.
  ghost predicate IsSplit(q: Query, names: seq<Str>)
    requires NameOnly(q)
  {
    && q.limit >= 0 && |names| == q.limit + 1
    && (forall i :: 0 <= i < |names| ==> Nameable(q, names[i]))
    && (forall i, j :: 0 <= i < j < |names| ==> InScan(q.order[0].desc, names[i], names[j]))
    && !StartKeeps(q, names[0]) && StartKeeps(q, names[|names| - 1]) && EndKeeps(q, names[|names| - 1])
  }

  ghost predicate Splits(q: Query)
    requires NameOnly(q)
  {
    exists names :: IsSplit(q, names)
  }

  // Only a start cursor at a name can: one without values, at the empty name or at
  // another type keeps all names or none, and so does none at all.
  lemma SplitsNeedsName(q: Query)
    requires NameOnly(q) && Splits(q)
    ensures q.start.Some? && |q.start.value.values| >= 1 && q.start.value.values[0].Reference? && q.start.value.values[0].name != []
    ensures q.limit > 0
  {
    hide CompareToCursor, Nameable, CompareBytes, CompareResourceNames;
    var names :| IsSplit(q, names);
    var a, b := names[0], names[|names| - 1];
    CursorPlace(q, a, q.start.value);
    CursorPlace(q, b, q.start.value);
    if q.start.value.values != [] {
      var v := q.start.value.values[0];
      if !v.Reference? {
        OtherType(a, b, v);
      } else if v.name == [] {
        assert Nameable(q, a) && Nameable(q, b);
        NameNotEmpty(q, a);
        NameNotEmpty(q, b);
        AgainstEmpty(a);
        AgainstEmpty(b);
      }
    }
  }

  lemma NameNotEmpty(q: Query, n: Str)
    requires Nameable(q, n)
    ensures n != []
  {
    NameParts(n);
  }

  lemma AgainstEmpty(n: Str)
    requires n != []
    ensures Compare(Reference(n), Reference([])) == 1
  {
    EmptyFirst(n, []);
  }

  // A scan whose page comes out wrong holds a split,
  lemma WrongSplits(q: Query, table: Table, scan: seq<Doc>, i: nat, m: nat)
    requires NameOnly(q) && NamesServe(q, table) && SoundTable(table) && IsNameScan(q, table, scan) && LimitPushed(q)
    requires i < q.limit <= m < |scan| && !Passes(q, scan[i]) && Passes(q, scan[m])
    ensures Splits(q)
  {
    hide Passes, CompareBytes, CompareResourceNames, StartKeeps, EndKeeps, NamesServe, SoundTable, IsNameScan, InScan;
    var names := seq(q.limit + 1, j requires 0 <= j < q.limit + 1 => if j < q.limit then scan[j].name else scan[m].name);
    forall j | 0 <= j < |scan| ensures Nameable(q, scan[j].name) { ScanNameable(q, table, scan, j); }
    forall j, k | 0 <= j < k < |scan| ensures InScan(q.order[0].desc, scan[j].name, scan[k].name) { ScanPair(q, table, scan, j, k); }
    DroppedFirst(q, scan[0].name, scan[i], scan[m], i);
    assert IsSplit(q, names) by { hide Nameable; }
  }

  // The row that fails is one the start drops, and so is the first.
  lemma DroppedFirst(q: Query, first: Str, fails: Doc, passes: Doc, i: nat)
    requires NameOnly(q) && q.where_.None? && !Passes(q, fails) && Passes(q, passes)
    requires InScan(q.order[0].desc, fails.name, passes.name)
    requires if i == 0 then first == fails.name else InScan(q.order[0].desc, first, fails.name)
    ensures !StartKeeps(q, first) && StartKeeps(q, passes.name) && EndKeeps(q, passes.name)
  {
    hide Passes, CompareBytes, CompareResourceNames, StartKeeps, EndKeeps;
    PassesName(q, fails);
    PassesName(q, passes);
    EndDown(q, fails.name, passes.name);
    if i > 0 && StartKeeps(q, first) { StartUp(q, first, fails.name); }
  }

  lemma ScanNameable(q: Query, table: Table, scan: seq<Doc>, j: nat)
    requires NameOnly(q) && NamesServe(q, table) && SoundTable(table) && IsNameScan(q, table, scan) && j < |scan|
    ensures Nameable(q, scan[j].name)
  {
    hide ParseName, Agree;
    assert scan[j] in scan;
  }

  lemma ScanPair(q: Query, table: Table, scan: seq<Doc>, j: nat, k: nat)
    requires NameOnly(q) && NamesServe(q, table) && SoundTable(table) && IsNameScan(q, table, scan) && j < k < |scan|
    ensures InScan(q.order[0].desc, scan[j].name, scan[k].name)
  {
    hide Agree, SoundNames, SqlCursors;
    assert scan[j] in scan && scan[k] in scan;
    assert Before(q.order[0].desc, scan[j], scan[k]);
  }

  // ... and a split makes a table whose page comes out wrong.
  lemma SplitGoesWrong(q: Query) returns (table: Table, scan: seq<Doc>)
    requires NameOnly(q) && LimitPushed(q) && NameCursorBounds(q).None? && Splits(q)
    ensures NamesServe(q, table) && SoundTable(table) && IsNameScan(q, table, scan)
    ensures Page(Passing(q, SqlLimit(q, scan)), q.offset, q.limit) != Page(Passing(q, scan), q.offset, q.limit)
  {
    hide IsSplit, Named, NamesServe, SoundTable, IsNameScan, Passes, SqlLimit;
    var names :| IsSplit(q, names);
    var n := SplitSize(q, names);
    scan := seq(n, i requires 0 <= i < n => Named(names[i]));
    table := map x | x in names :: Named(x);
    SplitRows(q, names);
    SplitNames(q, names, table);
    SplitScan(q, names, table, scan);
    SplitEnds(q, names, scan);
    CutExact(q, scan);
  }

  lemma SplitSize(q: Query, names: seq<Str>) returns (n: nat)
    requires NameOnly(q) && LimitPushed(q) && IsSplit(q, names)
    ensures n == |names| == q.limit + 1 && q.limit > 0
  {
    n := |names|;
    assert Splits(q);
    SplitsNeedsName(q);
  }

  function Named(n: Str): Doc { if ParseName(n).Some? then DocNamed(n) else Doc(n, [], [], map[]) }

  // The first row fetched does not pass, the first one beyond the limit does.
  lemma SplitEnds(q: Query, names: seq<Str>, scan: seq<Doc>)
    requires NameOnly(q) && LimitPushed(q) && IsSplit(q, names) && |scan| == |names| && q.limit > 0
    requires forall i :: 0 <= i < |names| ==> scan[i] == Named(names[i])
    ensures |scan| == q.limit + 1 && !AllPass(q, scan[..q.limit]) && !NonePass(q, scan[q.limit..])
  {
    hide Passes, StartKeeps, EndKeeps, Nameable, InScan;
    PassesName(q, scan[0]);
    PassesName(q, scan[q.limit]);
    assert scan[..q.limit][0] == scan[0] && scan[q.limit..][0] == scan[q.limit];
  }

  // What each row is.
  lemma SplitRows(q: Query, names: seq<Str>)
    requires NameOnly(q) && IsSplit(q, names)
    ensures forall n :: n in names ==> InBase(q, Named(n)) && Named(n).name == n
    ensures forall n :: n in names ==> ParseName(n) == Some(DocPath(Named(n).parentPath, Named(n).collectionId, LastSegment(n)))
  {
    hide StartKeeps, EndKeeps, InScan, InBase;
    forall n | n in names
      ensures InBase(q, Named(n)) && ParseName(n) == Some(DocPath(Named(n).parentPath, Named(n).collectionId, LastSegment(n)))
    {
      var i :| 0 <= i < |names| && names[i] == n;
      assert Nameable(q, names[i]);
    }
  }

  lemma SplitNames(q: Query, names: seq<Str>, table: Table)
    requires NameOnly(q) && NameCursorBounds(q).None? && IsSplit(q, names)
    requires forall n :: n in table ==> n in names && table[n] == Named(n)
    requires forall n :: n in names ==> ParseName(n) == Some(DocPath(Named(n).parentPath, Named(n).collectionId, LastSegment(n)))
    ensures NamesServe(q, table)
  {
    hide StartKeeps, EndKeeps, ParseName, Agree, Named, InBase, Nameable, NameCursorBounds;
    forall a, b | a in table && b in table ensures Agree(a, b) {
      var i :| 0 <= i < |names| && names[i] == a;
      var j :| 0 <= j < |names| && names[j] == b;
      if i < j { assert InScan(q.order[0].desc, names[i], names[j]); }
      else if j < i { assert InScan(q.order[0].desc, names[j], names[i]); AgreeSwap(b, a); }
      else { SelfAgrees(a); }
    }
  }

  lemma SplitScan(q: Query, names: seq<Str>, table: Table, scan: seq<Doc>)
    requires NameOnly(q) && NameCursorBounds(q).None? && IsSplit(q, names) && |scan| == |names|
    requires (forall i :: 0 <= i < |names| ==> scan[i] == Named(names[i]))
    requires (forall n :: n in table <==> n in names) && forall n :: n in table ==> table[n] == Named(n)
    requires forall n :: n in names ==> InBase(q, Named(n)) && Named(n).name == n
    ensures SoundTable(table) && IsNameScan(q, table, scan)
  {
    hide StartKeeps, EndKeeps, InBase, Nameable, Passes, CompareBytes, ParseName, Agree;
    NoFieldsSound();
    forall i, j | 0 <= i < j < |scan| ensures Before(q.order[0].desc, scan[i], scan[j]) { assert InScan(q.order[0].desc, names[i], names[j]); }
    forall d | d in scan ensures d.name in table && table[d.name] == d && InBase(q, d) {
      var i :| 0 <= i < |scan| && scan[i] == d;
      assert names[i] in names;
    }
    forall d | d in Selection(q, table) ensures d in scan {
      var i :| 0 <= i < |names| && names[i] == d.name;
      assert scan[i] == d;
    }
  }

  lemma NoFieldsSound()
    ensures SoundFields(map[])
  {}

  lemma SelfAgrees(a: Str)
    ensures Agree(a, a)
  {
    CompareRefl(a);
    NamesEqual(a, a);
  }

  // The pushed limit gives the right page on every table exactly when the cursors are
  // pushed with it or the query has no split: a condition on the query alone.
  lemma PushedLimitExact(q: Query)
    requires NameOnly(q) && LimitPushed(q)
    ensures LimitServed(q) <==>
      forall table: Table, scan: seq<Doc> :: NamesServe(q, table) && SoundTable(table) && IsNameScan(q, table, scan) ==>
        Page(Passing(q, SqlLimit(q, scan)), q.offset, q.limit) == Page(Passing(q, scan), q.offset, q.limit)
  {
    hide NamesServe, SoundTable, IsNameScan, Passing, Page, SqlLimit, Splits;
    if LimitServed(q) {
      forall table: Table, scan: seq<Doc> | NamesServe(q, table) && SoundTable(table) && IsNameScan(q, table, scan)
        ensures Page(Passing(q, SqlLimit(q, scan)), q.offset, q.limit) == Page(Passing(q, scan), q.offset, q.limit)
      {
        LimitSafe(q, table, scan);
      }
    } else {
      var table, scan := SplitGoesWrong(q);
    }
  }

  // A limit pushed to SQL loses nothing the loop would have kept.
  lemma LimitSafe(q: Query, table: Table, scan: seq<Doc>)
    requires NameOnly(q) && NamesServe(q, table) && LimitServed(q) && SoundTable(table) && IsNameScan(q, table, scan) && q.offset >= 0
    ensures Page(Passing(q, SqlLimit(q, scan)), q.offset, q.limit) == Page(Passing(q, scan), q.offset, q.limit)
  {
    hide Passes, NamesServe, IsNameScan, SoundTable;
    if LimitPushed(q) {
      if NameCursorBounds(q).Some? {
        PushedUniform(q, table, scan);
        UniformCut(q, scan);
      } else if q.limit <= |scan| {
        CutExact(q, scan);
        if !AllPass(q, scan[..q.limit]) && !NonePass(q, scan[q.limit..]) {
          var i :| 0 <= i < q.limit && !Passes(q, scan[..q.limit][i]);
          var m :| 0 <= m < |scan| - q.limit && Passes(q, scan[q.limit..][m]);
          WrongSplits(q, table, scan, i, m + q.limit);
        }
      }
    }
  }

  lemma UniformCut(q: Query, scan: seq<Doc>)
    requires LimitPushed(q) && (AllPass(q, scan) || NonePass(q, scan))
    ensures Page(Passing(q, SqlLimit(q, scan)), q.offset, q.limit) == Page(Passing(q, scan), q.offset, q.limit)
  {
    hide Passes;
    var cut := Take(scan, q.limit);
    if AllPass(q, scan) {
      FilterAll(q, scan);
      FilterAll(q, cut);
    } else {
      FilterHas(q, scan);
      FilterHas(q, cut);
      NothingIn(Passing(q, scan));
      NothingIn(Passing(q, cut));
    }
  }

  lemma NothingIn(s: seq<Doc>)
    ensures s == [] || s[0] in s
  {}

  // runNameOrdered returns the general path's list.
  method RunNameOrdered(q: Query, rows: seq<Doc>, ghost scan: seq<Doc>, ghost table: Table) returns (out: seq<Doc>)
    requires NameOnly(q) && NameServable(q, table) && SoundTable(table) && q.offset >= 0
    requires IsNameScan(q, table, scan) && rows == SqlLimit(q, scan)
    ensures out == Result(q, table)
  {
    hide Passing, IsNameScan, NamesServe, LimitServed, SoundTable, SqlLimit, Answer, Page, Selection;
    ScanAnswers(q, table, scan);
    LimitSafe(q, table, scan);
    out := FilterPage(q, rows);
  }

  // ---------------------------------------------------- where it does not agree

  // A collection group whose names invert is returned out of order: without
  // cursors, offset and limit, the scan lists the answer exactly when no two
  // selected names invert.
  lemma GroupOrderExact(q: Query, table: Table, scan: seq<Doc>)
    requires NameOnly(q) && SoundTable(table) && IsNameScan(q, table, scan) && q.start.None? && q.end.None?
    ensures Passing(q, scan) == Answer(q, Selection(q, table)) <==> NoInversion(Selection(q, table))
  {
    hide Passes, InBase, CompareDocs, Answer, SoundFields, SlashInverted, Before, NoInversion, InByteOrder, Passing;
    var docs, f := Selection(q, table), Passing(q, scan);
    SelectionSound(q, table);
    FilterHas(q, scan);
    FilterByteOrder(q, scan);
    assert q.order[0].isName;
    assert forall d :: d in f <==> d in docs;
    AnswerIs(q, docs);
    OrderedExact(q, f, docs);
    if NoInversion(docs) { AnswerUnique(q, f, Answer(q, docs), docs); }
  }

  ghost predicate NoInversion(docs: set<Doc>) {
    forall a, b :: a in docs && b in docs ==> !SlashInverted(a.name, b.name)
  }

  lemma PairExact(q: Query, a: Doc, b: Doc)
    requires NameOnly(q) && Before(q.order[0].desc, a, b)
    ensures CompareDocs(q, a, b) < 0 <==> !SlashInverted(a.name, b.name)
  {
    hide CompareDocs, SlashInverted, CompareBytes, CompareResourceNames;
    NameCompare(q, a, b);
    AgreeExact(a.name, b.name);
  }

  // A list in byte order is in query order exactly when nothing inverts.
  lemma OrderedExact(q: Query, f: seq<Doc>, docs: set<Doc>)
    requires NameOnly(q) && InByteOrder(q.order[0].desc, f) && forall d :: d in f <==> d in docs
    ensures InQueryOrder(q, f) <==> NoInversion(docs)
  {
    hide CompareDocs, SlashInverted, Before;
    if InQueryOrder(q, f) {
      forall a, b | a in docs && b in docs ensures !SlashInverted(a.name, b.name) {
        var i :| 0 <= i < |f| && f[i] == a;
        var j :| 0 <= j < |f| && f[j] == b;
        InversionSymmetric(a.name, b.name);
        if i < j { PairExact(q, a, b); } else if j < i { PairExact(q, b, a); }
      }
    }
    if NoInversion(docs) {
      forall i, j | 0 <= i < j < |f| ensures CompareDocs(q, f[i], f[j]) < 0 {
        assert f[i] in f && f[j] in f;
        PairExact(q, f[i], f[j]);
      }
    }
  }

  lemma {:induction false} InversionSymmetric(a: Str, b: Str)
    ensures SlashInverted(a, b) == SlashInverted(b, a)
    ensures a == b ==> !SlashInverted(a, b)
    decreases a
  {
    if a != [] && b != [] { InversionSymmetric(a[1..], b[1..]); }
  }

  lemma {:induction false} FilterByteOrder(q: Query, rows: seq<Doc>)
    requires NameOnly(q) && InByteOrder(q.order[0].desc, rows)
    ensures InByteOrder(q.order[0].desc, Passing(q, rows))
    decreases |rows|
  {
    hide Passes, Before;
    if rows != [] {
      var n := |rows| - 1;
      FilterByteOrder(q, rows[..n]);
      FilterHas(q, rows[..n]);
      var f := Passing(q, rows[..n]);
      forall i | 0 <= i < |f| ensures Before(q.order[0].desc, f[i], rows[n]) {
        assert f[i] in f;
        var k :| 0 <= k < n && rows[..n][k] == f[i];
        assert rows[k] == f[i];
      }
    }
  }

  // "a-b/x" and "a/x": bytes put the dash first, segments the shorter one.
  lemma DashBeforeSlash()
    ensures SlashInverted([0x61, 0x2D, 0x62, SLASH, 0x78], [0x61, SLASH, 0x78])
  {
    assert SlashInverted([0x2D, 0x62, SLASH, 0x78], [SLASH, 0x78]);
    assert [0x61, 0x2D, 0x62, SLASH, 0x78][1..] == [0x2D, 0x62, SLASH, 0x78] && [0x61, SLASH, 0x78][1..] == [SLASH, 0x78];
  }

  // A cursor with a second value is not pushed, and a start at b behind a costs the
  // page its only row.
  lemma UnpushedCursorShortPage(q: Query, a: Doc, b: Doc)
    requires q.order == [OrderSpec([], true, false)] && q.where_.None? && q.offset == 0 && q.limit == 1
    requires q.start == Some(Cursor([Reference(b.name), Null], true)) && q.end.None?
    requires CompareResourceNames(a.name, b.name) < 0
    ensures NameCursorBounds(q).None?
    ensures Page(Passing(q, SqlLimit(q, [a, b])), 0, 1) == [] && Page(Passing(q, [a, b]), 0, 1) == [b]
  {
    hide CompareResourceNames;
    NamesEqual(b.name, b.name);
    StartsAt(q, a);
    StartsAt(q, b);
    assert [a, b][..1] == [a] && [a, b][1..] == [b];
    FilterSplit(q, [a], [b]);
    FilterSize(q, [a]);
    FilterAll(q, [b]);
    assert [a] + [b] == [a, b];
  }

  lemma StartsAt(q: Query, d: Doc)
    requires q.order == [OrderSpec([], true, false)] && q.where_.None? && q.end.None?
    requires q.start.Some? && q.start.value.before && |q.start.value.values| >= 1 && q.start.value.values[0].Reference?
    ensures Passes(q, d) <==> CompareResourceNames(d.name, q.start.value.values[0].name) >= 0
  {
    assert CompareTerms(q.order, KeyOf(q, d), q.start.value.values, 0) == 0;
  }
}
