// The index path refines the general path: scanning the planned ranges, merging
// and paging yields the list runGeneral returns (runIndexed and scanIndex in
// internal/store/query.go).
module Refinement {
  import opened Bytes
  import opened Values
  import opened SortKeys
  import opened FieldPaths
  import opened Queries
  import opened Indexes
  import opened Plans
  import opened Spans
  import opened Layouts
  import opened RangeExact
  import opened Planning
  import opened Merge
  import opened General

  // A row of index_entries, under one index.
  datatype Entry = Entry(key: seq<byte>, name: Str)

  // The index holds exactly the keys of the collection's current documents.
  ghost predicate IndexRows(d: Def, table: Table, entries: set<Entry>) {
    forall e :: e in entries <==>
      e.name in table && table[e.name].collectionId == d.collectionId && e.key in Keys(d, e.name, table[e.name].fields)
  }

  // What a range scan may return: every entry of the span once, by key, in the
  // scan direction.
  ghost predicate IsScan(entries: set<Entry>, span: Span, reversed: bool, scan: seq<Entry>) {
    && (forall e :: e in scan <==> e in entries && InSpan(e.key, span))
    && (forall i, j :: 0 <= i < j < |scan| ==> scan[i] != scan[j])
    && (forall i, j :: 0 <= i < j < |scan| ==> Flip(reversed, CompareBytes(scan[i].key, scan[j].key)) <= 0)
  }

  // substring(key from from + 1).
  function RowFrom(e: Entry, from: nat): Row { Row(e.name, if from <= |e.key| then e.key[from..] else []) }

  function Rows(scan: seq<Entry>, from: nat): (r: seq<Row>)
    ensures |r| == |scan| && forall i :: 0 <= i < |scan| ==> r[i] == RowFrom(scan[i], from)
  {
    seq(|scan|, i requires 0 <= i < |scan| => RowFrom(scan[i], from))
  }

  // Every document of the query's collection lies under the query's parent: the
  // scan itself has no parent condition.
  ghost predicate UnderParent(q: Query, table: Table) {
    forall n :: n in table && table[n].collectionId == q.collectionId ==> InBase(q, table[n])
  }

  // ------------------------------------------------------------ one execution

  // A planned query, the table, the index over it and one scan per range.
  datatype Run = Run(d: Def, q: Query, split: Split, vs: seq<Value>, plan: Plan,
                     table: Table, entries: set<Entry>, scans: seq<seq<Entry>>)

  ghost predicate IsRun(x: Run) {
    && Servable(x.d, x.q) && SplitFilters(x.q) == Some(x.split) && IsPlan(x.d, x.q, x.split, x.vs, x.plan)
    && x.d.collectionId == x.q.collectionId && SoundTable(x.table) && UnderParent(x.q, x.table)
    && IndexRows(x.d, x.table, x.entries) && |x.scans| == |x.vs|
    && forall i :: 0 <= i < |x.vs| ==> IsScan(x.entries, x.plan.ranges[i].span, x.plan.reversed, x.scans[i])
  }

  lemma RunSizes(x: Run)
    requires IsRun(x)
    ensures |x.scans| == |x.plan.ranges| == |x.vs|
  {}

  function ServingAt(x: Run, i: nat): Serving
    requires i < |x.vs|
  {
    ServingOf(x.d, x.q, x.split, x.vs[i])
  }

  ghost predicate SelectedAt(x: Run, i: nat, doc: Doc)
    requires IsRun(x) && i < |x.vs|
  {
    Selected(ServingAt(x, i), x.q, doc.name, doc.fields)
  }

  function RestOf(x: Run): seq<Field> {
    var fs, n := EffectiveFields(x.d), |EqWith(x.split, Null)|;
    if n <= |fs| then fs[n..] else []
  }

  // The row every range shows for a document.
  function RowOf(x: Run, doc: Doc): Row { Row(doc.name, Suffix(RestOf(x), doc.name, doc.fields)) }

  lemma ServesAt(x: Run, i: nat)
    requires IsRun(x) && i < |x.vs|
    ensures ServesQuery(ServingAt(x, i), x.q) && IsMatched(x.d, x.q, x.split, x.vs[i])
    ensures var s := ServingAt(x, i);
      && x.plan.ranges[i] == Range(BoundsFor(s, x.q), |Matching(s).prefix|)
      && Matching(s).reversed == x.plan.reversed
  {
    hide IsScan, Match, Bounds, Servable, SplitFilters, SoundTable, IndexRows, UnderParent;
    assert RangeFor(x.d, x.q, x.split, x.vs[i], x.plan.ranges[i], x.plan.reversed);
    ChoiceServes(x.d, x.q, x.split, x.vs[i]);
  }

  lemma RestAt(x: Run, i: nat)
    requires i < |x.vs| && IsMatched(x.d, x.q, x.split, x.vs[i])
    ensures LayoutOf(ServingAt(x, i)).rest == RestOf(x)
  {
    MatchFits(ServingAt(x, i));
    SizeOfEq(x.split, x.vs[i]);
  }

  lemma SizeOfEq(split: Split, v: Value)
    ensures |EqWith(split, v)| == |EqWith(split, Null)|
  {
    if split.in_.Some? {
      var p := split.in_.value.path;
      assert split.eq[p := v].Keys == split.eq.Keys + {p} == split.eq[p := Null].Keys;
    }
  }

  // The ordering suffix in bytes is the query's order, in the scan direction.
  lemma RowOrder(x: Run, i: nat, a: Doc, b: Doc)
    requires IsRun(x) && i < |x.vs| && SoundFields(a.fields) && SoundFields(b.fields)
    requires OrderPresent(x.q.order, a.fields) && OrderPresent(x.q.order, b.fields)
    ensures RowCmp(x.plan.reversed, RowOf(x, a), RowOf(x, b)) == CompareDocs(x.q, a, b)
  {
    hide IsRun, Match, ServesQuery, CompareTerms, Suffix, SoundFields;
    ServesAt(x, i);
    RestAt(x, i);
    var s := ServingAt(x, i);
    ServedLaid(s, x.q);
    SuffixOrder(LayoutOf(s), a.name, a.fields, b.name, b.fields);
  }

  lemma ServedLaid(s: Serving, q: Query)
    requires ServesQuery(s, q)
    ensures Laid(LayoutOf(s)) && LayoutOf(s).order == q.order && LayoutOf(s).reversed == Matching(s).reversed
  {
    LaidOut(s);
  }

  // ------------------------------------------------------------- one range scan

  // The entries of a range are the range keys of the documents it selects.
  lemma ScanIs(x: Run, i: nat, e: Entry)
    requires IsRun(x) && i < |x.vs|
    requires IsMatched(x.d, x.q, x.split, x.vs[i])
    ensures e in x.scans[i] <==>
      && e.name in x.table && x.table[e.name].collectionId == x.d.collectionId
      && SelectedAt(x, i, x.table[e.name]) && e.key == RangeKey(ServingAt(x, i), e.name, x.table[e.name].fields)
  {
    hide Servable, Match, Bounds, IsPlan, Keys, SplitFilters, UnderParent, Selected, RangeKey, SoundFields;
    ServesAt(x, i);
    if e.name in x.table {
      RangeIsExact(ServingAt(x, i), x.q, e.name, x.table[e.name].fields, e.key);
    }
  }

  function Stream(x: Run, i: nat): seq<Row>
    requires i < |x.scans| && i < |x.plan.ranges|
  {
    Rows(x.scans[i], x.plan.ranges[i].suffixFrom)
  }

  // A scanned entry, as a document and its row.
  lemma EntryRow(x: Run, i: nat, j: nat)
    requires IsRun(x) && i < |x.vs| && j < |x.scans[i]|
    ensures var e := x.scans[i][j];
      && e.name in x.table && x.table[e.name].collectionId == x.d.collectionId && SelectedAt(x, i, x.table[e.name])
      && Stream(x, i)[j] == RowOf(x, x.table[e.name])
      && IsMatched(x.d, x.q, x.split, x.vs[i])
      && e.key == PrefixFor(x.d, x.q, x.split, x.vs[i]) + Stream(x, i)[j].suffix
  {
    hide IsScan, Servable, Match, Bounds, IsPlan, Keys, SplitFilters, UnderParent, Selected, SoundFields, IndexRows, Suffix;
    var e := x.scans[i][j];
    ServesAt(x, i);
    RestAt(x, i);
    assert e in x.scans[i];
    ScanIs(x, i, e);
    var p := Matching(ServingAt(x, i)).prefix;
    RunSizes(x);
    assert e.key == p + Suffix(RestOf(x), e.name, x.table[e.name].fields);
    assert e.key[|p|..] == Suffix(RestOf(x), e.name, x.table[e.name].fields);
  }

  // A stream is sorted by suffix, in scan direction,
  lemma StreamSorted(x: Run, i: nat)
    requires IsRun(x) && i < |x.vs|
    ensures Sorted(x.plan.reversed, Stream(x, i))
  {
    var scan, rows := x.scans[i], Stream(x, i);
    forall j, k | 0 <= j < k < |scan| ensures RowCmp(x.plan.reversed, rows[j], rows[k]) <= 0 {
      StreamPair(x, i, j, k);
    }
  }

  lemma StreamPair(x: Run, i: nat, j: nat, k: nat)
    requires IsRun(x) && i < |x.vs| && j < k < |x.scans[i]|
    ensures RowCmp(x.plan.reversed, Stream(x, i)[j], Stream(x, i)[k]) <= 0
    ensures Stream(x, i)[j].name != Stream(x, i)[k].name
  {
    hide Servable, Match, Bounds, IsPlan, SplitFilters, UnderParent, Selected, IndexRows, SoundTable, Suffix, CompareBytes;
    RunSizes(x);
    var rows := Stream(x, i);
    assert IsScan(x.entries, x.plan.ranges[i].span, x.plan.reversed, x.scans[i]);
    EntryRow(x, i, j);
    EntryRow(x, i, k);
    var p := PrefixFor(x.d, x.q, x.split, x.vs[i]);
    SamePrefix(p, rows[j].suffix, rows[k].suffix);
  }

  // ... shows each document once,
  lemma StreamOnce(x: Run, i: nat)
    requires IsRun(x) && i < |x.vs|
    ensures OncePerName(Stream(x, i))
  {
    var scan, rows := x.scans[i], Stream(x, i);
    forall j, k | 0 <= j < k < |rows| ensures rows[j].name != rows[k].name {
      StreamPair(x, i, j, k);
    }
  }

  // ... and holds exactly the rows of the documents the range selects.
  lemma StreamHas(x: Run, i: nat, doc: Doc) returns (j: nat)
    requires IsRun(x) && i < |x.vs| && doc.name in x.table && x.table[doc.name] == doc
    requires doc.collectionId == x.d.collectionId && SelectedAt(x, i, doc)
    ensures j < |Stream(x, i)| && Stream(x, i)[j] == RowOf(x, doc)
  {
    hide Servable, Match, Bounds, IsPlan, SplitFilters, UnderParent, Selected, IndexRows, SoundTable, Suffix, IsScan;
    ServesAt(x, i);
    var e := Entry(RangeKey(ServingAt(x, i), doc.name, doc.fields), doc.name);
    ScanIs(x, i, e);
    j :| 0 <= j < |x.scans[i]| && x.scans[i][j] == e;
    EntryRow(x, i, j);
  }

  // ------------------------------------------------------------ all the ranges

  function Streams(x: Run): (r: seq<seq<Row>>)
    requires |x.scans| == |x.plan.ranges|
    ensures |r| == |x.scans| && forall i :: 0 <= i < |r| ==> r[i] == Stream(x, i)
  {
    seq(|x.scans|, i requires 0 <= i < |x.scans| => Stream(x, i))
  }

  // A document selected by any range is in the query's answer, and conversely.
  lemma SelectedIsAnswer(x: Run, i: nat, doc: Doc)
    requires IsRun(x) && i < |x.vs| && doc.name in x.table && x.table[doc.name] == doc
    requires doc.collectionId == x.d.collectionId && SelectedAt(x, i, doc)
    ensures doc in Selection(x.q, x.table)
  {
    hide Match, Bounds, SplitFilters, IndexRows, IsScan, Selected, Matches, InCursorRange, InBase, SoundFields;
    PlanSelects(x.d, x.q, x.split, doc.name, doc.fields);
    assert RangeFor(x.d, x.q, x.split, x.vs[i], x.plan.ranges[i], x.plan.reversed);
  }

  lemma AnswerIsSelected(x: Run, doc: Doc) returns (i: nat)
    requires IsRun(x) && doc in Selection(x.q, x.table)
    ensures doc.name in x.table && x.table[doc.name] == doc && doc.collectionId == x.d.collectionId
    ensures i < |x.vs| && SelectedAt(x, i, doc)
  {
    hide Match, Bounds, SplitFilters, IndexRows, IsScan, Selected, Matches, InCursorRange, SoundFields, Servable, IsPlan;
    i := PlanCovers(x.d, x.q, x.split, x.vs, x.plan, doc.name, doc.fields);
  }

  // The streams together show exactly the documents of the answer.
  lemma RowInStreams(x: Run, row: Row)
    requires IsRun(x) && |x.scans| == |x.plan.ranges|
    ensures row in Flatten(Streams(x)) ==>
      row.name in x.table && row == RowOf(x, x.table[row.name]) && x.table[row.name] in Selection(x.q, x.table)
  {
    hide IsRun, Selection, RowOf, Stream, SelectedAt;
    if row in Flatten(Streams(x)) {
      RunSizes(x);
      var i, j := InFlatten(Streams(x), row);
      StreamEntry(x, i, j);
    }
  }

  lemma StreamEntry(x: Run, i: nat, j: nat)
    requires IsRun(x) && i < |x.vs| && |x.scans| == |x.plan.ranges| == |x.vs| && j < |Stream(x, i)|
    ensures var row := Stream(x, i)[j];
      row.name in x.table && row == RowOf(x, x.table[row.name]) && x.table[row.name] in Selection(x.q, x.table)
  {
    hide Selection, SelectedAt, Servable, IsPlan, UnderParent, IndexRows, IsScan, SplitFilters, Suffix;
    EntryRow(x, i, j);
    var doc := x.table[x.scans[i][j].name];
    SelectedIsAnswer(x, i, doc);
  }

  lemma AnswerInStreams(x: Run, doc: Doc)
    requires IsRun(x) && |x.scans| == |x.plan.ranges| && doc in Selection(x.q, x.table)
    ensures RowOf(x, doc) in Flatten(Streams(x))
  {
    hide IsRun, Selection, RowOf, Stream, SelectedAt;
    RunSizes(x);
    var i := AnswerIsSelected(x, doc);
    var j := StreamHas(x, i, doc);
    FlattenHas(Streams(x), i, j);
  }

  // Ranges of an `in` list share no document.
  lemma StreamsApart(x: Run, i: nat, j: nat)
    requires IsRun(x) && !x.plan.dedup && i < j < |x.vs|
    ensures NamesApart(Stream(x, i), Stream(x, j))
  {
    hide Servable, IsPlan, UnderParent, IndexRows, IsScan, SplitFilters, Suffix, Selected, SoundFields;
    RunSizes(x);
    forall a, b | 0 <= a < |Stream(x, i)| && 0 <= b < |Stream(x, j)| ensures Stream(x, i)[a].name != Stream(x, j)[b].name {
      EntryRow(x, i, a);
      EntryRow(x, j, b);
      var doc := x.table[x.scans[i][a].name];
      if x.scans[i][a].name == x.scans[j][b].name {
        RangesDisjoint(x.d, x.q, x.split, x.vs, x.plan, doc.name, doc.fields, i, j);
        assert false;
      }
    }
  }

  // --------------------------------------------------- from rows to the answer

  function Merges(x: Run): seq<Row>
    requires |x.scans| == |x.plan.ranges|
  {
    Kept(Merged(NonEmpty(Streams(x), |x.scans|), x.plan.reversed), x.plan.dedup, {})
  }

  // rows is the answer, row by row.
  ghost predicate ShowsAnswer(x: Run, rows: seq<Row>) {
    && Sorted(x.plan.reversed, rows) && OncePerName(rows)
    && (forall r :: r in rows ==> r.name in x.table && r == RowOf(x, x.table[r.name]) && x.table[r.name] in Selection(x.q, x.table))
    && (forall d :: d in Selection(x.q, x.table) ==> RowOf(x, d) in rows)
  }

  lemma MergedShows(x: Run)
    requires IsRun(x) && |x.scans| == |x.plan.ranges|
    ensures ShowsAnswer(x, Merges(x))
  {
    hide IsRun, Selection, RowOf, Stream, Merged, Distinct, Flatten, NonEmpty;
    RunSizes(x);
    var streams, n := Streams(x), |x.scans|;
    var some := NonEmpty(streams, n);
    NonEmptyFlattens(streams, n);
    assert streams[..n] == streams;
    forall i | 0 <= i < |some| ensures Sorted(x.plan.reversed, some[i]) {
      assert some[i] in some;
      var j :| 0 <= j < |streams| && streams[j] == some[i];
      StreamSorted(x, j);
    }
    var m := Merged(some, x.plan.reversed);
    MergedSorted(some, x.plan.reversed);
    MergedOnce(x, some);
    DistinctSorted(m, {}, x.plan.reversed);
    DistinctOnce(m, {});
    DistinctFrom(m, {});
    forall r | r in Merges(x) ensures r.name in x.table && r == RowOf(x, x.table[r.name]) && x.table[r.name] in Selection(x.q, x.table) {
      MergedHas(some, x.plan.reversed, r);
      RowInStreams(x, r);
    }
    forall d | d in Selection(x.q, x.table) ensures RowOf(x, d) in Merges(x) {
      AnswerMerged(x, some, d);
    }
  }

  lemma AnswerMerged(x: Run, some: seq<seq<Row>>, d: Doc)
    requires IsRun(x) && |x.scans| == |x.plan.ranges| && some == NonEmpty(Streams(x), |x.scans|)
    requires Flatten(some) == Flatten(Streams(x)) && d in Selection(x.q, x.table)
    ensures RowOf(x, d) in Merges(x)
  {
    hide IsRun, Selection, Stream, Merged, Distinct, Flatten, NonEmpty, Suffix;
    var m, row := Merged(some, x.plan.reversed), RowOf(x, d);
    AnswerInStreams(x, d);
    MergedHas(some, x.plan.reversed, row);
    if x.plan.dedup {
      var k := DistinctCovers(m, {}, row);
      DistinctFrom(m, {});
      MergedHas(some, x.plan.reversed, k);
      RowInStreams(x, k);
      RowInStreams(x, row);
    }
  }

  lemma MergedOnce(x: Run, some: seq<seq<Row>>)
    requires IsRun(x) && |x.scans| == |x.plan.ranges| && Flatten(some) == Flatten(Streams(x))
    ensures !x.plan.dedup ==> OncePerName(Merged(some, x.plan.reversed))
  {
    hide IsRun, Stream, Merged, Flatten;
    RunSizes(x);
    if !x.plan.dedup {
      var streams := Streams(x);
      forall i | 0 <= i < |streams| ensures OncePerName(streams[i]) { StreamOnce(x, i); }
      forall i, j | 0 <= i < j < |streams| ensures NamesApart(streams[i], streams[j]) { StreamsApart(x, i, j); }
      FlattenOnce(streams);
      MergedPermutes(some, x.plan.reversed);
      OncePermuted(Merged(some, x.plan.reversed), Flatten(streams));
    }
  }

  // A single range needs no merge.
  lemma SingleShows(x: Run)
    requires IsRun(x) && |x.scans| == |x.plan.ranges| == 1
    ensures ShowsAnswer(x, Stream(x, 0))
  {
    hide IsRun, Selection, RowOf, Stream;
    RunSizes(x);
    var s := Stream(x, 0);
    assert Streams(x) == [s];
    assert Flatten([s]) == s + Flatten([s][1..]) == s;
    StreamSorted(x, 0);
    StreamOnce(x, 0);
    forall r | r in s ensures r.name in x.table && r == RowOf(x, x.table[r.name]) && x.table[r.name] in Selection(x.q, x.table) {
      RowInStreams(x, r);
    }
    forall d | d in Selection(x.q, x.table) ensures RowOf(x, d) in s { AnswerInStreams(x, d); }
  }

  function ToDocs(table: Table, rows: seq<Row>): (r: seq<Doc>)
    requires forall i :: 0 <= i < |rows| ==> rows[i].name in table
    ensures |r| == |rows| && forall i :: 0 <= i < |rows| ==> r[i] == table[rows[i].name]
  {
    seq(|rows|, i requires 0 <= i < |rows| => table[rows[i].name])
  }

  // Rows that show the answer are the answer.
  lemma ShownIsAnswer(x: Run, rows: seq<Row>)
    requires IsRun(x) && ShowsAnswer(x, rows)
    ensures forall i :: 0 <= i < |rows| ==> rows[i].name in x.table
    ensures ToDocs(x.table, rows) == Answer(x.q, Selection(x.q, x.table))
  {
    hide IsRun, Selection, RowOf, CompareDocs, Answer, SoundDocs;
    forall i | 0 <= i < |rows| ensures rows[i].name in x.table { assert rows[i] in rows; }
    var docs, answer := ToDocs(x.table, rows), Selection(x.q, x.table);
    RunFacts(x);
    forall i, j | 0 <= i < j < |docs| ensures CompareDocs(x.q, docs[i], docs[j]) < 0 {
      assert rows[i] in rows && rows[j] in rows;
      ShownPair(x, rows[i], rows[j]);
    }
    ShownDocs(x, rows);
    AnswerIs(x.q, answer);
    AnswerUnique(x.q, docs, Answer(x.q, answer), answer);
  }

  lemma ShownDocs(x: Run, rows: seq<Row>)
    requires IsRun(x) && ShowsAnswer(x, rows) && forall i :: 0 <= i < |rows| ==> rows[i].name in x.table
    ensures forall d :: d in ToDocs(x.table, rows) <==> d in Selection(x.q, x.table)
  {
    hide IsRun, Selection, RowOf;
    var docs := ToDocs(x.table, rows);
    forall d | d in Selection(x.q, x.table) ensures d in docs {
      var k :| 0 <= k < |rows| && rows[k] == RowOf(x, d);
      ShownDoc(x, d);
      assert docs[k] == d;
    }
    forall d | d in docs ensures d in Selection(x.q, x.table) {
      var k :| 0 <= k < |docs| && docs[k] == d;
      assert rows[k] in rows;
    }
  }

  lemma RunFacts(x: Run)
    requires IsRun(x)
    ensures HasName(x.q.order) && SoundDocs(Selection(x.q, x.table))
  {
    SelectionSound(x.q, x.table);
  }

  lemma ShownDoc(x: Run, d: Doc)
    requires IsRun(x) && d in Selection(x.q, x.table)
    ensures d.name in x.table && x.table[d.name] == d && RowOf(x, d).name == d.name
  {
    SelectionSound(x.q, x.table);
  }

  lemma ShownPair(x: Run, a: Row, b: Row)
    requires IsRun(x) && a.name in x.table && b.name in x.table && a.name != b.name
    requires a == RowOf(x, x.table[a.name]) && b == RowOf(x, x.table[b.name])
    requires x.table[a.name] in Selection(x.q, x.table) && x.table[b.name] in Selection(x.q, x.table)
    requires RowCmp(x.plan.reversed, a, b) <= 0
    ensures CompareDocs(x.q, x.table[a.name], x.table[b.name]) < 0
  {
    hide RowOf, Servable, IsPlan, IndexRows, IsScan, UnderParent, CompareDocs, InBase, SoundFields;
    var da, db := x.table[a.name], x.table[b.name];
    RunFacts(x);
    var i := AnswerIsSelected(x, da);
    RowOrder(x, i, da, db);
    NotTied(x.q, da, db, Selection(x.q, x.table));
  }

  // ---------------------------------------------------------------- scanIndex

  // scanRange's LIMIT and OFFSET.
  method ScanRange(scan: seq<Entry>, suffixFrom: nat, limit: int, offset: int) returns (rows: seq<Row>)
    ensures rows == Page(Rows(scan, suffixFrom), MaxZero(offset), limit)
  {
    rows := [];
    var page := Page(scan, MaxZero(offset), limit);
    for i := 0 to |page|
      invariant |rows| == i && forall j :: 0 <= j < i ==> rows[j] == RowFrom(page[j], suffixFrom)
    {
      rows := rows + [RowFrom(page[i], suffixFrom)];
    }
  }

  // The limit condition: mergeRanges tests the limit only after appending.
  predicate SoundPaging(q: Query) {
    q.offset >= 0 && (q.limit != 0 || (SplitFilters(q).Some? && SplitFilters(q).value.in_.None?))
  }

  method ScanIndex(q: Query, plan: Plan, scans: seq<seq<Entry>>, ghost x: Run) returns (names: seq<Str>)
    requires IsRun(x) && x.q == q && x.plan == plan && x.scans == scans && SoundPaging(q)
    ensures names == NamesOf(Result(q, x.table))
  {
    hide IsRun, ShowsAnswer, Merged, NonEmpty, Result, SplitFilters, Distinct;
    RunSizes(x);
    if |plan.ranges| == 1 {
      var rows := ScanRange(scans[0], plan.ranges[0].suffixFrom, q.limit, q.offset);
      SingleShows(x);
      PageShown(x, Stream(x, 0));
      return Names(rows);
    }
    MergedShows(x);
    PageShown(x, Merges(x));
    ManyRanges(x);
    if |plan.ranges| == 0 {
      NoRanges(x);
      return [];
    }
    var perRange := PerRange(q.limit, q.offset, plan.dedup);
    var streams := FetchStreams(plan, scans, perRange, x);
    PrefetchPage(Streams(x), plan.reversed, q.limit, q.offset, plan.dedup);
    names := MergeRanges(streams, plan.reversed, q.limit, q.offset, plan.dedup);
  }

  lemma NoRanges(x: Run)
    requires |x.scans| == |x.plan.ranges| == 0
    ensures Merges(x) == []
  {
    assert Streams(x) == [];
  }

  lemma ManyRanges(x: Run)
    requires IsRun(x) && |x.plan.ranges| != 1 && SoundPaging(x.q)
    ensures x.q.limit != 0
  {}

  method FetchStreams(plan: Plan, scans: seq<seq<Entry>>, perRange: int, ghost x: Run) returns (streams: seq<seq<Row>>)
    requires |scans| == |plan.ranges| && x.plan == plan && x.scans == scans
    ensures streams == NonEmpty(Cut(Streams(x), perRange), |scans|)
  {
    hide NonEmpty;
    streams := [];
    NonEmptyNone(Cut(Streams(x), perRange));
    for i := 0 to |scans|
      invariant streams == NonEmpty(Cut(Streams(x), perRange), i)
    {
      var rows := ScanRange(scans[i], plan.ranges[i].suffixFrom, perRange, 0);
      NonEmptyStep(Cut(Streams(x), perRange), i);
      if |rows| > 0 { streams := streams + [rows]; }
    }
  }

  lemma NonEmptyNone(streams: seq<seq<Row>>)
    ensures NonEmpty(streams, 0) == []
  {}

  lemma NonEmptyStep(streams: seq<seq<Row>>, i: nat)
    requires i < |streams|
    ensures NonEmpty(streams, i + 1) == if streams[i] == [] then NonEmpty(streams, i) else NonEmpty(streams, i) + [streams[i]]
  {}

  function NamesOf(docs: seq<Doc>): (r: seq<Str>)
    ensures |r| == |docs| && forall i :: 0 <= i < |docs| ==> r[i] == docs[i].name
  {
    seq(|docs|, i requires 0 <= i < |docs| => docs[i].name)
  }

  // The names of a page of shown rows are the names of the page of the answer.
  lemma PageShown(x: Run, rows: seq<Row>)
    requires IsRun(x) && ShowsAnswer(x, rows) && x.q.offset >= 0
    ensures Names(Page(rows, x.q.offset, x.q.limit)) == NamesOf(Result(x.q, x.table))
  {
    hide ShowsAnswer, Selection, Answer;
    ShownIsAnswer(x, rows);
    var docs := ToDocs(x.table, rows);
    forall i | 0 <= i < |rows| ensures docs[i].name == rows[i].name { assert rows[i].name in x.table; }
    PageNames(rows, docs, x.q.offset, x.q.limit);
  }

  lemma PageNames(rows: seq<Row>, docs: seq<Doc>, offset: nat, limit: int)
    requires |rows| == |docs| && forall i :: 0 <= i < |rows| ==> docs[i].name == rows[i].name
    ensures Names(Page(rows, offset, limit)) == NamesOf(Page(docs, offset, limit))
  {}

  // ---------------------------------------------------------------- runIndexed

  datatype Outcome = Ok(docs: seq<Doc>) | Missing(name: Str) | NoMatch(name: Str)

  // runIndexed: the scan's names, fetched and checked again. Neither error arises,
  // and the documents are those of the general path, in its order.
  method RunIndexed(q: Query, plan: Plan, scans: seq<seq<Entry>>, table: Table, ghost x: Run) returns (r: Outcome)
    requires IsRun(x) && x.q == q && x.plan == plan && x.scans == scans && x.table == table && SoundPaging(q)
    ensures r == Ok(Result(q, table))
  {
    hide IsRun, Page, Answer, Matches;
    var names := ScanIndex(q, plan, scans, x);
    ghost var result := Result(q, table);
    ResultDocs(x);
    var docs: seq<Doc> := [];
    for i := 0 to |names|
      invariant |docs| == i && docs == result[..i]
    {
      var n := names[i];
      if n !in table { return Missing(n); }
      var doc := table[n];
      if !Matches(q, doc.name, doc.fields) { return NoMatch(n); }
      docs := docs + [doc];
    }
    assert result[..|names|] == result;
    return Ok(docs);
  }

  lemma ResultDocs(x: Run)
    requires IsRun(x) && x.q.offset >= 0
    ensures forall i :: 0 <= i < |Result(x.q, x.table)| ==>
      var d := Result(x.q, x.table)[i];
      d.name in x.table && x.table[d.name] == d && Matches(x.q, d.name, d.fields)
  {
    hide Matches, InBase, InCursorRange, CompareDocs, Answer;
    RunFacts(x);
    SelectionSound(x.q, x.table);
    var answer := Answer(x.q, Selection(x.q, x.table));
    AnswerIs(x.q, Selection(x.q, x.table));
    forall i | 0 <= i < |Result(x.q, x.table)| ensures Result(x.q, x.table)[i] in answer {}
  }

  // The index path refines the general path: for every table, definition, query
  // and plan the planner returns, whatever order the database scans in, both
  // executions return the same documents in the same order.
  method BothPathsAgree(d: Def, q: Query, plan: Plan, table: Table, ghost entries: set<Entry>,
                        scans: seq<seq<Entry>>, rows: seq<Doc>)
    returns (indexed: Outcome, general: seq<Doc>)
    requires PlanOf(d, q) == Some(plan) && d.collectionId == q.collectionId
    requires Servable(d, q) && SoundPaging(q) && SoundTable(table) && UnderParent(q, table)
    requires IndexRows(d, table, entries) && |scans| == |plan.ranges|
    requires forall i :: 0 <= i < |scans| ==> IsScan(entries, plan.ranges[i].span, plan.reversed, scans[i])
    requires Candidates(q, table, rows)
    ensures indexed == Ok(general)
  {
    ghost var choices := PlanIs(d, q);
    ghost var x := Run(d, q, SplitFilters(q).value, choices, plan, table, entries, scans);
    indexed := RunIndexed(q, plan, scans, table, x);
    var page := RunGeneral(q, rows, table);
    general := page.value;
  }
}
