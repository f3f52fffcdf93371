// The k-way merge of planned ranges with paging (mergeRanges in
// internal/store/query.go), and the pages every execution path returns.
module Merge {
  import opened Bytes
  import opened Values
  import opened FieldPaths
  import opened Spans

  // One index entry as the scan returns it: the document and the ordering suffix.
  datatype Row = Row(name: Str, suffix: seq<byte>)

  // Drop offset, take limit; a negative limit is no limit.
  function Page<T>(s: seq<T>, offset: nat, limit: int): seq<T> {
    var start := if offset > |s| then |s| else offset;
    if limit >= 0 && start + limit < |s| then s[start..start + limit] else s[start..]
  }

  function Take<T>(s: seq<T>, n: nat): seq<T> { if n < |s| then s[..n] else s }

  // A page depends only on the first offset + limit elements.
  lemma PageOfTake<T>(a: seq<T>, b: seq<T>, offset: nat, limit: nat)
    requires Take(a, offset + limit) == Take(b, offset + limit)
    ensures Page(a, offset, limit) == Page(b, offset, limit)
  {
    PageIsTake(a, offset, limit);
    PageIsTake(b, offset, limit);
  }

  lemma PageIsTake<T>(a: seq<T>, offset: nat, limit: nat)
    ensures var t := Take(a, offset + limit);
      Page(a, offset, limit) == if offset > |t| then [] else t[offset..]
  {}

  function Names(rows: seq<Row>): (r: seq<Str>)
    ensures |r| == |rows| && forall i :: 0 <= i < |rows| ==> r[i] == rows[i].name
  {
    seq(|rows|, i requires 0 <= i < |rows| => rows[i].name)
  }

  // Row order in the query's direction.
  function RowCmp(reversed: bool, a: Row, b: Row): int { Flip(reversed, CompareBytes(a.suffix, b.suffix)) }

  ghost predicate Sorted(reversed: bool, rows: seq<Row>) {
    forall i, j :: 0 <= i < j < |rows| ==> RowCmp(reversed, rows[i], rows[j]) <= 0
  }

  lemma RowTrans(reversed: bool, a: Row, b: Row, c: Row)
    requires RowCmp(reversed, a, b) <= 0 && RowCmp(reversed, b, c) <= 0
    ensures RowCmp(reversed, a, c) <= 0
  {
    CompareSwap(a.suffix, b.suffix);
    CompareSwap(b.suffix, c.suffix);
    CompareSwap(a.suffix, c.suffix);
    if reversed { CompareTrans(c.suffix, b.suffix, a.suffix); } else { CompareTrans(a.suffix, b.suffix, c.suffix); }
  }

  lemma RowRefl(reversed: bool, a: Row)
    ensures RowCmp(reversed, a, a) == 0
  {
    CompareRefl(a.suffix);
  }

  lemma RowTotal(reversed: bool, a: Row, b: Row)
    ensures RowCmp(reversed, a, b) == -RowCmp(reversed, b, a)
  {
    CompareSwap(a.suffix, b.suffix);
  }

  // ---------------------------------------------------------------- the merge

  // The stream whose head comes first among the first n, the earliest on a tie;
  // -1 when all of them are exhausted.
  function Best(streams: seq<seq<Row>>, reversed: bool, n: nat): (b: int)
    requires n <= |streams|
    ensures -1 <= b < n && (b >= 0 ==> streams[b] != [])
    ensures b == -1 ==> forall i :: 0 <= i < n ==> streams[i] == []
    decreases n
  {
    if n == 0 then -1
    else
      var b := Best(streams, reversed, n - 1);
      if streams[n - 1] == [] then b
      else if b == -1 || RowCmp(reversed, streams[n - 1][0], streams[b][0]) < 0 then n - 1
      else b
  }

  function Advance(streams: seq<seq<Row>>, b: nat): (r: seq<seq<Row>>)
    requires b < |streams| && streams[b] != []
    ensures |r| == |streams|
  {
    streams[b := streams[b][1..]]
  }

  function Flatten(streams: seq<seq<Row>>): seq<Row> {
    if streams == [] then [] else streams[0] + Flatten(streams[1..])
  }

  lemma {:induction false} FlattenAdvance(streams: seq<seq<Row>>, b: nat)
    requires b < |streams| && streams[b] != []
    ensures |Flatten(streams)| == |Flatten(Advance(streams, b))| + 1
    ensures multiset(Flatten(streams)) == multiset([streams[b][0]]) + multiset(Flatten(Advance(streams, b)))
    decreases |streams|
  {
    if b == 0 {
      assert Advance(streams, 0)[1..] == streams[1..];
      assert streams[0] == [streams[0][0]] + streams[0][1..];
    } else {
      FlattenAdvance(streams[1..], b - 1);
      assert Advance(streams, b)[1..] == Advance(streams[1..], b - 1);
      assert Advance(streams, b)[0] == streams[0];
    }
  }

  // Every row of every stream, always the best head next.
  function Merged(streams: seq<seq<Row>>, reversed: bool): seq<Row>
    decreases |Flatten(streams)|
  {
    var b := Best(streams, reversed, |streams|);
    if b < 0 then []
    else
      FlattenAdvance(streams, b);
      [streams[b][0]] + Merged(Advance(streams, b), reversed)
  }

  // The rows whose document was not seen before.
  function Distinct(rows: seq<Row>, seen: set<Str>): seq<Row> {
    if rows == [] then []
    else if rows[0].name in seen then Distinct(rows[1..], seen)
    else [rows[0]] + Distinct(rows[1..], seen + {rows[0].name})
  }

  function Kept(rows: seq<Row>, dedup: bool, seen: set<Str>): seq<Row> {
    if dedup then Distinct(rows, seen) else rows
  }

  // The limit is compared only after a row was appended, so zero acts as one.
  function MergeLimit(limit: int): int { if limit == 0 then 1 else limit }

  function MaxZero(n: int): nat { if n < 0 then 0 else n }

  function Tails(streams: seq<seq<Row>>, pos: seq<nat>): (r: seq<seq<Row>>)
    requires |pos| == |streams| && forall i :: 0 <= i < |pos| ==> pos[i] <= |streams[i]|
    ensures |r| == |streams| && forall i :: 0 <= i < |streams| ==> r[i] == streams[i][pos[i]..]
  {
    seq(|streams|, i requires 0 <= i < |streams| => streams[i][pos[i]..])
  }

  method FindBest(streams: seq<seq<Row>>, pos: seq<nat>, reversed: bool) returns (best: int)
    requires |pos| == |streams| && forall i :: 0 <= i < |pos| ==> pos[i] <= |streams[i]|
    ensures best == Best(Tails(streams, pos), reversed, |streams|)
  {
    best := -1;
    ghost var tails := Tails(streams, pos);
    for i := 0 to |streams|
      invariant best == Best(tails, reversed, i)
    {
      var st := streams[i];
      if pos[i] >= |st| { continue; }
      if best == -1 { best := i; continue; }
      assert tails[i][0] == st[pos[i]] && tails[best][0] == streams[best][pos[best]];
      var c := CompareBytes(st[pos[i]].suffix, streams[best][pos[best]].suffix);
      if reversed { c := -c; }
      if c < 0 { best := i; }
    }
  }

  // pos stands inside the streams, with rows still to come.
  predicate InStreams(streams: seq<seq<Row>>, pos: seq<nat>) {
    |pos| == |streams| && forall i :: 0 <= i < |pos| ==> pos[i] <= |streams[i]|
  }

  function ToCome(streams: seq<seq<Row>>, pos: seq<nat>, reversed: bool): seq<Row> {
    if InStreams(streams, pos) then Merged(Tails(streams, pos), reversed) else []
  }

  // One step: the best head, and the positions past it.
  method Pop(streams: seq<seq<Row>>, pos: seq<nat>, reversed: bool)
    returns (row: Option<Row>, next: seq<nat>)
    requires InStreams(streams, pos)
    ensures InStreams(streams, next)
    ensures ToCome(streams, pos, reversed) == if row.None? then [] else [row.value] + ToCome(streams, next, reversed)
  {
    var best := FindBest(streams, pos, reversed);
    if best == -1 { return None, pos; }
    ghost var tails := Tails(streams, pos);
    next := pos[best := pos[best] + 1];
    assert Tails(streams, next) == Advance(tails, best);
    assert tails[best][0] == streams[best][pos[best]];
    return Some(streams[best][pos[best]]), next;
  }

  // The names a page of kept rows emits, one row at a time: skip first, and stop
  // when the last of a positive count was emitted. A negative count never stops.
  function Emitted(rows: seq<Row>, skip: nat, count: int): seq<Str>
    decreases |rows|
  {
    if rows == [] then []
    else if skip > 0 then Emitted(rows[1..], skip - 1, count)
    else [rows[0].name] + if count == 1 then [] else Emitted(rows[1..], 0, count - 1)
  }

  lemma {:induction false} EmittedIsPage(rows: seq<Row>, skip: nat, count: int)
    requires count != 0
    ensures Emitted(rows, skip, count) == Names(Page(rows, skip, count))
    decreases |rows|
  {
    if rows != [] {
      var rest := rows[1..];
      if skip > 0 {
        EmittedIsPage(rest, skip - 1, count);
        PageSkip(rows[0], rest, skip, count);
        assert rows == [rows[0]] + rest;
      } else if count == 1 {
        assert Page(rows, 0, 1) == [rows[0]];
      } else {
        EmittedIsPage(rest, 0, count - 1);
        PageEmit(rows[0], rest, count);
        assert rows == [rows[0]] + rest;
      }
    }
  }

  lemma PageSkip(row: Row, rest: seq<Row>, skip: nat, count: int)
    requires skip > 0
    ensures Page([row] + rest, skip, count) == Page(rest, skip - 1, count)
  {}

  lemma PageEmit(row: Row, rest: seq<Row>, count: int)
    requires count != 0
    ensures Names(Page([row] + rest, 0, count)) == [row.name] + Names(Page(rest, 0, count - 1))
  {
    hide Names, Page;
    PageHead(row, rest, count);
    NamesHead(row, Page(rest, 0, count - 1));
  }

  lemma PageHead(row: Row, rest: seq<Row>, count: int)
    requires count != 0
    ensures Page([row] + rest, 0, count) == [row] + Page(rest, 0, count - 1)
  {
    var all := [row] + rest;
    if 0 < count <= |rest| {
      assert all[0..count] == [row] + rest[0..count - 1];
    } else {
      assert all[0..] == all && rest[0..] == rest;
    }
  }

  lemma NamesHead(row: Row, rest: seq<Row>)
    ensures Names([row] + rest) == [row.name] + Names(rest)
  {
    hide Names;
  }

  // mergeRanges: positions into the streams, a set of documents seen, a count of
  // rows skipped, and the names emitted so far.
  method MergeRanges(streams: seq<seq<Row>>, reversed: bool, limit: Int32, offset: Int32, dedup: bool)
    returns (out: seq<Str>)
    ensures out == Names(Page(Kept(Merged(streams, reversed), dedup, {}), MaxZero(offset), MergeLimit(limit)))
  {
    var pos: seq<nat> := seq(|streams|, _ => 0);
    assert Tails(streams, pos) == streams;
    ghost var rows := Merged(streams, reversed);
    EmittedIsPage(Kept(rows, dedup, {}), MaxZero(offset), MergeLimit(limit));
    out := MergeFrom(streams, pos, reversed, limit, offset, dedup);
  }

  method MergeFrom(streams: seq<seq<Row>>, start: seq<nat>, reversed: bool, limit: Int32, offset: Int32, dedup: bool)
    returns (out: seq<Str>)
    requires InStreams(streams, start)
    ensures out == Emitted(Kept(ToCome(streams, start, reversed), dedup, {}), MaxZero(offset), MergeLimit(limit))
  {
    hide Merged, Best, Flatten, Distinct, Emitted, Kept, ToCome;
    var seen: set<Str> := {};
    var pos := start;
    out := [];
    var skipped := 0;
    ghost var rows := ToCome(streams, start, reversed);
    ghost var all := rows;
    while true
      invariant InStreams(streams, pos) && rows == ToCome(streams, pos, reversed)
      invariant 0 <= skipped <= MaxZero(offset)
      invariant out != [] ==> skipped == MaxZero(offset)
      invariant limit < 0 || |out| < MergeLimit(limit)
      invariant Emitted(Kept(all, dedup, {}), MaxZero(offset), MergeLimit(limit))
             == out + Emitted(Kept(rows, dedup, seen), MaxZero(offset) - skipped, MergeLimit(limit) - |out|)
      decreases |rows|
    {
      var next, nextPos := Pop(streams, pos, reversed);
      if next.None? {
        NothingLeft(dedup, seen, MaxZero(offset) - skipped, MergeLimit(limit) - |out|);
        return;
      }
      var row := next.value;
      pos := nextPos;
      rows := ToCome(streams, pos, reversed);
      KeptStep(row, rows, dedup, seen);
      if dedup {
        if row.name in seen { continue; }
        seen := seen + {row.name};
      }
      EmittedStep(out, row, Kept(rows, dedup, seen), MaxZero(offset) - skipped, MergeLimit(limit) - |out|);
      if skipped < offset {
        skipped := skipped + 1;
        continue;
      }
      out := out + [row.name];
      if limit >= 0 && |out| >= limit { return; }
    }
  }

  lemma NothingLeft(dedup: bool, seen: set<Str>, skip: nat, count: int)
    ensures Emitted(Kept([], dedup, seen), skip, count) == []
  {}

  lemma EmittedStep(out: seq<Str>, row: Row, rest: seq<Row>, skip: nat, count: int)
    ensures out + Emitted([row] + rest, skip, count) ==
      if skip > 0 then out + Emitted(rest, skip - 1, count)
      else if count == 1 then out + [row.name]
      else (out + [row.name]) + Emitted(rest, 0, count - 1)
  {
    assert ([row] + rest)[1..] == rest;
    if skip == 0 && count != 1 { assert out + ([row.name] + Emitted(rest, 0, count - 1)) == (out + [row.name]) + Emitted(rest, 0, count - 1); }
  }

  lemma KeptStep(row: Row, rest: seq<Row>, dedup: bool, seen: set<Str>)
    ensures Kept([row] + rest, dedup, seen) ==
      if dedup && row.name in seen then Kept(rest, dedup, seen)
      else [row] + Kept(rest, dedup, if dedup then seen + {row.name} else seen)
  {
    assert ([row] + rest)[1..] == rest;
  }

  // ------------------------------------------------------ what the merge yields

  // The merge is a permutation of its streams.
  lemma {:induction false} MergedPermutes(streams: seq<seq<Row>>, reversed: bool)
    ensures multiset(Merged(streams, reversed)) == multiset(Flatten(streams))
    decreases |Flatten(streams)|
  {
    var b := Best(streams, reversed, |streams|);
    if b < 0 {
      AllEmpty(streams);
    } else {
      FlattenAdvance(streams, b);
      MergedPermutes(Advance(streams, b), reversed);
    }
  }

  lemma {:induction false} AllEmpty(streams: seq<seq<Row>>)
    requires forall i :: 0 <= i < |streams| ==> streams[i] == []
    ensures Flatten(streams) == []
  {
    if streams != [] { AllEmpty(streams[1..]); }
  }

  lemma {:induction false} BestLeast(streams: seq<seq<Row>>, reversed: bool, n: nat, i: nat)
    requires i < n <= |streams| && streams[i] != []
    ensures var b := Best(streams, reversed, n); b >= 0 && RowCmp(reversed, streams[b][0], streams[i][0]) <= 0
    decreases n
  {
    var b, b0 := Best(streams, reversed, n), Best(streams, reversed, n - 1);
    if i == n - 1 {
      RowRefl(reversed, streams[i][0]);
      if b0 >= 0 { RowTotal(reversed, streams[i][0], streams[b0][0]); }
    } else {
      BestLeast(streams, reversed, n - 1, i);
      if b == n - 1 { RowTrans(reversed, streams[b][0], streams[b0][0], streams[i][0]); }
    }
  }

  ghost predicate AllSorted(streams: seq<seq<Row>>, reversed: bool) {
    forall i :: 0 <= i < |streams| ==> Sorted(reversed, streams[i])
  }

  lemma {:induction false} InFlatten(streams: seq<seq<Row>>, row: Row)
    returns (i: nat, j: nat)
    requires row in Flatten(streams)
    ensures i < |streams| && j < |streams[i]| && streams[i][j] == row
    decreases |streams|
  {
    if row in streams[0] {
      i := 0;
      j :| 0 <= j < |streams[0]| && streams[0][j] == row;
    } else {
      var i0: nat;
      i0, j := InFlatten(streams[1..], row);
      i := i0 + 1;
    }
  }

  lemma {:induction false} FlattenHas(streams: seq<seq<Row>>, i: nat, j: nat)
    requires i < |streams| && j < |streams[i]|
    ensures streams[i][j] in Flatten(streams)
    decreases |streams|
  {
    if i > 0 { FlattenHas(streams[1..], i - 1, j); }
  }

  lemma MergedHas(streams: seq<seq<Row>>, reversed: bool, row: Row)
    ensures row in Merged(streams, reversed) <==> row in Flatten(streams)
  {
    MergedPermutes(streams, reversed);
    assert row in Merged(streams, reversed) <==> row in multiset(Merged(streams, reversed));
    assert row in Flatten(streams) <==> row in multiset(Flatten(streams));
  }

  // Sorted streams merge to a sorted list.
  lemma {:induction false} MergedSorted(streams: seq<seq<Row>>, reversed: bool)
    requires AllSorted(streams, reversed)
    ensures Sorted(reversed, Merged(streams, reversed))
    decreases |Flatten(streams)|
  {
    hide Merged, Flatten, RowCmp;
    MergedStep(streams, reversed);
    var b := Best(streams, reversed, |streams|);
    if b >= 0 {
      var rest := Advance(streams, b);
      FlattenAdvance(streams, b);
      AdvanceSorted(streams, reversed, b);
      MergedSorted(rest, reversed);
      var tail := Merged(rest, reversed);
      forall j | 0 <= j < |tail| ensures RowCmp(reversed, streams[b][0], tail[j]) <= 0 {
        assert tail[j] in tail;
        MergedHas(rest, reversed, tail[j]);
        HeadLeast(streams, reversed, b, tail[j]);
      }
    }
  }

  lemma AdvanceSorted(streams: seq<seq<Row>>, reversed: bool, b: nat)
    requires AllSorted(streams, reversed) && b < |streams| && streams[b] != []
    ensures AllSorted(Advance(streams, b), reversed)
  {
    hide RowCmp;
  }

  lemma MergedStep(streams: seq<seq<Row>>, reversed: bool)
    ensures var b := Best(streams, reversed, |streams|);
      Merged(streams, reversed) == if b < 0 then [] else [streams[b][0]] + Merged(Advance(streams, b), reversed)
  {
    hide Best, Flatten;
  }

  lemma HeadLeast(streams: seq<seq<Row>>, reversed: bool, b: nat, row: Row)
    requires AllSorted(streams, reversed) && b == Best(streams, reversed, |streams|) && b < |streams| && streams[b] != []
    requires row in Flatten(Advance(streams, b))
    ensures RowCmp(reversed, streams[b][0], row) <= 0
  {
    var i, j := InFlatten(Advance(streams, b), row);
    var k := if i == b then j + 1 else j;
    assert streams[i][k] == row;
    BestLeast(streams, reversed, |streams|, i);
    RowRefl(reversed, row);
    RowTrans(reversed, streams[b][0], streams[i][0], streams[i][k]);
  }

  // ---------------------------------------------------------- bounded prefetch

  // t keeps at least n rows of every stream of s.
  ghost predicate Prefetched(t: seq<seq<Row>>, s: seq<seq<Row>>, n: nat) {
    |t| == |s| && forall i :: 0 <= i < |s| ==> t[i] <= s[i] && (t[i] == s[i] || |t[i]| >= n)
  }

  lemma {:induction false} SameBest(t: seq<seq<Row>>, s: seq<seq<Row>>, reversed: bool, n: nat)
    requires |t| == |s| && n <= |s|
    requires forall i :: 0 <= i < |s| ==> t[i] <= s[i] && (t[i] == [] <==> s[i] == [])
    ensures Best(t, reversed, n) == Best(s, reversed, n)
    decreases n
  {
    if n > 0 { SameBest(t, s, reversed, n - 1); }
  }

  // No row beyond position n of its own stream can be among the first n merged.
  lemma {:induction false} PrefetchEnough(t: seq<seq<Row>>, s: seq<seq<Row>>, reversed: bool, n: nat)
    requires Prefetched(t, s, n)
    ensures Take(Merged(t, reversed), n) == Take(Merged(s, reversed), n)
    decreases n
  {
    hide Merged, Best;
    if n > 0 {
      SameBest(t, s, reversed, |s|);
      MergedStep(t, reversed);
      MergedStep(s, reversed);
      var b := Best(s, reversed, |s|);
      if b >= 0 {
        var t1, s1 := Advance(t, b), Advance(s, b);
        assert Prefetched(t1, s1, n - 1);
        PrefetchEnough(t1, s1, reversed, n - 1);
        TakeCons(t[b][0], Merged(t1, reversed), n);
        TakeCons(s[b][0], Merged(s1, reversed), n);
      }
    }
  }

  lemma TakeCons<T>(x: T, s: seq<T>, n: nat)
    requires n > 0
    ensures Take([x] + s, n) == [x] + Take(s, n - 1)
  {}

  // ------------------------------------------------------------- deduplication

  // Distinct keeps rows of documents not seen before, each document once,
  lemma {:induction false} DistinctFrom(rows: seq<Row>, seen: set<Str>)
    ensures forall r :: r in Distinct(rows, seen) ==> r in rows && r.name !in seen
    decreases |rows|
  {
    if rows != [] {
      DistinctFrom(rows[1..], if rows[0].name in seen then seen else seen + {rows[0].name});
    }
  }

  ghost predicate OncePerName(rows: seq<Row>) {
    forall i, j :: 0 <= i < j < |rows| ==> rows[i].name != rows[j].name
  }

  lemma {:induction false} DistinctOnce(rows: seq<Row>, seen: set<Str>)
    ensures OncePerName(Distinct(rows, seen))
    decreases |rows|
  {
    if rows != [] {
      var seen' := if rows[0].name in seen then seen else seen + {rows[0].name};
      DistinctOnce(rows[1..], seen');
      DistinctFrom(rows[1..], seen');
      var d := Distinct(rows[1..], seen');
      forall j | 0 <= j < |d| ensures d[j].name !in seen' { assert d[j] in d; }
      if rows[0].name !in seen {
        assert Distinct(rows, seen) == [rows[0]] + d;
      }
    }
  }

  // ... every document of them,
  lemma {:induction false} DistinctCovers(rows: seq<Row>, seen: set<Str>, r: Row) returns (k: Row)
    requires r in rows && r.name !in seen
    ensures k in Distinct(rows, seen) && k.name == r.name
    decreases |rows|
  {
    if rows[0].name == r.name {
      k := rows[0];
    } else {
      k := DistinctCovers(rows[1..], if rows[0].name in seen then seen else seen + {rows[0].name}, r);
    }
  }

  // ... in the order they came.
  lemma {:induction false} DistinctSorted(rows: seq<Row>, seen: set<Str>, reversed: bool)
    requires Sorted(reversed, rows)
    ensures Sorted(reversed, Distinct(rows, seen))
    decreases |rows|
  {
    if rows != [] {
      var seen' := if rows[0].name in seen then seen else seen + {rows[0].name};
      var d := Distinct(rows[1..], seen');
      DistinctSorted(rows[1..], seen', reversed);
      DistinctFrom(rows[1..], seen');
      forall j | 0 <= j < |d| ensures RowCmp(reversed, rows[0], d[j]) <= 0 {
        assert d[j] in d;
        var k :| 0 <= k < |rows[1..]| && rows[1..][k] == d[j];
        assert rows[k + 1] == d[j];
      }
    }
  }

  // ---------------------------------------------------------------- zero limit

  // The page mergeRanges returns is the asked-for page exactly when the limit is
  // not zero or nothing is left after the offset.
  lemma ZeroLimitExact(kept: seq<Row>, offset: nat, limit: Int32)
    ensures Page(kept, offset, MergeLimit(limit)) == Page(kept, offset, limit) <==> limit != 0 || |kept| <= offset
  {
    if limit == 0 && |kept| > offset {
      assert |Page(kept, offset, 0)| == 0 && |Page(kept, offset, 1)| == 1;
    }
  }

  // ----------------------------------------------------- one row per document

  lemma {:induction false} OncePermuted(a: seq<Row>, b: seq<Row>)
    requires multiset(a) == multiset(b) && OncePerName(b)
    ensures OncePerName(a)
  {
    forall i, j | 0 <= i < j < |a| ensures a[i].name != a[j].name {
      assert a[i] in multiset(a) && a[j] in multiset(a);
      var k :| 0 <= k < |b| && b[k] == a[i];
      var m :| 0 <= m < |b| && b[m] == a[j];
      CountOnce(b, k);
      if a[i] == a[j] {
        CountTwice(a, i, j);
        assert false;
      }
    }
  }

  lemma CountTwice(a: seq<Row>, i: nat, j: nat)
    requires i < j < |a| && a[i] == a[j]
    ensures multiset(a)[a[i]] >= 2
  {
    assert a == a[..j] + a[j..];
    assert a[..j][i] == a[i] && a[j..][0] == a[i];
    assert multiset(a) == multiset(a[..j]) + multiset(a[j..]);
  }

  lemma CountOnce(b: seq<Row>, k: nat)
    requires OncePerName(b) && k < |b|
    ensures multiset(b)[b[k]] == 1
  {
    assert b == b[..k] + [b[k]] + b[k + 1..];
    assert b[k] !in b[..k] && b[k] !in b[k + 1..];
    assert multiset(b) == multiset(b[..k]) + multiset([b[k]]) + multiset(b[k + 1..]);
  }

  ghost predicate NamesApart(a: seq<Row>, b: seq<Row>) {
    forall i, j :: 0 <= i < |a| && 0 <= j < |b| ==> a[i].name != b[j].name
  }

  lemma {:induction false} FlattenOnce(streams: seq<seq<Row>>)
    requires forall i :: 0 <= i < |streams| ==> OncePerName(streams[i])
    requires forall i, j :: 0 <= i < j < |streams| ==> NamesApart(streams[i], streams[j])
    ensures OncePerName(Flatten(streams))
    decreases |streams|
  {
    if streams != [] {
      FlattenOnce(streams[1..]);
      var rest := Flatten(streams[1..]);
      forall j | 0 <= j < |rest| ensures forall i :: 0 <= i < |streams[0]| ==> streams[0][i].name != rest[j].name {
        assert rest[j] in rest;
        var m, n := InFlatten(streams[1..], rest[j]);
        assert NamesApart(streams[0], streams[m + 1]);
      }
    }
  }

  // ------------------------------------------------------- nonempty streams

  // The streams the merge is given: empty ranges are left out.
  function NonEmpty(streams: seq<seq<Row>>, n: nat): seq<seq<Row>>
    requires n <= |streams|
  {
    if n == 0 then []
    else NonEmpty(streams, n - 1) + if streams[n - 1] == [] then [] else [streams[n - 1]]
  }

  lemma {:induction false} NonEmptyFlattens(streams: seq<seq<Row>>, n: nat)
    requires n <= |streams|
    ensures Flatten(NonEmpty(streams, n)) == Flatten(streams[..n])
    ensures forall s :: s in NonEmpty(streams, n) ==> s in streams
  {
    if n > 0 {
      NonEmptyFlattens(streams, n - 1);
      assert streams[..n] == streams[..n - 1] + [streams[n - 1]];
      FlattenSnoc(streams[..n - 1], streams[n - 1]);
      if streams[n - 1] == [] {
        assert NonEmpty(streams, n) == NonEmpty(streams, n - 1);
      } else {
        FlattenSnoc(NonEmpty(streams, n - 1), streams[n - 1]);
      }
    }
  }

  lemma {:induction false} FlattenSnoc(streams: seq<seq<Row>>, s: seq<Row>)
    ensures Flatten(streams + [s]) == Flatten(streams) + s
    decreases |streams|
  {
    if streams == [] {
      assert Flatten([s]) == s + Flatten([s][1..]);
    } else {
      FlattenSnoc(streams[1..], s);
      assert (streams + [s])[1..] == streams[1..] + [s];
    }
  }

  // Each stream cut to its first n rows; a negative n leaves them whole.
  function Cut(streams: seq<seq<Row>>, n: int): (r: seq<seq<Row>>)
    ensures |r| == |streams| && forall i :: 0 <= i < |streams| ==> r[i] == Page(streams[i], 0, n)
  {
    seq(|streams|, i requires 0 <= i < |streams| => Page(streams[i], 0, n))
  }

  lemma {:induction false} CutPrefetches(streams: seq<seq<Row>>, n: nat, m: nat)
    requires n > 0 && m <= |streams|
    ensures Prefetched(NonEmpty(Cut(streams, n), m), NonEmpty(streams, m), n)
    decreases m
  {
    if m > 0 {
      CutPrefetches(streams, n, m - 1);
      var a, b := NonEmpty(Cut(streams, n), m - 1), NonEmpty(streams, m - 1);
      var c, s := Cut(streams, n)[m - 1], streams[m - 1];
      assert c == [] <==> s == [];
      assert c <= s && (c == s || |c| >= n);
    }
  }

  // int32 addition.
  function Wrap32(n: int): int
    requires 0 <= n < 0x1_0000_0000
  {
    if n < 0x8000_0000 then n else n - 0x1_0000_0000
  }

  // How deep each of several ranges is read.
  function PerRange(limit: Int32, offset: Int32, dedup: bool): int
    requires offset >= 0
  {
    if limit >= 0 && !dedup then Wrap32(limit + offset) else -1
  }

  // Reading only offset + limit rows of each range, or all of them when the sum
  // wraps, gives the same page.
  lemma PrefetchPage(streams: seq<seq<Row>>, reversed: bool, limit: Int32, offset: Int32, dedup: bool)
    requires offset >= 0 && limit != 0
    ensures var cut := NonEmpty(Cut(streams, PerRange(limit, offset, dedup)), |streams|);
      Page(Kept(Merged(cut, reversed), dedup, {}), offset, limit)
      == Page(Kept(Merged(NonEmpty(streams, |streams|), reversed), dedup, {}), offset, limit)
  {
    var n := PerRange(limit, offset, dedup);
    if n >= 0 {
      CutPrefetches(streams, n, |streams|);
      var t, s := NonEmpty(Cut(streams, n), |streams|), NonEmpty(streams, |streams|);
      PrefetchEnough(t, s, reversed, n);
      PageOfTake(Merged(t, reversed), Merged(s, reversed), offset, limit);
    } else {
      assert Cut(streams, n) == streams;
    }
  }
}
