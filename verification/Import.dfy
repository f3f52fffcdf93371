// The resumable importer (forEachDoc, readPage and runImport in cmd/kor/main.go):
// what it copies whatever fails, and when a restart loses nothing.
module Import {
  import opened Bytes

  // A source document: its id and estimated payload.
  datatype Item = Item(id: Str, bytes: nat)

  const PAGE_SIZE: nat := 3000
  const PAGE_BYTES: nat := 24 * 1024 * 1024
  const BATCH_SIZE: nat := 100
  const BATCH_BYTES: nat := 2 * 1024 * 1024
  const ATTEMPTS: nat := 4

  // What a remote call does: a failed commit may still have been applied.
  datatype Fate = Fine | Broken(applied: bool)

  // The collection in id order; no id is empty.
  predicate IsSource(source: seq<Item>) {
    && (forall i, j :: 0 <= i < j < |source| ==> Less(source[i].id, source[j].id))
    && (forall i :: 0 <= i < |source| ==> source[i].id != [])
  }

  // How many documents are at or before a cursor. The empty cursor precedes all.
  function Pos(source: seq<Item>, cursor: Str): (n: nat)
    ensures n <= |source|
  {
    if source == [] || Less(cursor, source[0].id) then 0 else 1 + Pos(source[1..], cursor)
  }

  lemma {:induction false} PosOf(source: seq<Item>, k: nat)
    requires IsSource(source) && k < |source|
    ensures Pos(source, source[k].id) == k + 1
    decreases |source|
  {
    CompareRefl(source[k].id);
    if k > 0 {
      CompareSwap(source[0].id, source[k].id);
      PosOf(source[1..], k - 1);
    } else if |source| > 1 {
      assert Less(source[0].id, source[1].id);
    }
  }

  lemma PosEmpty(source: seq<Item>)
    requires IsSource(source)
    ensures Pos(source, []) == 0
  {}

  lemma {:induction false} PosMonotone(source: seq<Item>, a: Str, b: Str)
    requires CompareBytes(a, b) <= 0
    ensures Pos(source, a) <= Pos(source, b)
    decreases |source|
  {
    if source != [] {
      if Less(b, source[0].id) { CompareTrans(a, b, source[0].id); }
      PosMonotone(source[1..], a, b);
    }
  }

  // ------------------------------------------------------------------ the state

  // clock counts remote calls; committed is the destination and saved the state file,
  // which outlive the process.
  datatype State = State(clock: nat, batch: seq<Str>, bytes: nat, lastInBatch: Str, lastCommitted: Str, saved: Str, committed: set<Str>)

  const FRESH: State := State(0, [], 0, [], [], [], {})

  datatype Done = Done(s: State, ok: bool)

  // flush; not ok is a commit error.
  function FlushOf(fate: nat -> Fate, s: State): Done {
    if s.batch == [] then Done(s, true)
    else
      var f := fate(s.clock);
      var sent := if f.Fine? || f.applied then s.committed + (set x | x in s.batch) else s.committed;
      var r := s.(clock := s.clock + 1, batch := [], bytes := 0, committed := sent);
      if f.Broken? then Done(r, false) else Done(r.(lastCommitted := s.lastInBatch, saved := s.lastInBatch), true)
  }

  // The callback for one document.
  function CopyOf(source: seq<Item>, fate: nat -> Fate, s: State, k: nat): Done
    requires k < |source|
  {
    var r := s.(batch := s.batch + [source[k].id], bytes := s.bytes + source[k].bytes, lastInBatch := source[k].id);
    if |r.batch| >= BATCH_SIZE || r.bytes >= BATCH_BYTES then FlushOf(fate, r) else Done(r, true)
  }

  datatype Page = Page(s: State, n: nat, capped: bool, ok: bool)

  // readPage from position p, when n documents of the page are read already.
  function PageOf(source: seq<Item>, fate: nat -> Fate, s: State, p: nat, n: nat, bytes: nat): Page
    requires p + n <= |source|
    decreases |source| - n
  {
    var t := s.(clock := s.clock + 1);
    if fate(s.clock).Broken? then Page(t, n, false, false)
    else if n == PAGE_SIZE || p + n == |source| then Page(t, n, false, true)
    else
      var c := CopyOf(source, fate, t, p + n);
      if !c.ok then Page(c.s, n, false, false)
      else if bytes + source[p + n].bytes >= PAGE_BYTES then Page(c.s, n + 1, true, true)
      else PageOf(source, fate, c.s, p, n + 1, bytes + source[p + n].bytes)
  }

  datatype Tried = Tried(s: State, cursor: Str, n: nat, capped: bool, ok: bool)

  function Resume(s: State, cursor: Str): Str { if s.lastCommitted != [] then s.lastCommitted else cursor }

  // The retry loop of one page: resume from what is durable.
  function TriesOf(source: seq<Item>, fate: nat -> Fate, s: State, cursor: Str, attempt: nat): Tried
    requires 1 <= attempt <= ATTEMPTS
    decreases ATTEMPTS - attempt
  {
    var p := Pos(source, cursor);
    var r := PageOf(source, fate, s, p, 0, 0);
    if r.ok then Tried(r.s, if r.n == 0 || p + r.n > |source| then [] else source[p + r.n - 1].id, r.n, r.capped, true)
    else if attempt < ATTEMPTS then TriesOf(source, fate, r.s, Resume(r.s, cursor), attempt + 1)
    else Tried(r.s, cursor, r.n, false, false)
  }

  // What is left after the durable cursor.
  function Left(source: seq<Item>, s: State): nat {
    if s.lastCommitted == [] then |source| + 1 else |source| - Pos(source, s.lastCommitted)
  }

  predicate Continues(t: Tried) { t.n == PAGE_SIZE || t.capped }

  // forEachDoc. That each page but the last leaves less is proved below.
  function PagesOf(source: seq<Item>, fate: nat -> Fate, s: State, cursor: Str): Done
    decreases Left(source, s)
  {
    var t := TriesOf(source, fate, s, cursor, 1);
    if !t.ok then Done(t.s, false)
    else if !Continues(t) then Done(t.s, true)
    else if Left(source, t.s) >= Left(source, s) then Done(t.s, false)
    else PagesOf(source, fate, t.s, t.cursor)
  }

  // runImport: whatever came of the pages, the batch is flushed.
  function RunOf(source: seq<Item>, fate: nat -> Fate, s: State, cursor: Str): Done {
    var pages := PagesOf(source, fate, s, cursor);
    var last := FlushOf(fate, pages.s);
    Done(last.s, pages.ok && last.ok)
  }

  // A new process.
  function Restarted(s: State): State { s.(batch := [], bytes := 0, lastInBatch := [], lastCommitted := []) }

  // Runs until one succeeds, each after the first resuming from the state file, whose
  // content is trimmed of white space.
  function RunsOf(source: seq<Item>, fate: nat -> Fate, s: State, cursor: Str, tries: nat): Done
    decreases tries
  {
    if tries == 0 then Done(s, false)
    else
      var r := RunOf(source, fate, Restarted(s), cursor);
      if r.ok then r else RunsOf(source, fate, r.s, Trim(r.s.saved), tries - 1)
  }

  // ----------------------------------------------------------------- TrimSpace

  // The length of a white-space character at the head of UTF-8 text: the ASCII ones,
  // U+0085, U+00A0, U+1680, U+2000 to U+200A, U+2028, U+2029, U+202F, U+205F, U+3000.
  function SpaceHead(s: Str): (n: nat)
    ensures n <= |s|
  {
    if s == [] then 0
    else if 0x09 <= s[0] <= 0x0D || s[0] == 0x20 then 1
    else if |s| >= 2 && s[0] == 0xC2 && (s[1] == 0x85 || s[1] == 0xA0) then 2
    else if |s| >= 3 && WideSpace(s[0], s[1], s[2]) then 3
    else 0
  }

  function SpaceTail(s: Str): (n: nat)
    ensures n <= |s|
  {
    var k := |s|;
    if s == [] then 0
    else if 0x09 <= s[k - 1] <= 0x0D || s[k - 1] == 0x20 then 1
    else if k >= 2 && s[k - 2] == 0xC2 && (s[k - 1] == 0x85 || s[k - 1] == 0xA0) then 2
    else if k >= 3 && WideSpace(s[k - 3], s[k - 2], s[k - 1]) then 3
    else 0
  }

  predicate WideSpace(a: byte, b: byte, c: byte) {
    || (a == 0xE1 && b == 0x9A && c == 0x80)
    || (a == 0xE2 && b == 0x80 && (0x80 <= c <= 0x8A || c == 0xA8 || c == 0xA9 || c == 0xAF))
    || (a == 0xE2 && b == 0x81 && c == 0x9F)
    || (a == 0xE3 && b == 0x80 && c == 0x80)
  }

  function TrimHead(s: Str): Str
    decreases |s|
  {
    if SpaceHead(s) == 0 then s else TrimHead(s[SpaceHead(s)..])
  }

  function TrimTail(s: Str): Str
    decreases |s|
  {
    if SpaceTail(s) == 0 then s else TrimTail(s[..|s| - SpaceTail(s)])
  }

  function Trim(s: Str): Str { TrimTail(TrimHead(s)) }

  lemma {:induction false} TailIsPrefix(s: Str)
    ensures TrimTail(s) <= s
    decreases |s|
  {
    if SpaceTail(s) != 0 { TailIsPrefix(s[..|s| - SpaceTail(s)]); }
  }

  lemma {:induction false} PrefixBefore(a: Str, b: Str)
    requires a <= b
    ensures CompareBytes(a, b) <= 0
    decreases |a|
  {
    if a != [] {
      assert a[1..] <= b[1..];
      PrefixBefore(a[1..], b[1..]);
    }
  }

  // A trailing white-space character only moves the cursor back.
  lemma TrailingMovesBack(source: seq<Item>, s: Str)
    requires SpaceHead(s) == 0
    ensures Pos(source, Trim(s)) <= Pos(source, s)
  {
    TailIsPrefix(s);
    PrefixBefore(TrimTail(s), s);
    PosMonotone(source, TrimTail(s), s);
  }

  // Trimming no id moves the cursor past a later document.
  predicate TrimSafe(source: seq<Item>) {
    forall k :: 0 <= k < |source| ==> Pos(source, Trim(source[k].id)) <= k + 1
  }

  // In terms of the ids: none lies after an earlier one and at or before its trimming.
  lemma TrimSafeIds(source: seq<Item>)
    requires IsSource(source)
    ensures TrimSafe(source) <==> forall k, j :: 0 <= k < j < |source| ==> Less(Trim(source[k].id), source[j].id)
  {
    hide Trim;
    forall k | 0 <= k < |source|
      ensures Pos(source, Trim(source[k].id)) <= k + 1 <==> forall j :: k < j < |source| ==> Less(Trim(source[k].id), source[j].id)
    {
      PosBelow(source, Trim(source[k].id), k + 1);
    }
  }

  lemma {:induction false} PosBelow(source: seq<Item>, c: Str, n: nat)
    requires IsSource(source) && n <= |source|
    ensures Pos(source, c) <= n <==> forall j :: n <= j < |source| ==> Less(c, source[j].id)
    decreases |source|
  {
    if source != [] {
      if Less(c, source[0].id) {
        forall j | 0 <= j < |source| ensures Less(c, source[j].id) {
          if j > 0 { CompareTrans(c, source[0].id, source[j].id); }
        }
      } else if n > 0 {
        PosBelow(source[1..], c, n - 1);
        assert forall j :: n <= j < |source| ==> source[j] == source[1..][j - 1];
        assert forall j :: n - 1 <= j < |source[1..]| ==> source[1..][j] == source[j + 1];
      } else {
        assert !Less(c, source[0].id);
      }
    }
  }

  // Ids that do not begin with white space are safe.
  lemma NoLeadingSpaceSafe(source: seq<Item>)
    requires IsSource(source) && forall k :: 0 <= k < |source| ==> SpaceHead(source[k].id) == 0
    ensures TrimSafe(source)
  {
    hide Trim;
    forall k | 0 <= k < |source| ensures Pos(source, Trim(source[k].id)) <= k + 1 {
      TrailingMovesBack(source, source[k].id);
      PosOf(source, k);
    }
  }

  // ------------------------------------------------------- what every call keeps

  // Documents start..n are committed, or will be with the current batch.
  ghost predicate Covered(source: seq<Item>, s: State, start: nat, n: nat) {
    n <= |source| && forall k :: start <= k < n ==> source[k].id in s.committed || source[k].id in s.batch
  }

  ghost predicate Committed(source: seq<Item>, s: State, start: nat, n: nat) {
    n <= |source| && forall k :: start <= k < n ==> source[k].id in s.committed
  }

  ghost predicate IsId(source: seq<Item>, x: Str) { exists k :: 0 <= k < |source| && source[k].id == x }

  // The last committed id stands for everything before it, and so would the last one
  // in the batch.
  ghost predicate Steady(source: seq<Item>, s: State, start: nat, kept: Str) {
    && (s.lastCommitted != [] ==>
          IsId(source, s.lastCommitted) && start <= Pos(source, s.lastCommitted) && Committed(source, s, start, Pos(source, s.lastCommitted)))
    && (s.batch != [] ==>
          s.lastInBatch != [] && IsId(source, s.lastInBatch) && start <= Pos(source, s.lastInBatch)
          && Covered(source, s, start, Pos(source, s.lastInBatch)))
    && (s.batch == [] ==> s.bytes == 0)
    && (s.saved == kept || SavedOk(source, s, start))
  }

  // The batch is below its caps between calls.
  ghost predicate Valid(source: seq<Item>, s: State, start: nat, kept: Str) {
    Steady(source, s, start, kept) && |s.batch| < BATCH_SIZE && s.bytes < BATCH_BYTES
  }

  // The saved cursor never runs ahead of what is committed.
  ghost predicate SavedOk(source: seq<Item>, s: State, start: nat) {
    s.saved != [] ==> IsId(source, s.saved) && Committed(source, s, start, Pos(source, s.saved))
  }

  lemma FlushKeeps(source: seq<Item>, fate: nat -> Fate, s: State, start: nat, kept: Str)
    requires Steady(source, s, start, kept)
    ensures var r := FlushOf(fate, s);
      && Valid(source, r.s, start, kept) && r.s.batch == [] && s.committed <= r.s.committed && s.clock <= r.s.clock
      && (r.ok && s.batch != [] ==> r.s.lastCommitted == s.lastInBatch == r.s.saved)
      && (!r.ok || s.batch == [] ==> r.s.lastCommitted == s.lastCommitted && r.s.saved == s.saved)
      && (r.ok ==> forall x :: x in s.batch ==> x in r.s.committed)
  {
    hide Pos;
  }

  lemma CopyKeeps(source: seq<Item>, fate: nat -> Fate, s: State, k: nat, start: nat, kept: Str)
    requires IsSource(source) && Valid(source, s, start, kept) && start <= k < |source| && Covered(source, s, start, k)
    ensures var r := CopyOf(source, fate, s, k);
      && Valid(source, r.s, start, kept) && s.committed <= r.s.committed && s.clock <= r.s.clock
      && (r.ok ==> Covered(source, r.s, start, k + 1))
      && (r.ok && r.s.batch == [] ==> r.s.lastCommitted != [] && Pos(source, r.s.lastCommitted) == k + 1)
      && (r.ok && r.s.batch != [] ==>
            r.s.lastCommitted == s.lastCommitted && |r.s.batch| == |s.batch| + 1 && r.s.bytes == s.bytes + source[k].bytes)
      && (!r.ok ==> r.s.lastCommitted == s.lastCommitted)
  {
    hide Pos, FlushOf;
    PosOf(source, k);
    var r := s.(batch := s.batch + [source[k].id], bytes := s.bytes + source[k].bytes, lastInBatch := source[k].id);
    CopyAdds(source, s, r, k, start, kept);
    FlushKeeps(source, fate, r, start, kept);
  }

  lemma CopyAdds(source: seq<Item>, s: State, r: State, k: nat, start: nat, kept: Str)
    requires IsSource(source) && Valid(source, s, start, kept) && start <= k < |source| && Covered(source, s, start, k)
    requires r == s.(batch := s.batch + [source[k].id], bytes := s.bytes + source[k].bytes, lastInBatch := source[k].id)
    ensures Steady(source, r, start, kept) && Covered(source, r, start, k + 1)
  {
    hide Pos;
    PosOf(source, k);
    assert IsId(source, source[k].id);
    assert source[k].id in r.batch && forall x :: x in s.batch ==> x in r.batch;
  }

  // A page that continues has flushed at least once, and moved the durable cursor
  // past its start: its caps exceed those of a batch.
  lemma {:induction false} PageKeeps(source: seq<Item>, fate: nat -> Fate, s: State, p: nat, n: nat, bytes: nat, start: nat, kept: Str)
    requires IsSource(source) && Valid(source, s, start, kept) && start <= p && p + n <= |source| && n <= PAGE_SIZE && Covered(source, s, start, p + n)
    requires FlushedSince(source, s, p, n) || (|s.batch| >= n && s.bytes >= bytes)
    requires bytes < PAGE_BYTES
    ensures var r := PageOf(source, fate, s, p, n, bytes);
      && Valid(source, r.s, start, kept) && s.committed <= r.s.committed && s.clock <= r.s.clock && p + r.n <= |source|
      && (r.ok ==> Covered(source, r.s, start, p + r.n) && n <= r.n <= PAGE_SIZE)
      && (r.ok && !r.capped && r.n < PAGE_SIZE ==> p + r.n == |source|)
      && (r.ok && (r.capped || r.n == PAGE_SIZE) ==> r.n > 0 && FlushedSince(source, r.s, p, r.n))
      && (r.s.lastCommitted == s.lastCommitted || (r.s.lastCommitted != [] && p + n < Pos(source, r.s.lastCommitted)))
      && (r.ok && r.s.lastCommitted != s.lastCommitted ==> Pos(source, r.s.lastCommitted) <= p + r.n)
    decreases |source| - n
  {
    hide Pos, CopyOf, IsSource, Covered, Steady;
    var t := s.(clock := s.clock + 1);
    ClockTurns(source, s, t, start, p + n, kept);
    if fate(s.clock).Fine? && n != PAGE_SIZE && p + n != |source| {
      CopyKeeps(source, fate, t, p + n, start, kept);
      var c := CopyOf(source, fate, t, p + n);
      if c.ok && bytes + source[p + n].bytes < PAGE_BYTES {
        PageKeeps(source, fate, c.s, p, n + 1, bytes + source[p + n].bytes, start, kept);
      }
    }
  }

  ghost predicate FlushedSince(source: seq<Item>, s: State, p: nat, n: nat) {
    s.lastCommitted != [] && p < Pos(source, s.lastCommitted) <= p + n
  }

  lemma ClockTurns(source: seq<Item>, s: State, t: State, start: nat, n: nat, kept: Str)
    requires Steady(source, s, start, kept) && t == s.(clock := s.clock + 1)
    ensures Steady(source, t, start, kept) && (Covered(source, s, start, n) ==> Covered(source, t, start, n))
  {
    hide Pos;
  }

  // Where a page may start: everything before it is covered, and nothing durable lies
  // after it.
  ghost predicate StartsAt(source: seq<Item>, s: State, start: nat, cursor: Str) {
    && start <= Pos(source, cursor) && Covered(source, s, start, Pos(source, cursor))
    && (s.lastCommitted == [] ==> Pos(source, cursor) == start)
    && (s.lastCommitted != [] ==> Pos(source, s.lastCommitted) <= Pos(source, cursor))
  }

  lemma FirstPage(source: seq<Item>, fate: nat -> Fate, s: State, cursor: Str, start: nat, kept: Str)
    requires IsSource(source) && Valid(source, s, start, kept) && StartsAt(source, s, start, cursor)
    ensures var p, r := Pos(source, cursor), PageOf(source, fate, s, Pos(source, cursor), 0, 0);
      && Valid(source, r.s, start, kept) && s.committed <= r.s.committed && s.clock <= r.s.clock && p + r.n <= |source|
      && (r.ok && !r.capped && r.n < PAGE_SIZE ==> Covered(source, r.s, start, |source|))
      && (r.ok && (r.capped || r.n == PAGE_SIZE) ==> r.n > 0 && StartsAt(source, r.s, start, source[p + r.n - 1].id))
      && (r.ok && (r.capped || r.n == PAGE_SIZE) ==> Left(source, r.s) < Left(source, s))
      && (r.ok ==> r.n <= PAGE_SIZE)
      && (!r.ok ==> StartsAt(source, r.s, start, Resume(r.s, cursor)))
      && Left(source, r.s) <= Left(source, s)
  {
    hide Pos, Steady, PageOf;
    var p, r := Pos(source, cursor), PageOf(source, fate, s, Pos(source, cursor), 0, 0);
    PageKeeps(source, fate, s, p, 0, 0, start, kept);
    if r.ok && r.n > 0 { PosOf(source, p + r.n - 1); }
    if !r.ok { ResumesAt(source, s, r.s, start, cursor, kept); }
  }

  lemma ResumesAt(source: seq<Item>, s: State, r: State, start: nat, cursor: Str, kept: Str)
    requires Valid(source, r, start, kept) && StartsAt(source, s, start, cursor)
    requires r.lastCommitted == [] ==> s.lastCommitted == []
    ensures StartsAt(source, r, start, Resume(r, cursor))
  {
    hide Pos;
  }

  lemma {:induction false} TriesKeep(source: seq<Item>, fate: nat -> Fate, s: State, cursor: Str, attempt: nat, start: nat, kept: Str)
    requires IsSource(source) && Valid(source, s, start, kept) && StartsAt(source, s, start, cursor) && 1 <= attempt <= ATTEMPTS
    ensures var t := TriesOf(source, fate, s, cursor, attempt);
      && Valid(source, t.s, start, kept) && s.committed <= t.s.committed && s.clock <= t.s.clock
      && (t.ok && !Continues(t) ==> Covered(source, t.s, start, |source|))
      && (t.ok && Continues(t) ==> StartsAt(source, t.s, start, t.cursor) && Left(source, t.s) < Left(source, s))
      && Left(source, t.s) <= Left(source, s)
    decreases ATTEMPTS - attempt
  {
    hide Pos, Covered, Steady, StartsAt, PageOf, Left;
    FirstPage(source, fate, s, cursor, start, kept);
    var r := PageOf(source, fate, s, Pos(source, cursor), 0, 0);
    if !r.ok && attempt < ATTEMPTS { TriesKeep(source, fate, r.s, Resume(r.s, cursor), attempt + 1, start, kept); }
  }

  // forEachDoc ends on every pattern of failures, and on success has covered the rest
  // of the collection.
  lemma {:induction false} PagesKeep(source: seq<Item>, fate: nat -> Fate, s: State, cursor: Str, start: nat, kept: Str)
    requires IsSource(source) && Valid(source, s, start, kept) && StartsAt(source, s, start, cursor)
    ensures var r := PagesOf(source, fate, s, cursor);
      && Valid(source, r.s, start, kept) && s.committed <= r.s.committed && s.clock <= r.s.clock
      && (r.ok ==> Covered(source, r.s, start, |source|))
    decreases Left(source, s)
  {
    hide Pos, Covered, Steady, StartsAt, TriesOf, Left;
    TriesKeep(source, fate, s, cursor, 1, start, kept);
    var t := TriesOf(source, fate, s, cursor, 1);
    if t.ok && Continues(t) { PagesKeep(source, fate, t.s, t.cursor, start, kept); }
  }

  lemma RestartedValid(source: seq<Item>, s: State, cursor: Str, start: nat)
    requires IsSource(source) && start == Pos(source, cursor)
    ensures Valid(source, Restarted(s), start, s.saved) && StartsAt(source, Restarted(s), start, cursor)
  {
    hide Pos;
  }

  // One run succeeds only when everything after its start is committed; a cursor it
  // saves has everything behind it.
  lemma RunKeeps(source: seq<Item>, fate: nat -> Fate, s: State, cursor: Str)
    requires IsSource(source)
    ensures var start, r := Pos(source, cursor), RunOf(source, fate, Restarted(s), cursor);
      && s.committed <= r.s.committed && (r.s.saved == s.saved || SavedOk(source, r.s, start))
      && (r.ok ==> Committed(source, r.s, start, |source|))
  {
    hide Pos, PagesOf, FlushOf;
    var start := Pos(source, cursor);
    RestartedValid(source, s, cursor, start);
    PagesKeep(source, fate, Restarted(s), cursor, start, s.saved);
    var pages := PagesOf(source, fate, Restarted(s), cursor);
    FlushKeeps(source, fate, pages.s, start, s.saved);
  }

  // ------------------------------------------------------------------ restarts

  // Every document after the first start is committed on success, and before that
  // every one up to the saved cursor.
  ghost predicate Lossless(source: seq<Item>, r: Done, start: nat) {
    (r.ok ==> Committed(source, r.s, start, |source|)) && SavedOk(source, r.s, start)
  }

  lemma {:induction false} RunsSafe(source: seq<Item>, fate: nat -> Fate, s: State, cursor: Str, tries: nat, start: nat)
    requires IsSource(source) && TrimSafe(source) && SavedOk(source, s, start)
    requires Committed(source, s, start, Pos(source, cursor))
    ensures Lossless(source, RunsOf(source, fate, s, cursor, tries), start)
    decreases tries
  {
    hide Pos, RunOf, Trim, TrimSafe;
    if tries > 0 {
      var from := Pos(source, cursor);
      RunKeeps(source, fate, s, cursor);
      var r := RunOf(source, fate, Restarted(s), cursor);
      Stretches(source, s, r.s, start, from);
      if !r.ok {
        TrimmedBack(source, r.s);
        RunsSafe(source, fate, r.s, Trim(r.s.saved), tries - 1, start);
      }
    }
  }

  // What one run has behind its saved cursor joins what was there before.
  lemma Stretches(source: seq<Item>, s: State, r: State, start: nat, from: nat)
    requires Committed(source, s, start, from) && s.committed <= r.committed && SavedOk(source, s, start)
    requires r.saved == s.saved || SavedOk(source, r, from)
    ensures SavedOk(source, r, start)
    ensures Committed(source, r, from, |source|) ==> Committed(source, r, start, |source|)
  {
    hide Pos;
  }

  lemma TrimmedBack(source: seq<Item>, s: State)
    requires IsSource(source) && TrimSafe(source) && (s.saved != [] ==> IsId(source, s.saved))
    ensures s.saved != [] ==> Pos(source, Trim(s.saved)) <= Pos(source, s.saved)
    ensures s.saved == [] ==> Pos(source, Trim(s.saved)) == 0
  {
    if s.saved == [] {
      assert Trim([]) == [];
      PosEmpty(source);
    } else {
      var k :| 0 <= k < |source| && source[k].id == s.saved;
      PosOf(source, k);
    }
  }

  // ------------------------------------------------------ where a restart skips

  ghost predicate AllFine(fate: nat -> Fate, from: nat) { forall t :: t >= from ==> fate(t).Fine? }

  // Everything held or committed was there before, or stands at start or later.
  ghost predicate Within(source: seq<Item>, s: State, base: set<Str>, start: nat) {
    forall x :: x in s.committed || x in s.batch ==> x in base || exists j :: start <= j < |source| && source[j].id == x
  }

  lemma FlushFine(source: seq<Item>, fate: nat -> Fate, s: State, base: set<Str>, start: nat)
    requires AllFine(fate, s.clock) && Within(source, s, base, start)
    ensures FlushOf(fate, s).ok && s.clock <= FlushOf(fate, s).s.clock && Within(source, FlushOf(fate, s).s, base, start)
  {}

  // Without failures a page is read, and only from its start on.
  lemma {:induction false} PageFine(source: seq<Item>, fate: nat -> Fate, s: State, p: nat, n: nat, bytes: nat, base: set<Str>, start: nat)
    requires p + n <= |source| && AllFine(fate, s.clock) && Within(source, s, base, start) && start <= p
    ensures var r := PageOf(source, fate, s, p, n, bytes);
      r.ok && s.clock <= r.s.clock && Within(source, r.s, base, start)
    decreases |source| - n
  {
    hide FlushOf;
    if n != PAGE_SIZE && p + n != |source| {
      var t := s.(clock := s.clock + 1);
      var r := t.(batch := t.batch + [source[p + n].id], bytes := t.bytes + source[p + n].bytes, lastInBatch := source[p + n].id);
      assert Within(source, r, base, start);
      FlushFine(source, fate, r, base, start);
      var c := CopyOf(source, fate, t, p + n);
      if bytes + source[p + n].bytes < PAGE_BYTES {
        PageFine(source, fate, c.s, p, n + 1, bytes + source[p + n].bytes, base, start);
      }
    }
  }

  lemma {:induction false} PagesFine(source: seq<Item>, fate: nat -> Fate, s: State, cursor: Str, base: set<Str>, start: nat, kept: Str)
    requires IsSource(source) && Valid(source, s, start, kept) && StartsAt(source, s, start, cursor)
    requires AllFine(fate, s.clock) && Within(source, s, base, start)
    ensures var r := PagesOf(source, fate, s, cursor); r.ok && s.clock <= r.s.clock && Within(source, r.s, base, start)
    decreases Left(source, s)
  {
    hide Pos, Steady, PageOf, Left, Within, Covered;
    PageFine(source, fate, s, Pos(source, cursor), 0, 0, base, start);
    TriesKeep(source, fate, s, cursor, 1, start, kept);
    var t := TriesOf(source, fate, s, cursor, 1);
    if Continues(t) { PagesFine(source, fate, t.s, t.cursor, base, start, kept); }
  }

  // A run without failures succeeds, and copies nothing before its start.
  lemma RunFine(source: seq<Item>, fate: nat -> Fate, s: State, cursor: Str)
    requires IsSource(source) && AllFine(fate, s.clock)
    ensures var r := RunOf(source, fate, Restarted(s), cursor);
      r.ok && forall x :: x in r.s.committed ==>
        x in s.committed || exists j :: Pos(source, cursor) <= j < |source| && source[j].id == x
  {
    hide Pos, PagesOf, FlushOf;
    var start := Pos(source, cursor);
    RestartedValid(source, s, cursor, start);
    assert Within(source, Restarted(s), s.committed, start);
    PagesFine(source, fate, Restarted(s), cursor, s.committed, start, s.saved);
    FlushFine(source, fate, PagesOf(source, fate, Restarted(s), cursor).s, s.committed, start);
  }

  lemma {:induction false} TriesBroken(source: seq<Item>, fate: nat -> Fate, s: State, cursor: Str, attempt: nat)
    requires 1 <= attempt <= ATTEMPTS && forall t :: s.clock <= t < s.clock + ATTEMPTS + 1 - attempt ==> fate(t).Broken?
    ensures var r := TriesOf(source, fate, s, cursor, attempt);
      !r.ok && r.s == s.(clock := s.clock + ATTEMPTS + 1 - attempt)
    decreases ATTEMPTS - attempt
  {
    hide Pos;
    if attempt < ATTEMPTS {
      var t := s.(clock := s.clock + 1);
      TriesBroken(source, fate, t, Resume(t, cursor), attempt + 1);
    }
  }

  // The connection breaks after one document, or after its flush when it fills a
  // batch, and is back for the rest.
  function OneThenBroken(bytes: nat): nat -> Fate {
    if bytes < BATCH_BYTES then (t: nat) => if 1 <= t <= 4 then Broken(false) else Fine
    else (t: nat) => if 2 <= t <= 5 then Broken(false) else Fine
  }

  // A run that starts at document k and meets that copies it, fails and saves its id.
  lemma OneCopied(source: seq<Item>, cursor: Str, k: nat)
    requires IsSource(source) && k < |source| && Pos(source, cursor) == k
    ensures var r := RunOf(source, OneThenBroken(source[k].bytes), Restarted(FRESH), cursor);
      !r.ok && r.s.clock == 6 && r.s.saved == source[k].id && r.s.committed == {source[k].id}
  {
    if source[k].bytes < BATCH_BYTES { SmallCopied(source, cursor, k); } else { LargeCopied(source, cursor, k); }
  }

  lemma SmallCopied(source: seq<Item>, cursor: Str, k: nat)
    requires IsSource(source) && k < |source| && Pos(source, cursor) == k && source[k].bytes < BATCH_BYTES
    ensures var r := RunOf(source, OneThenBroken(source[k].bytes), Restarted(FRESH), cursor);
      !r.ok && r.s.clock == 6 && r.s.saved == source[k].id && r.s.committed == {source[k].id}
  {
    hide Pos, TriesOf;
    var fate, id, b := OneThenBroken(source[k].bytes), source[k].id, source[k].bytes;
    var s0 := Restarted(FRESH);
    var s2 := State(2, [id], b, id, [], [], {});
    var c := CopyOf(source, fate, s0.(clock := 1), k);
    assert [] + [id] == [id];
    assert c == Done(State(1, [id], b, id, [], [], {}), true);
    assert PageOf(source, fate, c.s, k, 1, b) == Page(s2, 1, false, false);
    assert PageOf(source, fate, s0, k, 0, 0) == Page(s2, 1, false, false);
    TriesBroken(source, fate, s2, cursor, 2);
    FirstFails(source, fate, s0, cursor);
    assert PagesOf(source, fate, s0, cursor) == Done(s2.(clock := 5), false);
    assert (set x | x in [id]) == {id};
  }

  lemma FirstFails(source: seq<Item>, fate: nat -> Fate, s: State, cursor: Str)
    requires !PageOf(source, fate, s, Pos(source, cursor), 0, 0).ok
    ensures var t := PageOf(source, fate, s, Pos(source, cursor), 0, 0).s;
      TriesOf(source, fate, s, cursor, 1) == TriesOf(source, fate, t, Resume(t, cursor), 2)
  {
    hide Pos, PageOf;
  }

  lemma LargeCopied(source: seq<Item>, cursor: Str, k: nat)
    requires IsSource(source) && k < |source| && Pos(source, cursor) == k && source[k].bytes >= BATCH_BYTES
    ensures var r := RunOf(source, OneThenBroken(source[k].bytes), Restarted(FRESH), cursor);
      !r.ok && r.s.clock == 6 && r.s.saved == source[k].id && r.s.committed == {source[k].id}
  {
    hide Pos, TriesOf;
    var fate, id, b := OneThenBroken(source[k].bytes), source[k].id, source[k].bytes;
    var s0 := Restarted(FRESH);
    var s2 := State(2, [], 0, id, id, id, {id});
    LargeFlushed(source, fate, k);
    PosOf(source, k);
    if b >= PAGE_BYTES {
      assert PageOf(source, fate, s0, k, 0, 0) == Page(s2, 1, true, true);
      FirstReads(source, fate, s0, cursor);
      TriesBroken(source, fate, s2, id, 1);
      assert PagesOf(source, fate, s2, id) == Done(s2.(clock := 6), false);
      assert PagesOf(source, fate, s0, cursor) == PagesOf(source, fate, s2, id);
    } else {
      assert PageOf(source, fate, s2, k, 1, b) == Page(s2.(clock := 3), 1, false, false);
      assert PageOf(source, fate, s0, k, 0, 0) == Page(s2.(clock := 3), 1, false, false);
      FirstFails(source, fate, s0, cursor);
      TriesBroken(source, fate, s2.(clock := 3), id, 2);
      assert PagesOf(source, fate, s0, cursor) == Done(s2.(clock := 6), false);
    }
  }

  lemma FirstReads(source: seq<Item>, fate: nat -> Fate, s: State, cursor: Str)
    requires var r := PageOf(source, fate, s, Pos(source, cursor), 0, 0);
      r.ok && r.n == 1 && Pos(source, cursor) < |source|
    ensures var r := PageOf(source, fate, s, Pos(source, cursor), 0, 0);
      TriesOf(source, fate, s, cursor, 1) == Tried(r.s, source[Pos(source, cursor)].id, 1, r.capped, true)
  {
    hide Pos, PageOf;
  }

  lemma LargeFlushed(source: seq<Item>, fate: nat -> Fate, k: nat)
    requires k < |source| && source[k].bytes >= BATCH_BYTES && fate(1).Fine?
    ensures var id := source[k].id;
      CopyOf(source, fate, FRESH.(clock := 1), k) == Done(State(2, [], 0, id, id, id, {id}), true)
  {
    var id := source[k].id;
    assert [] + [id] == [id];
    assert (set x | x in [id]) == {id};
    assert {} + {id} == {id};
  }

  // No run and no restart loses a document exactly when trimming is safe for the ids:
  // whatever fails, wherever the first run starts, and however often it is restarted.
  lemma ResumeExact(source: seq<Item>)
    requires IsSource(source)
    ensures TrimSafe(source) <==>
      forall fate: nat -> Fate, cursor: Str, tries: nat ::
        Lossless(source, RunsOf(source, fate, FRESH, cursor, tries), Pos(source, cursor))
  {
    hide Pos, RunsOf, Trim, Lossless;
    if TrimSafe(source) {
      forall fate: nat -> Fate, cursor: Str, tries: nat
        ensures Lossless(source, RunsOf(source, fate, FRESH, cursor, tries), Pos(source, cursor))
      {
        RunsSafe(source, fate, FRESH, cursor, tries, Pos(source, cursor));
      }
    } else {
      var k :| 0 <= k < |source| && Pos(source, Trim(source[k].id)) > k + 1;
      var fate, cursor := Skips(source, k);
    }
  }

  // Where trimming an id passes a later document, one break skips that document.
  lemma Skips(source: seq<Item>, k: nat) returns (fate: nat -> Fate, cursor: Str)
    requires IsSource(source) && k < |source| && Pos(source, Trim(source[k].id)) > k + 1
    ensures cursor == (if k == 0 then [] else source[k - 1].id) && Pos(source, cursor) == k && k + 1 < |source|
    ensures var r := RunsOf(source, fate, FRESH, cursor, 2); r.ok && source[k + 1].id !in r.s.committed
    ensures !Lossless(source, RunsOf(source, fate, FRESH, cursor, 2), Pos(source, cursor))
  {
    hide Pos, RunOf, Trim;
    fate := OneThenBroken(source[k].bytes);
    cursor := if k == 0 then [] else source[k - 1].id;
    if k == 0 { PosEmpty(source); } else { PosOf(source, k - 1); }
    OneCopied(source, cursor, k);
    var one := RunOf(source, fate, Restarted(FRESH), cursor);
    RunFine(source, fate, one.s, Trim(one.s.saved));
    var two := RunOf(source, fate, Restarted(one.s), Trim(one.s.saved));
    assert RunsOf(source, fate, FRESH, cursor, 2) == two;
    assert Less(source[k].id, source[k + 1].id);
    forall x | x in two.s.committed ensures x != source[k + 1].id { NotSkipped(source, k, x); }
  }

  lemma NotSkipped(source: seq<Item>, k: nat, x: Str)
    requires IsSource(source) && k + 1 < |source|
    requires x == source[k].id || exists j :: k + 1 < j < |source| && source[j].id == x
    ensures x != source[k + 1].id
  {
    CompareRefl(source[k + 1].id);
    if x != source[k].id {
      var j :| k + 1 < j < |source| && source[j].id == x;
      assert Less(source[k + 1].id, source[j].id);
    } else {
      assert Less(source[k].id, source[k + 1].id);
    }
  }

  // Two documents, " y" and "a": the page breaks after the first, the restart resumes
  // after "y", and "a" is never copied.
  lemma LeadingSpaceSkips(source: seq<Item>) returns (fate: nat -> Fate)
    requires |source| == 2 && source[0].id == [0x20, 0x79] && source[1].id == [0x61]
    ensures IsSource(source) && !TrimSafe(source)
    ensures var r := RunsOf(source, fate, FRESH, [], 2); r.ok && source[1].id !in r.s.committed
  {
    assert Less(source[0].id, source[1].id);
    assert IsSource(source);
    var id := source[0].id;
    assert SpaceHead(id) == 1 && id[1..] == [0x79];
    assert TrimHead([0x79]) == [0x79] && TrimTail([0x79]) == [0x79];
    assert Trim(id) == [0x79];
    assert !Less([0x79], source[0].id) && !Less([0x79], source[1].id);
    assert source[1..][0] == source[1] && source[1..][1..] == [];
    assert Pos(source[1..], [0x79]) == 1;
    assert Pos(source, [0x79]) == 2;
    var cursor: Str;
    fate, cursor := Skips(source, 0);
  }

  // --------------------------------------------------------- the source's closures

  class Importer {
    const source: seq<Item>
    const fate: nat -> Fate
    var clock: nat
    var batch: seq<Str>
    var batchedBytes: nat
    var lastInBatch: Str
    var lastCommitted: Str
    var saved: Str
    var committed: set<Str>

    constructor (source: seq<Item>, fate: nat -> Fate)
      ensures this.source == source && this.fate == fate && Contents() == FRESH
    {
      this.source, this.fate := source, fate;
      clock, batch, batchedBytes := 0, [], 0;
      lastInBatch, lastCommitted, saved, committed := [], [], [], {};
    }

    ghost function Contents(): State
      reads this
    {
      State(clock, batch, batchedBytes, lastInBatch, lastCommitted, saved, committed)
    }

    // flush; false is a commit error. The batch is reset either way.
    method Flush() returns (ok: bool)
      modifies this
      ensures Done(Contents(), ok) == FlushOf(fate, old(Contents()))
    {
      if |batch| == 0 { return true; }
      var f := fate(clock);
      clock := clock + 1;
      if f.Fine? || f.applied { committed := committed + set x | x in batch; }
      batch, batchedBytes := [], 0;
      if f.Broken? { return false; }
      lastCommitted := lastInBatch;
      saved := lastCommitted;
      return true;
    }

    method Copy(k: nat) returns (ok: bool)
      requires k < |source|
      modifies this
      ensures Done(Contents(), ok) == CopyOf(source, fate, old(Contents()), k)
    {
      batch := batch + [source[k].id];
      batchedBytes := batchedBytes + source[k].bytes;
      lastInBatch := source[k].id;
      if |batch| >= BATCH_SIZE || batchedBytes >= BATCH_BYTES {
        ok := Flush();
        return;
      }
      return true;
    }

    // readPage over the documents after position p.
    method ReadPage(p: nat) returns (n: nat, capped: bool, ok: bool)
      requires p <= |source|
      modifies this
      ensures Page(Contents(), n, capped, ok) == PageOf(source, fate, old(Contents()), p, 0, 0)
    {
      hide CopyOf;
      n := 0;
      var bytes: nat := 0;
      while true
        invariant p + n <= |source|
        invariant PageOf(source, fate, old(Contents()), p, 0, 0) == PageOf(source, fate, Contents(), p, n, bytes)
        decreases |source| - n
      {
        var f := fate(clock);
        clock := clock + 1;
        if f.Broken? { return n, false, false; }
        if n == PAGE_SIZE || p + n == |source| { return n, false, true; }
        var copied := Copy(p + n);
        if !copied { return n, false, false; }
        bytes := bytes + source[p + n].bytes;
        n := n + 1;
        if bytes >= PAGE_BYTES { return n, true, true; }
      }
      return n, false, false;
    }

    // One page with its retries; the last attempt leaves the cursor alone.
    method ReadWithRetries(cursor0: Str) returns (cursor: Str, n: nat, capped: bool, ok: bool)
      modifies this
      ensures Tried(Contents(), cursor, n, capped, ok) == TriesOf(source, fate, old(Contents()), cursor0, 1)
    {
      hide PageOf, Pos;
      cursor := cursor0;
      ok, n, capped := false, 0, false;
      var attempt := 1;
      while attempt <= ATTEMPTS
        invariant 1 <= attempt <= ATTEMPTS + 1 && !ok
        invariant attempt <= ATTEMPTS ==>
          TriesOf(source, fate, old(Contents()), cursor0, 1) == TriesOf(source, fate, Contents(), cursor, attempt)
        invariant attempt > ATTEMPTS ==>
          TriesOf(source, fate, old(Contents()), cursor0, 1) == Tried(Contents(), cursor, n, false, false)
        decreases ATTEMPTS - attempt
      {
        var p := Pos(source, cursor);
        n, capped, ok := ReadPage(p);
        if ok {
          cursor := if n == 0 || p + n > |source| then [] else source[p + n - 1].id;
          return;
        }
        if attempt < ATTEMPTS && lastCommitted != [] { cursor := lastCommitted; }
        attempt := attempt + 1;
      }
      capped := false;
    }

    // forEachDoc: page after page until one ends the collection.
    method ForEachDoc(startAfter: Str, ghost start: nat, ghost kept: Str) returns (ok: bool)
      requires IsSource(source) && Valid(source, Contents(), start, kept) && StartsAt(source, Contents(), start, startAfter)
      modifies this
      ensures Done(Contents(), ok) == PagesOf(source, fate, old(Contents()), startAfter)
    {
      hide TriesOf, Pos, Steady, Covered, StartsAt, Left;
      var cursor := startAfter;
      while true
        invariant Valid(source, Contents(), start, kept) && StartsAt(source, Contents(), start, cursor)
        invariant PagesOf(source, fate, old(Contents()), startAfter) == PagesOf(source, fate, Contents(), cursor)
        decreases Left(source, Contents())
      {
        TriesKeep(source, fate, Contents(), cursor, 1, start, kept);
        var n, capped, read;
        cursor, n, capped, read := ReadWithRetries(cursor);
        if !read { return false; }
        if n != PAGE_SIZE && !capped { return true; }
      }
      return false;
    }

    // runImport.
    method Run(startAfter: Str) returns (ok: bool)
      requires IsSource(source) && Contents() == Restarted(Contents())
      modifies this
      ensures Done(Contents(), ok) == RunOf(source, fate, old(Contents()), startAfter)
    {
      hide PagesOf, FlushOf, Pos;
      RestartedValid(source, Contents(), startAfter, Pos(source, startAfter));
      ok := ForEachDoc(startAfter, Pos(source, startAfter), saved);
      var flushed := Flush();
      ok := ok && flushed;
    }

    // A new process: the destination and the state file survive, the rest is fresh.
    method Restart()
      modifies this
      ensures Contents() == Restarted(old(Contents()))
    {
      batch, batchedBytes, lastInBatch, lastCommitted := [], 0, [], [];
    }

    // Runs until one succeeds, or tries run out.
    method RunUntilDone(startAfter: Str, tries: nat) returns (ok: bool)
      requires IsSource(source)
      modifies this
      ensures Done(Contents(), ok) == RunsOf(source, fate, old(Contents()), startAfter, tries)
    {
      hide RunOf, Trim;
      var cursor := startAfter;
      for i := 0 to tries
        invariant RunsOf(source, fate, old(Contents()), startAfter, tries) == RunsOf(source, fate, Contents(), cursor, tries - i)
      {
        Restart();
        ok := Run(cursor);
        if ok { return; }
        cursor := Trim(saved);
      }
      ok := false;
    }
  }
}
