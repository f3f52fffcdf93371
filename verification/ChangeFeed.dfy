// The change feed (internal/store/changelog.go): every committed event is
// delivered exactly once, and the events of one document in commit order.
module ChangeFeed {
  import opened Bytes
  import opened Values
  import opened FieldPaths
  import opened Transactions
  import opened Protocol
  import opened Serializability

  // ------------------------------------------------------------ transaction ids

  // A running commit's id was handed out, is nobody else's, and so are those of
  // its events.
  ghost predicate XidOk(s: State, c: nat) {
    c in s.running && s.running[c].xid.Some? ==>
      var x := s.running[c].xid.value;
      && 0 < x < s.nextXid && x !in s.open
      && (forall d :: d in s.running && d != c ==> s.running[d].xid != Some(x))
      && (forall e :: e in s.feed ==> e.xid != x)
  }

  ghost predicate EventsOk(r: Running) {
    && (r.events != [] ==> r.states.Some? && r.xid.Some?)
    && (r.states.Some? ==> |r.events| <= |EventNames(r.states.value)|)
    && (forall i :: 0 <= i < |r.events| && r.states.Some? && r.xid.Some? ==>
          i < |EventNames(r.states.value)| && IsEventOf(r, i, r.events[i]))
  }

  // The i-th event tells what the commit did to its i-th document.
  ghost predicate IsEventOf(r: Running, i: nat, e: Event)
    requires r.states.Some? && r.xid.Some? && i < |EventNames(r.states.value)|
  {
    e.xid == r.xid.value && e.name == EventNames(r.states.value)[i] && e.deleted == !StateOf(r, e.name).exists_
  }

  ghost predicate XidInv(s: State) {
    && s.nextXid > 0
    && (forall c :: XidOk(s, c)) && (forall c :: c in s.running ==> EventsOk(s.running[c]))
    && (forall y :: y in s.open ==> 0 < y < s.nextXid)
    && (forall e :: e in s.feed ==> 0 < e.xid < s.nextXid && e.xid !in s.open)
  }

  // ------------------------------------------------------------- commit order

  // Events of one document carry increasing ids, in commit order; and a commit
  // that has an id and the document's lock has a later one than all of them.
  ghost predicate OrderInv(s: State) {
    && (forall i, j :: 0 <= i < j < |s.feed| && s.feed[i].name == s.feed[j].name ==> s.feed[i].xid < s.feed[j].xid)
    && (forall c, e :: c in s.running && s.running[c].xid.Some? && e in s.feed && e.name in LockNames(s.running[c].job)
          ==> e.xid < s.running[c].xid.value)
  }

  // -------------------------------------------------------------- the reader

  // Delivered so far: the wanted events at or below the cursor, all of them, in
  // key order; and the cursor is below the mark.
  ghost predicate ReaderInv(env: Env, s: State) {
    && BelowMark(s, s.reader.xid)
    && (forall e :: e in s.reader.delivered <==> e in s.feed && env.wants(e.name) && !AfterCursor(s.reader, e))
    && (forall i, j :: 0 <= i < j < |s.reader.delivered| ==> EventLess(s.reader.delivered[i], s.reader.delivered[j]))
  }

  ghost predicate FeedInv(env: Env, s: State) { XidInv(s) && OrderInv(s) && ReaderInv(env, s) && KeysInv(s) }

  // ---------------------------------------------------------- steps: the counters

  lemma CountersAfter(env: Env, s: State, step: Step)
    requires Enabled(env, s, step)
    ensures var s' := After(env, s, step);
      && s.nextXid <= s'.nextXid && s.nextSeq <= s'.nextSeq
      && (step.Assign? || step.Open? ==> s'.nextXid == s.nextXid + 1)
      && (!step.Assign? && !step.Open? ==> s'.nextXid == s.nextXid)
      && (forall y :: y in s'.open ==> y in s.open || (step.Open? && y == s.nextXid))
      && (!step.Poll? ==> s'.reader == s.reader)
  {
    hide SortedKeys, Prepare, Persist, IsPage, FreshTimes, NewVersions, Recorded, Observe, Release, EventNames, LocksHeld,
         NextLock, NextEvent, ReaderAfter;
  }

  // A commit keeps its id once it has one, and gets the next one.
  lemma XidAfter(env: Env, s: State, step: Step, d: nat)
    requires Enabled(env, s, step) && d in After(env, s, step).running && After(env, s, step).running[d].xid.Some?
    ensures var x := After(env, s, step).running[d].xid.value;
      (d in s.running && s.running[d].xid == Some(x)) || (step == Assign(d) && x == s.nextXid)
  {
    hide Enabled, After;
    RunningAfter(env, s, step, d);
    if Actor(step) == Some(d) { OwnXid(env, s, step); }
  }

  lemma OwnXid(env: Env, s: State, step: Step)
    requires Enabled(env, s, step) && Actor(step).Some? && Actor(step).value in After(env, s, step).running
    ensures var c := Actor(step).value; var r := After(env, s, step).running[c];
      && (c !in s.running ==> r.xid.None?)
      && (c in s.running && !step.Assign? ==> r.xid == s.running[c].xid)
      && (step.Assign? ==> r.xid == Some(s.nextXid))
  {
    hide Enabled, After, NextEvent, InsertedNext, NextLock;
    if step.Check? || step.Finish? || step.Fail? { EndIs(env, s, step); }
    else if step.Start? { StartIs(env, s, step); }
    else { OwnWorkXid(env, s, step); }
  }

  lemma OwnWorkXid(env: Env, s: State, step: Step)
    requires Enabled(env, s, step) && (step.Acquire? || step.Assign? || step.Append?)
    ensures step.c in s.running && step.c in After(env, s, step).running
    ensures After(env, s, step).running[step.c].xid == if step.Assign? then Some(s.nextXid) else s.running[step.c].xid
  {
    hide SortedKeys, EventNames, NextEvent, InsertedNext, NextLock, Locks, CanLock, CanInsert;
  }

  // The events a commit adds to the feed are its own.
  lemma FeedAfter(env: Env, s: State, step: Step, e: Event)
    requires Enabled(env, s, step) && XidInv(s) && e in After(env, s, step).feed
    ensures e in s.feed || (step.Finish? && step.c in s.running && s.running[step.c].states.Some?
                            && s.running[step.c].xid == Some(e.xid) && e in s.running[step.c].events
                            && e.name in Dirty(s.running[step.c].states.value))
  {
    hide After, SortedKeys, Prepare, Persist, IsPage, FreshTimes, XidOk;
    TableAfter(env, s, step);
    if step.Finish? && e !in s.feed {
      var r := s.running[step.c];
      OwnEvent(r, e);
    }
  }

  lemma OwnEvent(r: Running, e: Event)
    requires EventsOk(r) && e in r.events
    ensures r.states.Some? && r.xid == Some(e.xid) && e.name in Dirty(r.states.value)
  {
    hide SortedKeys;
    var i :| 0 <= i < |r.events| && r.events[i] == e;
    assert EventNames(r.states.value)[i] in EventNames(r.states.value);
  }

  lemma XidStep(env: Env, s: State, step: Step)
    requires XidInv(s) && Enabled(env, s, step)
    ensures XidInv(After(env, s, step))
  {
    hide After, XidOk, EventsOk, Enabled;
    var s' := After(env, s, step);
    CountersAfter(env, s, step);
    forall c ensures XidOk(s', c) { XidOkStep(env, s, step, c); }
    forall c | c in s'.running ensures EventsOk(s'.running[c]) { EventsStep(env, s, step, c); }
    forall e | e in s'.feed ensures 0 < e.xid < s'.nextXid && e.xid !in s'.open {
      FeedAfter(env, s, step, e);
      if e !in s.feed { assert XidOk(s, step.c); RunningXid(s, step.c); }
    }
  }

  lemma RunningXid(s: State, c: nat)
    requires XidOk(s, c) && c in s.running && s.running[c].xid.Some?
    ensures 0 < s.running[c].xid.value < s.nextXid && s.running[c].xid.value !in s.open
  {}

  lemma XidOkStep(env: Env, s: State, step: Step, c: nat)
    requires XidInv(s) && Enabled(env, s, step)
    ensures XidOk(After(env, s, step), c)
  {
    hide After, Enabled, EventsOk;
    var s' := After(env, s, step);
    if c in s'.running && s'.running[c].xid.Some? {
      CountersAfter(env, s, step);
      XidAfter(env, s, step, c);
      var x := s'.running[c].xid.value;
      assert XidOk(s, c);
      forall d | d in s'.running && d != c ensures s'.running[d].xid != Some(x) {
        if s'.running[d].xid.Some? {
          XidAfter(env, s, step, d);
          assert XidOk(s, d);
        }
      }
      forall e | e in s'.feed ensures e.xid != x {
        FeedAfter(env, s, step, e);
        if e !in s.feed { NotOwn(env, s, step, c); }
      }
    }
  }

  lemma NotOwn(env: Env, s: State, step: Step, c: nat)
    requires Enabled(env, s, step) && step.Finish? && c in After(env, s, step).running
    ensures c != step.c
  {
    hide SortedKeys, Prepare, Persist, FreshTimes, NewVersions, EventNames;
  }

  lemma EventsStep(env: Env, s: State, step: Step, c: nat)
    requires XidInv(s) && Enabled(env, s, step) && c in After(env, s, step).running
    ensures EventsOk(After(env, s, step).running[c])
  {
    hide After, Enabled, XidOk, SortedKeys;
    RunningAfter(env, s, step, c);
    if Actor(step) == Some(c) { OwnEvents(env, s, step, c); }
  }

  lemma OwnEvents(env: Env, s: State, step: Step, c: nat)
    requires Enabled(env, s, step) && c in After(env, s, step).running && Actor(step) == Some(c)
    requires c in s.running ==> EventsOk(s.running[c])
    ensures EventsOk(After(env, s, step).running[c])
  {
    hide Enabled, After, Prepare, EventNames, Locks, AppendOf, AcquireOf, IsEventOf, AllAllowed, LocksHeld, FinishOf, NextEvent,
         InsertedNext, CanLock;
    match step
    case Append(_) =>
      AppendIs(env, s, c);
      AppendEvents(s, c);
    case Acquire(_) =>
      AcquireOnly(env, s, c);
      AcquireEvents(env, s, c);
    case Assign(_) => AssignIs(env, s, c);
    case Start(_, _, _, _) => StartIs(env, s, step);
    case Check(_) => CheckIs(env, s, c);
    case _ => EndIs(env, s, step);
  }

  lemma AppendEvents(s: State, c: nat)
    requires c in s.running && s.running[c].states.Some? && s.running[c].xid.Some? && EventsOk(s.running[c])
    requires |s.running[c].events| < |EventNames(s.running[c].states.value)|
    ensures c in AppendOf(s, c).running && EventsOk(AppendOf(s, c).running[c])
  {
    hide EventNames;
  }

  lemma AcquireEvents(env: Env, s: State, c: nat)
    requires c in s.running && s.running[c].acquired < |Locks(s.running[c])| && EventsOk(s.running[c])
    ensures c in AcquireOf(env, s, c).running && EventsOk(AcquireOf(env, s, c).running[c])
  {
    hide EventNames, Locks;
  }

  // ------------------------------------------------------- steps: sequence numbers

  // No two committed events share a position in the feed.
  ghost predicate KeysInv(s: State) {
    && (forall c :: c in s.running ==> SeqsOk(s.nextSeq, s.running[c].events))
    && (forall i, j :: 0 <= i < j < |s.feed| ==> s.feed[i].xid != s.feed[j].xid || s.feed[i].seqNo != s.feed[j].seqNo)
  }

  ghost predicate SeqsOk(next: nat, events: seq<Event>) {
    && (forall i :: 0 <= i < |events| ==> events[i].seqNo < next)
    && (forall i, j :: 0 <= i < j < |events| ==> events[i].seqNo < events[j].seqNo)
  }

  lemma SeqsAfter(env: Env, s: State, step: Step, c: nat)
    requires Enabled(env, s, step) && c in After(env, s, step).running && (c in s.running ==> SeqsOk(s.nextSeq, s.running[c].events))
    ensures SeqsOk(After(env, s, step).nextSeq, After(env, s, step).running[c].events)
  {
    hide After, Enabled;
    EventsAfter(env, s, step, c);
  }

  lemma EventsAfter(env: Env, s: State, step: Step, c: nat)
    requires Enabled(env, s, step) && c in After(env, s, step).running
    ensures var s' := After(env, s, step); var es := s'.running[c].events;
      && s.nextSeq <= s'.nextSeq && (c !in s.running ==> es == [])
      && (c in s.running && es != s.running[c].events ==>
            && s'.nextSeq == s.nextSeq + 1 && |es| > 0
            && es == s.running[c].events + [es[|es| - 1]] && es[|es| - 1].seqNo == s.nextSeq)
  {
    hide Enabled, After, NextCollection, EventNames, NextLock;
    CountersAfter(env, s, step);
    RunningAfter(env, s, step, c);
    if step.Start? { StartIs(env, s, step); }
    else if step.Append? && step.c == c {
      AppendNow(env, s, c);
    } else if Actor(step) == Some(c) {
      OtherWork(env, s, step);
    }
  }

  lemma AppendNow(env: Env, s: State, c: nat)
    requires Enabled(env, s, Append(c))
    ensures c in s.running && c in After(env, s, Append(c)).running
    ensures var s' := After(env, s, Append(c)); var es := s'.running[c].events;
      && s'.nextSeq == s.nextSeq + 1 && |es| > 0
      && es == s.running[c].events + [es[|es| - 1]] && es[|es| - 1].seqNo == s.nextSeq
  {
    hide SortedKeys, EventNames, NextCollection;
    AppendIs(env, s, c);
  }

  lemma OtherWork(env: Env, s: State, step: Step)
    requires Enabled(env, s, step) && Actor(step).Some? && !step.Start? && !step.Append?
    requires Actor(step).value in After(env, s, step).running
    ensures var c := Actor(step).value; c in s.running && After(env, s, step).running[c].events == s.running[c].events
  {
    hide After, Enabled;
    if step.Acquire? || step.Assign? { OtherWorkEvents(env, s, step); } else { EndIs(env, s, step); }
  }

  lemma OtherWorkEvents(env: Env, s: State, step: Step)
    requires Enabled(env, s, step) && (step.Acquire? || step.Assign?)
    ensures step.c in s.running && step.c in After(env, s, step).running
    ensures After(env, s, step).running[step.c].events == s.running[step.c].events
  {
    hide SortedKeys, NextLock, Locks, CanLock;
  }

  lemma KeysStep(env: Env, s: State, step: Step)
    requires XidInv(s) && KeysInv(s) && Enabled(env, s, step)
    ensures KeysInv(After(env, s, step))
  {
    hide After, Enabled, XidInv, SeqsOk;
    var s' := After(env, s, step);
    forall c | c in s'.running ensures SeqsOk(s'.nextSeq, s'.running[c].events) { SeqsAfter(env, s, step, c); }
    FeedKept(env, s, step);
    forall i, j | 0 <= i < j < |s'.feed| ensures s'.feed[i].xid != s'.feed[j].xid || s'.feed[i].seqNo != s'.feed[j].seqNo {
      KeyPair(env, s, step, i, j);
    }
  }

  lemma KeyPair(env: Env, s: State, step: Step, i: nat, j: nat)
    requires XidInv(s) && KeysInv(s) && Enabled(env, s, step) && s.feed <= After(env, s, step).feed
    requires i < j < |After(env, s, step).feed|
    ensures var f := After(env, s, step).feed; f[i].xid != f[j].xid || f[i].seqNo != f[j].seqNo
  {
    hide After, Enabled, EventsOk;
    var f := After(env, s, step).feed;
    if j >= |s.feed| {
      NewEvent(env, s, step, j);
      var r := s.running[step.c];
      assert f[j] in r.events;
      OwnEvent(r, f[j]);
      assert XidOk(s, step.c);
      if i < |s.feed| {
        assert f[i] == s.feed[i] && f[i] in s.feed;
      } else {
        NewEvent(env, s, step, i);
        assert SeqsOk(s.nextSeq, r.events);
      }
    }
  }

  // ------------------------------------------------------------ steps: the mark

  // Once below the mark, always below it.
  lemma MarkStays(env: Env, s: State, step: Step, x: nat)
    requires Enabled(env, s, step) && BelowMark(s, x)
    ensures BelowMark(After(env, s, step), x)
  {
    hide After, Enabled;
    var s' := After(env, s, step);
    CountersAfter(env, s, step);
    forall c | c in s'.running && s'.running[c].xid.Some? ensures x < s'.running[c].xid.value {
      XidAfter(env, s, step, c);
    }
  }

  // What commits now was above it.
  lemma NewAboveMark(env: Env, s: State, step: Step, x: nat, e: Event)
    requires Enabled(env, s, step) && XidInv(s) && BelowMark(s, x) && e in After(env, s, step).feed && e !in s.feed
    ensures x < e.xid
  {
    hide After, Enabled, XidInv;
    FeedAfter(env, s, step, e);
  }

  lemma FeedKept(env: Env, s: State, step: Step)
    requires Enabled(env, s, step)
    ensures s.feed <= After(env, s, step).feed
  {
    hide After, SortedKeys, Prepare, Persist, IsPage, FreshTimes, EventNames;
    TableAfter(env, s, step);
  }

  // ---------------------------------------------------------- steps: the order

  lemma OrderStep(env: Env, s: State, step: Step)
    requires LockInv(env, s) && XidInv(s) && OrderInv(s) && Enabled(env, s, step)
    ensures OrderInv(After(env, s, step))
  {
    hide After, Enabled, LockInv, XidInv, LockNames;
    var s' := After(env, s, step);
    FeedKept(env, s, step);
    forall i, j | 0 <= i < j < |s'.feed| && s'.feed[i].name == s'.feed[j].name ensures s'.feed[i].xid < s'.feed[j].xid {
      PairStep(env, s, step, i, j);
    }
    forall c, e | c in s'.running && s'.running[c].xid.Some? && e in s'.feed && e.name in LockNames(s'.running[c].job)
      ensures e.xid < s'.running[c].xid.value
    {
      LockedStep(env, s, step, c, e);
    }
  }

  lemma LockedStep(env: Env, s: State, step: Step, c: nat, e: Event)
    requires LockInv(env, s) && XidInv(s) && OrderInv(s) && Enabled(env, s, step)
    requires var s' := After(env, s, step);
      c in s'.running && s'.running[c].xid.Some? && e in s'.feed && e.name in LockNames(s'.running[c].job)
    ensures e.xid < After(env, s, step).running[c].xid.value
  {
    hide After, Enabled, LockInv, XidOk, EventsOk, LockNames;
    XidAfter(env, s, step, c);
    RunningAfter(env, s, step, c);
    FeedAfter(env, s, step, e);
    if e !in s.feed {
      NotOwn(env, s, step, c);
      SharedName(env, s, step.c, c, e.name);
      assert false;
    }
  }

  // Two commits past their locks share no document one of them wrote.
  lemma SharedName(env: Env, s: State, c: nat, d: nat, n: Str)
    requires LockInv(env, s) && c in s.running && d in s.running && s.running[c].states.Some? && s.running[d].xid.Some?
    requires n in Dirty(s.running[c].states.value) && n in LockNames(s.running[d].job)
    ensures c == d
  {
    hide SortedKeys, Prepare, HoldsLocks;
    assert CheckHolds(s.table, s.running[c]) && CheckHolds(s.table, s.running[d]);
    PrepareWrites(s.table, s.running[c].job, n);
    Exclusive(env, s, c, d, n);
  }

  lemma PairStep(env: Env, s: State, step: Step, i: nat, j: nat)
    requires LockInv(env, s) && XidInv(s) && OrderInv(s) && Enabled(env, s, step) && s.feed <= After(env, s, step).feed
    requires var f := After(env, s, step).feed; i < j < |f| && f[i].name == f[j].name
    ensures After(env, s, step).feed[i].xid < After(env, s, step).feed[j].xid
  {
    hide After, Enabled, LockInv, XidOk, EventsOk, LockNames;
    TableAfter(env, s, step);
    var f := After(env, s, step).feed;
    if j >= |s.feed| {
      NewEvent(env, s, step, j);
      if i < |s.feed| {
        assert f[i] == s.feed[i];
        OlderEvent(env, s, step.c, f[i], f[j]);
      } else {
        NewEvent(env, s, step, i);
        SameCommitNames(s.running[step.c], i - |s.feed|, j - |s.feed|);
        assert false;
      }
    }
  }

  lemma NewEvent(env: Env, s: State, step: Step, j: nat)
    requires XidInv(s) && Enabled(env, s, step) && |s.feed| <= j < |After(env, s, step).feed|
    ensures step.Finish? && step.c in s.running && s.running[step.c].states.Some?
    ensures EventsOk(s.running[step.c]) && j - |s.feed| < |s.running[step.c].events|
    ensures After(env, s, step).feed[j] == s.running[step.c].events[j - |s.feed|]
  {
    hide After, SortedKeys, Prepare, Persist, IsPage, FreshTimes, XidOk, EventsOk;
    TableAfter(env, s, step);
  }

  lemma OlderEvent(env: Env, s: State, c: nat, a: Event, b: Event)
    requires LockInv(env, s) && XidInv(s) && OrderInv(s) && c in s.running
    requires a in s.feed && b in s.running[c].events && a.name == b.name
    ensures a.xid < b.xid
  {
    hide SortedKeys, Prepare, HoldsLocks, XidOk;
    assert CheckHolds(s.table, s.running[c]);
    OwnEvent(s.running[c], b);
    PrepareWrites(s.table, s.running[c].job, b.name);
  }

  lemma SameCommitNames(r: Running, i: nat, j: nat)
    requires EventsOk(r) && i < j < |r.events|
    ensures r.events[i].name != r.events[j].name
  {
    hide SortedKeys;
    var names := EventNames(r.states.value);
    assert Less(names[i], names[j]);
    CompareRefl(names[i]);
  }

  // --------------------------------------------------------- steps: the reader

  lemma ReaderStep(env: Env, s: State, step: Step)
    requires XidInv(s) && ReaderInv(env, s) && Enabled(env, s, step)
    ensures ReaderInv(env, After(env, s, step))
  {
    hide After, XidInv;
    var s' := After(env, s, step);
    if step.Poll? {
      PollStep(env, s, step.limit, step.page);
      PollIs(env, s, step.limit, step.page);
    } else {
      CountersAfter(env, s, step);
      MarkStays(env, s, step, s.reader.xid);
      FeedKept(env, s, step);
      NothingLate(env, s, step);
    }
  }

  lemma NothingLate(env: Env, s: State, step: Step)
    requires XidInv(s) && Enabled(env, s, step) && BelowMark(s, s.reader.xid)
    ensures forall e :: e in After(env, s, step).feed && !AfterCursor(s.reader, e) ==> e in s.feed
  {
    hide After, XidInv, Enabled;
    forall e | e in After(env, s, step).feed && e !in s.feed ensures AfterCursor(s.reader, e) {
      NewAboveMark(env, s, step, s.reader.xid, e);
    }
  }

  lemma PollIs(env: Env, s: State, limit: int, page: seq<Event>)
    requires Enabled(env, s, Poll(limit, page))
    ensures After(env, s, Poll(limit, page)) == s.(reader := ReaderAfter(s.reader, page))
  {}

  lemma PollStep(env: Env, s: State, limit: int, page: seq<Event>)
    requires ReaderInv(env, s) && IsPage(env, s, limit, page)
    ensures ReaderInv(env, s.(reader := ReaderAfter(s.reader, page)))
  {
    if page != [] {
      var last, r := page[|page| - 1], ReaderAfter(s.reader, page);
      var s' := s.(reader := r);
      assert last in page && Due(env, s, last);
      forall e ensures e in r.delivered <==> e in s.feed && env.wants(e.name) && !AfterCursor(r, e) {
        PolledEvent(env, s, limit, page, e);
      }
      PolledOrder(env, s, limit, page);
    }
  }

  lemma PolledEvent(env: Env, s: State, limit: int, page: seq<Event>, e: Event)
    requires ReaderInv(env, s) && IsPage(env, s, limit, page) && page != []
    ensures var r := ReaderAfter(s.reader, page); e in r.delivered <==> e in s.feed && env.wants(e.name) && !AfterCursor(r, e)
  {
    var last, r := page[|page| - 1], ReaderAfter(s.reader, page);
    assert Due(env, s, last);
    assert e in r.delivered <==> e in s.reader.delivered || e in page;
    if e in page {
      var i :| 0 <= i < |page| && page[i] == e;
      assert Due(env, s, page[i]);
    } else if e in s.feed && env.wants(e.name) && !AfterCursor(r, e) && AfterCursor(s.reader, e) {
      assert Due(env, s, e);
      assert false;
    }
  }

  lemma PolledOrder(env: Env, s: State, limit: int, page: seq<Event>)
    requires ReaderInv(env, s) && IsPage(env, s, limit, page)
    ensures var d := s.reader.delivered + page; forall i, j :: 0 <= i < j < |d| ==> EventLess(d[i], d[j])
  {
    var old_, d := s.reader.delivered, s.reader.delivered + page;
    forall i, j | 0 <= i < |old_| && 0 <= j < |page| ensures EventLess(old_[i], page[j]) {
      assert old_[i] in old_ && Due(env, s, page[j]);
    }
  }

  // ------------------------------------------------------------------- theorems

  lemma {:induction false} RunFeeds(env: Env, states: seq<State>, steps: seq<Step>)
    requires IsBehavior(env, states, steps)
    ensures FeedInv(env, states[|steps|])
    decreases |steps|
  {
    hide Enabled, After, LockInv, VersionInv, XidInv, OrderInv, ReaderInv, KeysInv;
    var n := |steps|;
    if n == 0 {
      InitialFeed(env, states[0]);
    } else {
      PrefixBehavior(env, states, steps, n - 1);
      RunKeeps(env, states[..n], steps[..n - 1]);
      RunFeeds(env, states[..n], steps[..n - 1]);
      XidStep(env, states[n - 1], steps[n - 1]);
      OrderStep(env, states[n - 1], steps[n - 1]);
      ReaderStep(env, states[n - 1], steps[n - 1]);
      KeysStep(env, states[n - 1], steps[n - 1]);
    }
  }

  lemma InitialFeed(env: Env, s: State)
    requires Initial(s)
    ensures FeedInv(env, s)
  {}

  // Exactly once: what was delivered is every committed event the reader wants at
  // or below its cursor, each of them once, by transaction id and then by sequence
  // number.
  lemma ExactlyOnce(env: Env, states: seq<State>, steps: seq<Step>)
    requires IsBehavior(env, states, steps)
    ensures var s := states[|steps|];
      && (forall e :: e in s.reader.delivered <==> e in s.feed && env.wants(e.name) && !AfterCursor(s.reader, e))
      && (forall i, j :: 0 <= i < j < |s.reader.delivered| ==> EventLess(s.reader.delivered[i], s.reader.delivered[j]))
  {
    hide Enabled, After, XidInv, OrderInv, Initial;
    RunFeeds(env, states, steps);
  }

  // The position of an event is its transaction id, then its sequence number.
  lemma PositionOrder(a: Event, b: Event, r: Reader)
    ensures EventLess(a, b) <==> a.xid < b.xid || (a.xid == b.xid && a.seqNo < b.seqNo)
    ensures AfterCursor(r, a) <==> a.xid > r.xid || (a.xid == r.xid && a.seqNo > r.seqNo)
  {}

  // Nothing at or below the cursor commits later.
  lemma {:induction false} NothingCommitsBelow(env: Env, states: seq<State>, steps: seq<Step>, i: nat)
    requires IsBehavior(env, states, steps) && i <= |steps|
    ensures BelowMark(states[|steps|], states[i].reader.xid)
    ensures forall e :: e in states[|steps|].feed && !AfterCursor(states[i].reader, e) ==> e in states[i].feed
    decreases |steps|
  {
    hide Enabled, After, XidInv, OrderInv, Initial, BelowMark;
    var n := |steps|;
    if i == n {
      RunFeeds(env, states, steps);
      ReaderBelow(env, states[n]);
    } else {
      PrefixBehavior(env, states, steps, n - 1);
      NothingCommitsBelow(env, states[..n], steps[..n - 1], i);
      RunFeeds(env, states[..n], steps[..n - 1]);
      var s, x := states[n - 1], states[i].reader.xid;
      MarkStays(env, s, steps[n - 1], x);
      forall e | e in states[n].feed && !AfterCursor(states[i].reader, e) ensures e in states[i].feed {
        if e !in s.feed { NewAboveMark(env, s, steps[n - 1], x, e); }
      }
    }
  }

  lemma ReaderBelow(env: Env, s: State)
    requires FeedInv(env, s)
    ensures BelowMark(s, s.reader.xid)
  {}

  // The events of one document are delivered in the order their commits took
  // effect.
  lemma DeliveredInCommitOrder(env: Env, states: seq<State>, steps: seq<Step>, i: nat, j: nat, p: nat, q: nat)
    requires IsBehavior(env, states, steps)
    requires var s := states[|steps|];
      && i < j < |s.feed| && s.feed[i].name == s.feed[j].name
      && p < |s.reader.delivered| && q < |s.reader.delivered|
      && s.reader.delivered[p] == s.feed[i] && s.reader.delivered[q] == s.feed[j]
    ensures p < q
  {
    hide Enabled, After, XidInv, Initial, BelowMark;
    RunFeeds(env, states, steps);
  }

  // A page that is not full leaves nothing wanted below the mark undelivered.
  lemma CaughtUp(env: Env, s: State, limit: int, page: seq<Event>, e: Event)
    requires FeedInv(env, s) && IsPage(env, s, limit, page) && |page| < PageLimit(limit)
    requires e in s.feed && env.wants(e.name) && BelowMark(s, e.xid)
    ensures e in ReaderAfter(s.reader, page).delivered
  {
    hide XidInv, OrderInv;
    if AfterCursor(s.reader, e) { assert Due(env, s, e); }
  }

  // A commit's events name each document it changed, once, and how.
  lemma EventsOfCommit(env: Env, states: seq<State>, steps: seq<Step>, c: nat)
    requires IsBehavior(env, states, steps) && Enabled(env, states[|steps|], Finish(c))
    ensures var r := states[|steps|].running[c];
      && (forall e :: e in r.events ==> e.name in Dirty(r.states.value) && e.deleted == !r.states.value[e.name].exists_)
      && (forall n :: n in Dirty(r.states.value) ==> exists e :: e in r.events && e.name == n)
      && (forall i, j :: 0 <= i < j < |r.events| ==> r.events[i].name != r.events[j].name)
  {
    hide After, Initial, OrderInv, ReaderInv, SortedKeys, FreshTimes, Locks, Prepare;
    RunFeeds(env, states, steps);
    var r := states[|steps|].running[c];
    var names := EventNames(r.states.value);
    forall e | e in r.events ensures e.name in Dirty(r.states.value) && e.deleted == !r.states.value[e.name].exists_ {
      OwnEvent(r, e);
    }
    forall n | n in Dirty(r.states.value) ensures exists e :: e in r.events && e.name == n {
      assert n in names;
      var i :| 0 <= i < |names| && names[i] == n;
      assert r.events[i] in r.events && r.events[i].name == n;
    }
    forall i, j | 0 <= i < j < |r.events| ensures r.events[i].name != r.events[j].name { SameCommitNames(r, i, j); }
  }

  // ------------------------------------------------------- there is always a page

  ghost predicate IsDue(env: Env, s: State, due: set<Event>) { forall e :: e in due <==> Due(env, s, e) }

  // No two of them at one position.
  ghost predicate Apart(due: set<Event>) { forall a, b :: a in due && b in due && a != b ==> EventLess(a, b) || EventLess(b, a) }

  lemma {:induction false} FirstDue(due: set<Event>) returns (f: Event)
    requires due != {} && Apart(due)
    ensures f in due && forall e :: e in due && e != f ==> EventLess(f, e)
    decreases |due|
  {
    var a :| a in due;
    var rest := due - {a};
    if rest == {} {
      forall e | e in due ensures e == a { assert e !in rest; }
      f := a;
      return;
    }
    var g := FirstDue(rest);
    assert g in due && g != a && (EventLess(g, a) || EventLess(a, g));
    f := if EventLess(g, a) then g else a;
    forall e | e in due && e != f ensures EventLess(f, e) {
      if e != a && e != g { assert e in rest && EventLess(g, e); }
    }
  }

  // A list of due events that is a page of at most n.
  ghost predicate Lists(due: set<Event>, n: nat, page: seq<Event>) {
    && |page| <= n && (|page| < n ==> forall e :: e in due ==> e in page)
    && (forall i :: 0 <= i < |page| ==> page[i] in due)
    && (forall i, j :: 0 <= i < j < |page| ==> EventLess(page[i], page[j]))
    && (forall e :: e in due && e !in page ==> forall i :: 0 <= i < |page| ==> EventLess(page[i], e))
  }

  lemma {:induction false} ListDue(due: set<Event>, n: nat) returns (page: seq<Event>)
    requires Apart(due)
    ensures Lists(due, n, page)
    decreases n
  {
    if n == 0 || due == {} {
      page := [];
    } else {
      var f := FirstDue(due);
      var rest := ListDue(due - {f}, n - 1);
      page := [f] + rest;
      forall i, j | 0 <= i < j < |page| ensures EventLess(page[i], page[j]) {
        assert page[j] == rest[j - 1] && rest[j - 1] in due - {f};
        if i > 0 { assert page[i] == rest[i - 1]; }
      }
      forall i | 0 <= i < |page| ensures page[i] in due {
        if i > 0 { assert page[i] == rest[i - 1] && rest[i - 1] in due - {f}; }
      }
      if |page| < n {
        forall e | e in due ensures e in page {
          if e != f {
            assert e in rest;
            var i :| 0 <= i < |rest| && rest[i] == e;
            assert page[i + 1] == e;
          }
        }
      }
      forall e | e in due && e !in page ensures forall i :: 0 <= i < |page| ==> EventLess(page[i], e) {
        forall i | 0 <= i < |page| ensures EventLess(page[i], e) {
          if i > 0 { assert page[i] == rest[i - 1]; }
        }
      }
    }
  }

  // Whatever the reader has been delivered, and whatever limit it asks for, there is a
  // page to be read; and it is not empty while a wanted event below the mark is due.
  lemma PageExists(env: Env, states: seq<State>, steps: seq<Step>, limit: int) returns (page: seq<Event>)
    requires IsBehavior(env, states, steps)
    ensures IsPage(env, states[|steps|], limit, page)
    ensures (exists e :: Due(env, states[|steps|], e)) ==> page != []
  {
    hide Enabled, After, Initial, XidInv, OrderInv, ReaderInv, Due;
    RunFeeds(env, states, steps);
    var s := states[|steps|];
    var due := DueSet(env, s);
    page := ListDue(due, PageLimit(limit));
    forall e ensures Due(env, s, e) <==> e in due {}
  }

  lemma DueSet(env: Env, s: State) returns (due: set<Event>)
    requires KeysInv(s)
    ensures IsDue(env, s, due) && Apart(due)
  {
    due := set e | e in s.feed && Due(env, s, e);
    forall a, b | a in due && b in due && a != b ensures EventLess(a, b) || EventLess(b, a) {
      var i :| 0 <= i < |s.feed| && s.feed[i] == a;
      var j :| 0 <= j < |s.feed| && s.feed[j] == b;
      if i < j { assert s.feed[i].xid != s.feed[j].xid || s.feed[i].seqNo != s.feed[j].seqNo; }
      else { assert s.feed[j].xid != s.feed[i].xid || s.feed[j].seqNo != s.feed[i].seqNo; }
    }
  }
}
