// Which reads a transaction's commit answers for: over whole runs, the first recorded
// read of each document, as the table was when it was served (internal/store/txn.go,
// the version check in internal/store/store.go).
module Reads {
  import opened Bytes
  import opened Values
  import opened FieldPaths
  import opened Transforms
  import opened Transactions
  import opened Protocol
  import opened Serializability

  // Step k records a read of the document for the transaction; this is what was read.
  ghost predicate RecordsAt(states: seq<State>, steps: seq<Step>, k: nat, t: TxnId, n: Str) {
    && k < |steps| && k < |states| && steps[k].Record? && steps[k].i < |states[k].observed|
    && states[k].observed[steps[k].i].txn == t && n in states[k].observed[steps[k].i].seen
  }

  ghost function RecordedAt(states: seq<State>, steps: seq<Step>, k: nat, t: TxnId, n: Str): Option<Stored>
    requires RecordsAt(states, steps, k, t, n)
  {
    states[k].observed[steps[k].i].seen[n]
  }

  // The first step in the span that records a read of the document.
  ghost predicate FirstRecord(states: seq<State>, steps: seq<Step>, b: nat, m: nat, t: TxnId, n: Str, k: nat) {
    b < k < m && RecordsAt(states, steps, k, t, n) && forall j :: b < j < k ==> !RecordsAt(states, steps, j, t, n)
  }

  // Some step in the span records one.
  ghost predicate AnyRecord(states: seq<State>, steps: seq<Step>, b: nat, m: nat, t: TxnId, n: Str) {
    exists k :: b < k < m && RecordsAt(states, steps, k, t, n)
  }

  // The transaction is open all along: begun at step b, not rolled back and not
  // committed before step m.
  ghost predicate OpenSpan(steps: seq<Step>, b: nat, m: nat, t: TxnId) {
    && b < m <= |steps| && steps[b] == Begin(t)
    && forall j :: b < j < m ==> steps[j] != Rollback(t) && (steps[j].Start? ==> steps[j].txn != Some(t))
  }

  // ------------------------------------------------------- what was observed

  // Every observation is of the table as it was at the step that served the read.
  ghost predicate Served(states: seq<State>, steps: seq<Step>, m: nat, o: Observation) {
    exists j :: 0 <= j < m && ServedAt(states, steps, j, o)
  }

  ghost predicate ServedAt(states: seq<State>, steps: seq<Step>, j: nat, o: Observation) {
    && j < |steps| && j < |states| && steps[j].Read? && steps[j].t == o.txn
    && o.seen.Keys == steps[j].names && forall n :: n in o.seen ==> o.seen[n] == Lookup(states[j].table, n)
  }

  lemma {:induction false} ObservedServed(env: Env, states: seq<State>, steps: seq<Step>, m: nat)
    requires IsBehavior(env, states, steps) && m <= |steps|
    ensures forall i :: 0 <= i < |states[m].observed| ==> Served(states, steps, m, states[m].observed[i])
    decreases m
  {
    hide Enabled, After, ServedAt;
    if m > 0 {
      ObservedServed(env, states, steps, m - 1);
      ObservedGrows(env, states[m - 1], steps[m - 1]);
      forall i | 0 <= i < |states[m].observed| ensures Served(states, steps, m, states[m].observed[i]) {
        var o := states[m].observed[i];
        if i < |states[m - 1].observed| {
          var j :| 0 <= j < m - 1 && ServedAt(states, steps, j, o);
        } else {
          NewServed(states, steps, m - 1, o);
        }
      }
    } else {
      NothingObserved(states[0]);
    }
  }

  lemma NothingObserved(s: State)
    requires Initial(s)
    ensures s.observed == []
  {}

  lemma NewServed(states: seq<State>, steps: seq<Step>, j: nat, o: Observation)
    requires j < |steps| && j < |states| && steps[j].Read? && o == Observation(steps[j].t, Observe(states[j].table, steps[j].names))
    ensures ServedAt(states, steps, j, o)
  {}

  lemma ObservedGrows(env: Env, s: State, step: Step)
    requires Enabled(env, s, step)
    ensures After(env, s, step).observed ==
      s.observed + if step.Read? then [Observation(step.t, Observe(s.table, step.names))] else []
  {
    hide Enabled, After, Persist, NewVersions, Release, Observe;
    if step.Acquire? || step.Assign? || step.Append? { WorkFrame(env, s, step); }
    else if step.Check? || step.Finish? || step.Fail? { EndFrame(env, s, step); }
    else { IdleObserved(env, s, step); }
  }

  lemma IdleObserved(env: Env, s: State, step: Step)
    requires Enabled(env, s, step) && (Actor(step).None? || step.Start?)
    ensures After(env, s, step).observed ==
      s.observed + if step.Read? then [Observation(step.t, Observe(s.table, step.names))] else []
  {
    hide Observe, Recorded, IsPage, AllAllowed, ReaderAfter;
  }

  // ------------------------------------------------------- what is recorded

  lemma TxnOther(env: Env, s: State, step: Step, t: TxnId)
    requires Enabled(env, s, step) && step != Begin(t) && step != Rollback(t) && (step.Start? ==> step.txn != Some(t))
    requires t in s.txns
    ensures var s' := After(env, s, step);
      && t in s'.txns
      && s'.txns[t] == if step.Record? && s.observed[step.i].txn == t then Recorded(s.txns[t], s.observed[step.i]) else s.txns[t]
  {
    hide Enabled, After, Persist, NewVersions, Release, Recorded, FinishOf;
    if step.Acquire? || step.Assign? || step.Append? { WorkFrame(env, s, step); }
    else if step.Check? || step.Finish? || step.Fail? { EndTxns(env, s, step); }
    else { IdleTxns(env, s, step, t); }
  }

  lemma EndTxns(env: Env, s: State, step: Step)
    requires Enabled(env, s, step) && (step.Check? || step.Finish? || step.Fail?)
    ensures !(step.Record?) && After(env, s, step).txns == s.txns
  {
    hide Enabled, After, Persist, NewVersions, Release;
    EndFrame(env, s, step);
  }

  lemma IdleTxns(env: Env, s: State, step: Step, t: TxnId)
    requires Enabled(env, s, step) && step != Begin(t) && step != Rollback(t) && (step.Start? ==> step.txn != Some(t))
    requires t in s.txns && (Actor(step).None? || step.Start?)
    ensures var s' := After(env, s, step);
      && t in s'.txns
      && s'.txns[t] == if step.Record? && s.observed[step.i].txn == t then Recorded(s.txns[t], s.observed[step.i]) else s.txns[t]
  {
    hide Observe, Recorded, IsPage, AllAllowed, ReaderAfter;
  }

  lemma RecordKnown(env: Env, s: State, step: Step)
    requires Enabled(env, s, step) && step.Record?
    ensures step.i < |s.observed| && s.observed[step.i].txn in s.txns
  {}

  lemma BeginEmpty(env: Env, s: State, t: TxnId)
    requires Enabled(env, s, Begin(t))
    ensures t !in s.txns && After(env, s, Begin(t)).txns == s.txns[t := Txn(map[], map[])]
  {}

  // The transaction knows exactly the documents a step recorded since it began, each as
  // the first of them read it, with the version it had then.
  ghost predicate Knows(states: seq<State>, steps: seq<Step>, b: nat, m: nat, t: TxnId, n: Str)
    requires m < |states| && t in states[m].txns
  {
    var x := states[m].txns[t];
    && (n in x.seen <==> AnyRecord(states, steps, b, m, t, n))
    && (n in x.verify <==> n in x.seen)
    && forall k :: FirstRecord(states, steps, b, m, t, n, k) ==>
      n in x.seen && n in x.verify
      && x.seen[n] == RecordedAt(states, steps, k, t, n) && x.verify[n] == VersionOf(RecordedAt(states, steps, k, t, n))
  }

  lemma {:induction false} SpanKnows(env: Env, states: seq<State>, steps: seq<Step>, b: nat, m: nat, t: TxnId, n: Str)
    requires IsBehavior(env, states, steps) && OpenSpan(steps, b, m, t)
    ensures t in states[m].txns && Knows(states, steps, b, m, t, n)
    decreases m
  {
    hide Enabled, After, Knows, FirstRecord, RecordsAt;
    if m == b + 1 {
      BeginEmpty(env, states[b], t);
      EmptyKnows(states, steps, b, t, n);
    } else {
      SpanKnows(env, states, steps, b, m - 1, t, n);
      var s, step := states[m - 1], steps[m - 1];
      TxnOpen(env, states, steps, b, m, t);
      TxnOther(env, s, step, t);
      if step.Record? {
        RecordKnown(env, s, step);
        RecordKnows(states, steps, b, m, t, n);
      } else {
        StillKnows(states, steps, b, m, t, n);
      }
    }
  }

  lemma TxnOpen(env: Env, states: seq<State>, steps: seq<Step>, b: nat, m: nat, t: TxnId)
    requires IsBehavior(env, states, steps) && OpenSpan(steps, b, m, t) && b + 1 < m && t in states[m - 1].txns
    ensures steps[m - 1] != Begin(t)
  {
    hide After;
    assert Enabled(env, states[m - 1], steps[m - 1]);
  }

  lemma EmptyKnows(states: seq<State>, steps: seq<Step>, b: nat, t: TxnId, n: Str)
    requires b + 1 < |states| && t in states[b + 1].txns && states[b + 1].txns[t] == Txn(map[], map[])
    ensures Knows(states, steps, b, b + 1, t, n)
  {}

  // One more step: where it records nothing, nothing changes; where it does, it is the
  // first only when there was none.
  lemma FirstNext(states: seq<State>, steps: seq<Step>, b: nat, m: nat, t: TxnId, n: Str)
    requires b < m
    ensures AnyRecord(states, steps, b, m + 1, t, n) <==> AnyRecord(states, steps, b, m, t, n) || RecordsAt(states, steps, m, t, n)
    ensures forall k :: FirstRecord(states, steps, b, m + 1, t, n, k) <==>
      FirstRecord(states, steps, b, m, t, n, k) || (k == m && RecordsAt(states, steps, m, t, n) && !AnyRecord(states, steps, b, m, t, n))
  {
    hide RecordsAt;
    forall k: nat
      ensures FirstRecord(states, steps, b, m + 1, t, n, k) <==>
        FirstRecord(states, steps, b, m, t, n, k) || (k == m && RecordsAt(states, steps, m, t, n) && !AnyRecord(states, steps, b, m, t, n))
    {
      if k == m && RecordsAt(states, steps, m, t, n) {
        assert AnyRecord(states, steps, b, m, t, n) <==> !FirstRecord(states, steps, b, m + 1, t, n, m);
      }
    }
  }

  lemma StillKnows(states: seq<State>, steps: seq<Step>, b: nat, m: nat, t: TxnId, n: Str)
    requires b + 1 < m < |states| && m <= |steps| && t in states[m - 1].txns && t in states[m].txns
    requires Knows(states, steps, b, m - 1, t, n) && !steps[m - 1].Record? && states[m].txns[t] == states[m - 1].txns[t]
    ensures Knows(states, steps, b, m, t, n)
  {
    hide FirstRecord, AnyRecord, RecordedAt;
    FirstNext(states, steps, b, m - 1, t, n);
    FirstRecords(states, steps, b, m, t, n);
  }

  lemma RecordKnows(states: seq<State>, steps: seq<Step>, b: nat, m: nat, t: TxnId, n: Str)
    requires b + 1 < m < |states| && m <= |steps| && t in states[m - 1].txns && t in states[m].txns
    requires Knows(states, steps, b, m - 1, t, n) && steps[m - 1].Record? && steps[m - 1].i < |states[m - 1].observed|
    requires var s, o := states[m - 1], states[m - 1].observed[steps[m - 1].i];
      states[m].txns[t] == if o.txn == t then Recorded(s.txns[t], o) else s.txns[t]
    ensures Knows(states, steps, b, m, t, n)
  {
    hide FirstRecord, AnyRecord;
    FirstNext(states, steps, b, m - 1, t, n);
    FirstRecords(states, steps, b, m, t, n);
    FirstRecords(states, steps, b, m - 1, t, n);
  }

  lemma FirstRecords(states: seq<State>, steps: seq<Step>, b: nat, m: nat, t: TxnId, n: Str)
    ensures forall k :: FirstRecord(states, steps, b, m, t, n, k) ==> RecordsAt(states, steps, k, t, n) && AnyRecord(states, steps, b, m, t, n)
  {
    hide RecordsAt;
  }

  // ------------------------------------------------------- what a commit answers for

  lemma StartTakes(env: Env, s: State, step: Step)
    requires Enabled(env, s, step) && step.Start?
    ensures var s' := After(env, s, step);
      && step.c !in s.running && step.c in s'.running
      && s'.running[step.c].job.writes == step.writes && s'.running[step.c].job.time == step.time
      && (step.txn.None? ==> s'.running[step.c].job.seen == map[] && s'.running[step.c].job.verify == map[] && s'.txns == s.txns)
      && (step.txn.Some? ==>
            && step.txn.value in s.txns && step.txn.value !in s'.txns
            && s'.running[step.c].job.seen == s.txns[step.txn.value].seen
            && s'.running[step.c].job.verify == s.txns[step.txn.value].verify)
  {
    hide AllAllowed;
  }

  // A commit keeps its job from its start to its end.
  lemma {:induction false} JobKept(env: Env, states: seq<State>, steps: seq<Step>, c: nat, m: nat, f: nat)
    requires IsBehavior(env, states, steps) && m < f <= |steps| && steps[m].Start? && steps[m].c == c && c in states[f].running
    requires forall j :: m < j < f ==> !(steps[j].Start? && steps[j].c == c)
    ensures c in states[m + 1].running && states[f].running[c].job == states[m + 1].running[c].job
    decreases f
  {
    hide Enabled, After;
    if f > m + 1 {
      RunningAfter(env, states[f - 1], steps[f - 1], c);
      JobKept(env, states, steps, c, m, f - 1);
    }
  }

  // A transaction begun at step b and committed by the start at step m: when that
  // commit takes effect at step f, the first read of every document recorded in
  // between is the value the document still has, and the version the check compared.
  lemma FirstReadsHold(env: Env, states: seq<State>, steps: seq<Step>, b: nat, m: nat, f: nat, t: TxnId, n: Str, k: nat)
    returns (j: nat)
    requires IsBehavior(env, states, steps) && OpenSpan(steps, b, m, t) && m < f < |steps|
    requires steps[m].Start? && steps[m].txn == Some(t) && steps[f] == Finish(steps[m].c)
    requires forall i :: m < i < f ==> !(steps[i].Start? && steps[i].c == steps[m].c)
    requires FirstRecord(states, steps, b, m, t, n, k)
    ensures j < k && steps[j].Read? && steps[j].t == t && n in steps[j].names
    ensures RecordedAt(states, steps, k, t, n) == Lookup(states[j].table, n)
    ensures Lookup(states[f].table, n) == Lookup(states[j].table, n)
    ensures steps[m].c in states[f].running
    ensures var job := states[f].running[steps[m].c].job;
      && n in job.seen && job.seen[n] == Lookup(states[j].table, n)
      && n in job.verify && job.verify[n] == VersionOf(Lookup(states[j].table, n))
  {
    hide Enabled, After, LockInv, VersionInv, Explains, Initial, Knows, Served;
    var c := steps[m].c;
    SpanKnows(env, states, steps, b, m, t, n);
    assert Knows(states, steps, b, m, t, n);
    KnownFirst(states, steps, b, m, t, n, k);
    StartTakes(env, states[m], steps[m]);
    FinishEnabled(env, states[f], c);
    JobKept(env, states, steps, c, m, f);
    PrefixBehavior(env, states, steps, f);
    RunKeeps(env, states[..f + 1], steps[..f]);
    FinishIsSerial(env, states[f], c);
    ObservedServed(env, states, steps, k);
    j := ServedStep(states, steps, k, t, n);
  }

  lemma KnownFirst(states: seq<State>, steps: seq<Step>, b: nat, m: nat, t: TxnId, n: Str, k: nat)
    requires m < |states| && t in states[m].txns && Knows(states, steps, b, m, t, n) && FirstRecord(states, steps, b, m, t, n, k)
    ensures var x := states[m].txns[t];
      && n in x.seen && n in x.verify
      && x.seen[n] == RecordedAt(states, steps, k, t, n) && x.verify[n] == VersionOf(RecordedAt(states, steps, k, t, n))
  {}

  lemma ServedStep(states: seq<State>, steps: seq<Step>, k: nat, t: TxnId, n: Str) returns (j: nat)
    requires RecordsAt(states, steps, k, t, n) && Served(states, steps, k, states[k].observed[steps[k].i])
    ensures j < k && j < |steps| && j < |states| && steps[j].Read? && steps[j].t == t && n in steps[j].names
    ensures RecordedAt(states, steps, k, t, n) == Lookup(states[j].table, n)
  {
    var o := states[k].observed[steps[k].i];
    j :| 0 <= j < k && ServedAt(states, steps, j, o);
    assert n in o.seen.Keys;
  }

  // It answers for nothing else: a document no step recorded is not checked.
  lemma NothingElse(env: Env, states: seq<State>, steps: seq<Step>, b: nat, m: nat, t: TxnId, n: Str)
    requires IsBehavior(env, states, steps) && OpenSpan(steps, b, m, t) && m < |steps|
    requires steps[m].Start? && steps[m].txn == Some(t)
    requires forall k :: b < k < m ==> !RecordsAt(states, steps, k, t, n)
    ensures steps[m].c in states[m + 1].running
    ensures var job := states[m + 1].running[steps[m].c].job; n !in job.seen && n !in job.verify
  {
    hide Enabled, After;
    SpanKnows(env, states, steps, b, m, t, n);
    StartTakes(env, states[m], steps[m]);
  }

  // Committed or rolled back, a transaction is gone: nothing starts on it again before
  // it is begun anew.
  lemma {:induction false} TakenOnce(env: Env, states: seq<State>, steps: seq<Step>, i: nat, m: nat, t: TxnId)
    requires IsBehavior(env, states, steps) && i < m <= |steps|
    requires steps[i] == Rollback(t) || (steps[i].Start? && steps[i].txn == Some(t))
    requires forall j :: i < j < m ==> steps[j] != Begin(t)
    ensures t !in states[m].txns
    ensures m < |steps| ==> !(steps[m].Start? && steps[m].txn == Some(t))
    decreases m
  {
    hide After, Enabled;
    if m == i + 1 {
      if steps[i].Start? { StartTakes(env, states[i], steps[i]); } else { RolledBack(env, states[i], t); }
    } else {
      TakenOnce(env, states, steps, i, m - 1, t);
      StillGone(env, states[m - 1], steps[m - 1], t);
    }
    if m < |steps| && steps[m].Start? { StartTakes(env, states[m], steps[m]); }
  }

  lemma RolledBack(env: Env, s: State, t: TxnId)
    requires Enabled(env, s, Rollback(t))
    ensures t !in After(env, s, Rollback(t)).txns
  {}

  lemma StillGone(env: Env, s: State, step: Step, t: TxnId)
    requires Enabled(env, s, step) && t !in s.txns && step != Begin(t)
    ensures t !in After(env, s, step).txns
  {
    hide Enabled, After, Persist, NewVersions, Release;
    if step.Acquire? || step.Assign? || step.Append? { WorkFrame(env, s, step); }
    else if step.Check? || step.Finish? || step.Fail? { EndFrame(env, s, step); }
    else { IdleGone(env, s, step, t); }
  }

  lemma IdleGone(env: Env, s: State, step: Step, t: TxnId)
    requires Enabled(env, s, step) && t !in s.txns && step != Begin(t) && (Actor(step).None? || step.Start?)
    ensures t !in After(env, s, step).txns
  {
    hide Observe, Recorded, IsPage, AllAllowed, ReaderAfter;
  }
}
