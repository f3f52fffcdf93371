// Every run of the commit protocol is serializable in commit order.
module Serializability {
  import opened Bytes
  import opened Values
  import opened FieldPaths
  import opened Transactions
  import opened Protocol

  // ---------------------------------------------------------------- who holds what

  ghost predicate Holds(env: Env, held: map<int, nat>, c: nat, n: Str) {
    env.lockId(n) in held && held[env.lockId(n)] == c
  }

  ghost predicate HoldsLocks(env: Env, held: map<int, nat>, c: nat, r: Running) {
    r.acquired <= |Locks(r)| && forall i :: 0 <= i < r.acquired ==> Holds(env, held, c, Locks(r)[i])
  }

  // A checked commit holds all its locks, and its check would still pass.
  ghost predicate CheckHolds(table: Docs, r: Running) {
    && (r.states.Some? ==> LocksHeld(r) && Prepare(table, r.job) == r.states)
    && (r.xid.Some? ==> LocksHeld(r))
  }

  ghost predicate LockInv(env: Env, s: State) {
    forall c :: c in s.running ==> HoldsLocks(env, s.held, c, s.running[c]) && CheckHolds(s.table, s.running[c])
  }

  lemma HoldsName(env: Env, s: State, c: nat, n: Str)
    requires LockInv(env, s) && c in s.running && LocksHeld(s.running[c]) && n in LockNames(s.running[c].job)
    ensures Holds(env, s.held, c, n)
  {
    hide SortedKeys, CheckHolds;
    var ks := Locks(s.running[c]);
    assert n in ks;
    var i :| 0 <= i < |ks| && ks[i] == n;
  }

  // Mutual exclusion: between its check and its end a commit shares no document
  // with another.
  lemma Exclusive(env: Env, s: State, c: nat, d: nat, n: Str)
    requires LockInv(env, s) && c in s.running && d in s.running
    requires LocksHeld(s.running[c]) && LocksHeld(s.running[d])
    requires n in LockNames(s.running[c].job) && n in LockNames(s.running[d].job)
    ensures c == d
  {
    hide LockInv, LocksHeld, LockNames;
    HoldsName(env, s, c, n);
    HoldsName(env, s, d, n);
  }

  // A commit that takes effect leaves the documents of the other ones alone.
  lemma FinishFrame(env: Env, s: State, c: nat, d: nat)
    requires LockInv(env, s) && c in s.running && s.running[c].states.Some?
    requires d in s.running && d != c && LocksHeld(s.running[d])
    ensures AgreeOn(s.table, FinishOf(s, c).table, LockNames(s.running[d].job))
  {
    hide SortedKeys, Prepare, Persist, ApplyAll, HoldsLocks;
    var r := s.running[c];
    assert CheckHolds(s.table, r);
    forall n | n in LockNames(s.running[d].job) ensures Lookup(s.table, n) == Lookup(FinishOf(s, c).table, n) {
      PersistAt(s.table, r.states.value, n);
      if Written(r.states.value, n) {
        PrepareWrites(s.table, r.job, n);
        Exclusive(env, s, c, d, n);
        assert false;
      }
    }
  }

  lemma LockStep(env: Env, s: State, step: Step)
    requires LockInv(env, s) && Enabled(env, s, step)
    ensures LockInv(env, After(env, s, step))
  {
    hide HoldsLocks, CheckHolds, Enabled, After;
    var s' := After(env, s, step);
    forall d | d in s'.running ensures HoldsLocks(env, s'.held, d, s'.running[d]) && CheckHolds(s'.table, s'.running[d]) {
      HoldsStep(env, s, step, d);
      CheckStep(env, s, step, d);
    }
  }

  lemma HoldsStep(env: Env, s: State, step: Step, d: nat)
    requires LockInv(env, s) && Enabled(env, s, step) && d in After(env, s, step).running
    ensures HoldsLocks(env, After(env, s, step).held, d, After(env, s, step).running[d])
  {
    hide CheckHolds, Enabled, After, SortedKeys, Locks;
    RunningAfter(env, s, step, d);
    if d in s.running { KeepsHeld(env, s, step, d); }
    if Actor(step) == Some(d) { OwnLocks(env, s, step, d); }
    if d in s.running { SameLocks(s.running[d], After(env, s, step).running[d]); }
  }

  lemma SameLocks(a: Running, b: Running)
    requires a.job == b.job
    ensures Locks(a) == Locks(b)
  {}

  lemma KeepsHeld(env: Env, s: State, step: Step, d: nat)
    requires LockInv(env, s) && Enabled(env, s, step) && d in s.running && d in After(env, s, step).running
    ensures HoldsLocks(env, After(env, s, step).held, d, s.running[d])
  {
    hide CheckHolds, Enabled, After, SortedKeys, Locks;
    var r := s.running[d];
    forall i | 0 <= i < r.acquired ensures Holds(env, After(env, s, step).held, d, Locks(r)[i]) {
      HeldAfter(env, s, step, d, env.lockId(Locks(r)[i]));
    }
  }

  // What a commit's own step adds.
  lemma OwnLocks(env: Env, s: State, step: Step, d: nat)
    requires Enabled(env, s, step) && d in After(env, s, step).running && Actor(step) == Some(d)
    ensures var r := After(env, s, step).running[d];
      && (d !in s.running ==> r.acquired == 0)
      && (d in s.running && !step.Acquire? ==> r.acquired == s.running[d].acquired)
      && (d in s.running && step.Acquire? ==>
            r.acquired == s.running[d].acquired + 1 <= |Locks(r)|
            && Holds(env, After(env, s, step).held, d, Locks(r)[s.running[d].acquired]))
  {
    hide Enabled, After, AcquireOf, Locks, NextEvent, InsertedNext, AllAllowed;
    match step
    case Acquire(_) =>
      AcquireOnly(env, s, d);
      OwnAcquire(env, s, d);
    case Assign(_) => AssignIs(env, s, d);
    case Append(_) => AppendIs(env, s, d);
    case Start(_, _, _, _) => StartIs(env, s, step);
    case _ => EndIs(env, s, step);
  }

  lemma OwnAcquire(env: Env, s: State, c: nat)
    requires c in s.running && s.running[c].acquired < |Locks(s.running[c])|
    ensures var r, s' := s.running[c], AcquireOf(env, s, c);
      && c in s'.running && s'.running[c].acquired == r.acquired + 1 <= |Locks(s'.running[c])|
      && Holds(env, s'.held, c, Locks(s'.running[c])[r.acquired])
  {
    hide SortedKeys, Locks;
    SameLocks(s.running[c], AcquireOf(env, s, c).running[c]);
  }

  lemma CheckStep(env: Env, s: State, step: Step, d: nat)
    requires LockInv(env, s) && Enabled(env, s, step) && d in After(env, s, step).running
    ensures CheckHolds(After(env, s, step).table, After(env, s, step).running[d])
  {
    hide HoldsLocks, Enabled, After, SortedKeys, Prepare, Persist, FinishOf, Locks;
    RunningAfter(env, s, step, d);
    TableAfter(env, s, step);
    if Actor(step) == Some(d) {
      OwnCheck(env, s, step, d);
    } else if step.Finish? && s.running[d].states.Some? {
      FinishOther(env, s, step, d);
    }
  }

  lemma FinishOther(env: Env, s: State, step: Step, d: nat)
    requires LockInv(env, s) && Enabled(env, s, step) && step.Finish? && d in s.running && d != step.c
    requires s.running[d].states.Some?
    ensures step.c in s.running && s.running[step.c].states.Some?
    ensures Prepare(FinishOf(s, step.c).table, s.running[d].job) == Prepare(s.table, s.running[d].job)
  {
    hide LockInv, Enabled, SortedKeys, Prepare, FinishOf, Locks, LockNames, AgreeOn;
    FinishEnabled(env, s, step.c);
    CheckedHolds(env, s, d);
    FinishFrame(env, s, step.c, d);
    PrepareLocal(s.table, FinishOf(s, step.c).table, s.running[d].job);
  }

  lemma CheckedHolds(env: Env, s: State, c: nat)
    requires LockInv(env, s) && c in s.running && s.running[c].states.Some?
    ensures LocksHeld(s.running[c])
  {
    hide HoldsLocks, SortedKeys, Prepare, Locks;
    assert CheckHolds(s.table, s.running[c]);
  }

  lemma OwnCheck(env: Env, s: State, step: Step, d: nat)
    requires Enabled(env, s, step) && d in After(env, s, step).running && Actor(step) == Some(d)
    requires d in s.running ==> CheckHolds(s.table, s.running[d])
    ensures CheckHolds(After(env, s, step).table, After(env, s, step).running[d])
  {
    hide Enabled, After, Prepare, Locks, NextEvent, NextLock, InsertedNext, AllAllowed, FinishOf;
    RunningAfter(env, s, step, d);
    if d in s.running { SameLocks(s.running[d], After(env, s, step).running[d]); }
    TableAfter(env, s, step);
    match step
    case Acquire(_) => AcquireOnly(env, s, d);
    case Assign(_) => AssignIs(env, s, d);
    case Append(_) => AppendIs(env, s, d);
    case Start(_, _, _, _) => StartIs(env, s, step);
    case Check(_) => CheckIs(env, s, d);
    case _ => EndIs(env, s, step);
  }

  // ------------------------------------------------------------ versions and values

  // A read version and the value it stood for: a version once given to a document
  // never stands for another value.
  ghost predicate Faithful(s: State, verify: map<Str, nat>, seen: map<Str, Option<Stored>>) {
    && verify.Keys == seen.Keys
    && forall n :: n in seen ==> verify[n] == VersionOf(seen[n]) && Known(s, n, seen[n])
  }

  ghost predicate Known(s: State, n: Str, d: Option<Stored>) {
    d.Some? ==> d.value.updateTime != ZERO_TIME && (n, d.value.updateTime) in s.versions
                && s.versions[(n, d.value.updateTime)] == d.value
  }

  ghost predicate VersionInv(s: State) {
    && (forall n :: n in s.table ==> Known(s, n, Some(s.table[n])))
    && (forall i :: 0 <= i < |s.observed| ==> Faithful(s, VersionsOf(s.observed[i].seen), s.observed[i].seen))
    && (forall t :: t in s.txns ==> Faithful(s, s.txns[t].verify, s.txns[t].seen))
    && (forall c :: c in s.running ==> Faithful(s, s.running[c].job.verify, s.running[c].job.seen))
    && (forall c :: c in s.running ==> s.running[c].job.time != ZERO_TIME)
  }

  // What the check establishes: each value first read is the current one.
  lemma VerifiedMeansCurrent(s: State, job: Job)
    requires VersionInv(s) && Faithful(s, job.verify, job.seen) && Verified(s.table, job.verify)
    ensures ReadsCurrent(s.table, job)
  {
    forall n | n in job.seen ensures Lookup(s.table, n) == job.seen[n] {
      assert VersionOf(Lookup(s.table, n)) == job.verify[n] == VersionOf(job.seen[n]);
      if n in s.table { assert Known(s, n, Some(s.table[n])); }
    }
  }

  ghost predicate ReadsCurrent(docs: Docs, job: Job) {
    forall n :: n in job.seen ==> Lookup(docs, n) == job.seen[n]
  }

  // Versions are only added, and never for a key already taken.
  lemma FaithfulGrows(s: State, s': State, verify: map<Str, nat>, seen: map<Str, Option<Stored>>)
    requires Faithful(s, verify, seen)
    requires Grows(s, s')
    ensures Faithful(s', verify, seen)
  {}

  lemma RecordFaithful(s: State, t: Txn, o: Observation)
    requires Faithful(s, t.verify, t.seen) && Faithful(s, VersionsOf(o.seen), o.seen)
    ensures Faithful(s, Recorded(t, o).verify, Recorded(t, o).seen)
  {}

  lemma FinishVersions(env: Env, s: State, c: nat)
    requires LockInv(env, s) && VersionInv(s) && c in s.running && s.running[c].states.Some? && FreshTimes(s, s.running[c])
    ensures var s' := FinishOf(s, c);
      && Grows(s, s')
      && (forall n :: n in s'.table ==> Known(s', n, Some(s'.table[n])))
  {
    hide FinishOf, CheckHolds, Known, Grows;
    FinishGrows(env, s, c);
    forall n | n in FinishOf(s, c).table ensures Known(FinishOf(s, c), n, Some(FinishOf(s, c).table[n])) {
      FinishKnown(env, s, c, n);
    }
  }

  lemma FinishGrows(env: Env, s: State, c: nat)
    requires LockInv(env, s) && c in s.running && s.running[c].states.Some? && FreshTimes(s, s.running[c])
    ensures Grows(s, FinishOf(s, c))
  {
    hide SortedKeys, Prepare, Persist, HoldsLocks, Locks, EventNames, Release;
    assert CheckHolds(s.table, s.running[c]);
    var r, s' := s.running[c], FinishOf(s, c);
    var added := NewVersions(s'.table, r.states.value);
    forall k | k in s.versions ensures k in s'.versions && s'.versions[k] == s.versions[k] {
      if k in added {
        var n :| n in Dirty(r.states.value) && n in s'.table && k == (n, s'.table[n].updateTime);
        StampedRow(s, r, n);
      }
    }
  }

  lemma FinishKnown(env: Env, s: State, c: nat, n: Str)
    requires LockInv(env, s) && VersionInv(s) && c in s.running && s.running[c].states.Some? && Grows(s, FinishOf(s, c))
    requires n in FinishOf(s, c).table
    ensures Known(FinishOf(s, c), n, Some(FinishOf(s, c).table[n]))
  {
    hide SortedKeys, Prepare, Persist, HoldsLocks, Locks, EventNames, Release, Faithful;
    assert CheckHolds(s.table, s.running[c]);
    var r, s' := s.running[c], FinishOf(s, c);
    PersistAt(s.table, r.states.value, n);
    if Written(r.states.value, n) {
      StampedRow(s, r, n);
      assert (n, s'.table[n].updateTime) in NewVersions(s'.table, r.states.value);
    } else {
      assert Known(s, n, Some(s.table[n]));
    }
  }

  lemma StampedRow(s: State, r: Running, n: Str)
    requires r.states.Some? && Prepare(s.table, r.job) == r.states && n in Dirty(r.states.value)
    requires n in Persist(s.table, r.states.value)
    ensures Persist(s.table, r.states.value)[n].updateTime == r.job.time
  {
    hide Prepare, Persist;
    PersistAt(s.table, r.states.value, n);
    PrepareWrites(s.table, r.job, n);
  }

  ghost predicate Grows(s: State, s': State) {
    forall k :: k in s.versions ==> k in s'.versions && s'.versions[k] == s.versions[k]
  }

  lemma VersionStep(env: Env, s: State, step: Step)
    requires LockInv(env, s) && VersionInv(s) && Enabled(env, s, step)
    ensures VersionInv(After(env, s, step))
  {
    hide Enabled, After, LockInv, Faithful, Grows, Known;
    var s' := After(env, s, step);
    TableStep(env, s, step);
    forall i | 0 <= i < |s'.observed| ensures Faithful(s', VersionsOf(s'.observed[i].seen), s'.observed[i].seen) {
      ObservedStep(env, s, step, i);
    }
    forall t | t in s'.txns ensures Faithful(s', s'.txns[t].verify, s'.txns[t].seen) {
      TxnStep(env, s, step, t);
    }
    forall c | c in s'.running
      ensures Faithful(s', s'.running[c].job.verify, s'.running[c].job.seen) && s'.running[c].job.time != ZERO_TIME
    {
      JobStep(env, s, step, c);
    }
  }

  lemma TableStep(env: Env, s: State, step: Step)
    requires LockInv(env, s) && VersionInv(s) && Enabled(env, s, step)
    ensures var s' := After(env, s, step); Grows(s, s') && forall n :: n in s'.table ==> Known(s', n, Some(s'.table[n]))
  {
    hide After, LockInv, Faithful, SortedKeys, Prepare, Persist, IsPage, NewVersions, EventNames;
    TableAfter(env, s, step);
    if step.Finish? { FinishVersions(env, s, step.c); }
  }

  lemma ObservedStep(env: Env, s: State, step: Step, i: nat)
    requires VersionInv(s) && Enabled(env, s, step) && Grows(s, After(env, s, step)) && i < |After(env, s, step).observed|
    ensures var s' := After(env, s, step); Faithful(s', VersionsOf(s'.observed[i].seen), s'.observed[i].seen)
  {
    hide Faithful, SortedKeys, Prepare, Persist, IsPage, FreshTimes, NewVersions, EventNames, Recorded, LocksHeld, Observe,
         AcquireOf, CheckOf, AssignOf, AppendOf, FinishOf, CanLock;
    TxnsAfter(env, s, step);
    var s' := After(env, s, step);
    if i < |s.observed| {
      FaithfulGrows(s, s', VersionsOf(s.observed[i].seen), s.observed[i].seen);
    } else {
      ObservedFaithful(s, s', step.names);
    }
  }

  lemma ObservedFaithful(s: State, s': State, names: set<Str>)
    requires s'.table == s.table && s'.versions == s.versions && forall n :: n in s.table ==> Known(s, n, Some(s.table[n]))
    ensures Faithful(s', VersionsOf(Observe(s.table, names)), Observe(s.table, names))
  {}

  lemma EmptyFaithful(s: State)
    ensures Faithful(s, map[], map[])
  {}

  lemma TxnStep(env: Env, s: State, step: Step, t: TxnId)
    requires VersionInv(s) && Enabled(env, s, step) && Grows(s, After(env, s, step)) && t in After(env, s, step).txns
    ensures var s' := After(env, s, step); Faithful(s', s'.txns[t].verify, s'.txns[t].seen)
  {
    hide Faithful, SortedKeys, Prepare, Persist, IsPage, FreshTimes, NewVersions, EventNames, Recorded, LocksHeld, Observe, Grows,
         AcquireOf, CheckOf, AssignOf, AppendOf, FinishOf, CanLock;
    TxnsAfter(env, s, step);
    var s' := After(env, s, step);
    EmptyFaithful(s');
    if step.Record? && s.observed[step.i].txn == t {
      RecordFaithful(s, s.txns[t], s.observed[step.i]);
      FaithfulGrows(s, s', s'.txns[t].verify, s'.txns[t].seen);
    } else if t in s.txns {
      FaithfulGrows(s, s', s.txns[t].verify, s.txns[t].seen);
    }
  }

  lemma TxnsAfter(env: Env, s: State, step: Step)
    requires Enabled(env, s, step)
    ensures step.Acquire? || step.Check? || step.Assign? || step.Append? || step.Finish? ==>
      After(env, s, step).txns == s.txns && After(env, s, step).observed == s.observed
  {
    hide Enabled, After, Persist, NewVersions, Release;
    if step.Acquire? || step.Assign? || step.Append? { WorkFrame(env, s, step); }
    else if step.Check? || step.Finish? { EndFrame(env, s, step); }
  }

  lemma JobStep(env: Env, s: State, step: Step, c: nat)
    requires VersionInv(s) && Enabled(env, s, step) && Grows(s, After(env, s, step)) && c in After(env, s, step).running
    ensures var s' := After(env, s, step);
      Faithful(s', s'.running[c].job.verify, s'.running[c].job.seen) && s'.running[c].job.time != ZERO_TIME
  {
    hide After, Faithful, SortedKeys, Prepare, Persist, IsPage, FreshTimes, EventNames, LocksHeld, NextLock, Grows;
    RunningAfter(env, s, step, c);
    var s' := After(env, s, step);
    if c in s.running {
      FaithfulGrows(s, s', s.running[c].job.verify, s.running[c].job.seen);
    } else {
      StartedJob(env, s, step);
      EmptyFaithful(s');
      if step.txn.Some? { FaithfulGrows(s, s', s.txns[step.txn.value].verify, s.txns[step.txn.value].seen); }
    }
  }

  lemma StartedJob(env: Env, s: State, step: Step)
    requires Enabled(env, s, step) && step.Start?
    ensures After(env, s, step) == StartOf(s, step.c, step.txn, step.writes, step.time)
  {}

  // --------------------------------------------------------------- serializability

  // The committed jobs one after the other, each on its own.
  function Replay(init: Docs, log: seq<Job>): Option<Docs>
    decreases |log|
  {
    if log == [] then Some(init)
    else
      var before := Replay(init, log[..|log| - 1]);
      if before.None? then None else Serial(before.value, log[|log| - 1])
  }

  // The serial execution succeeds, ends in this table, and each job finds in it
  // exactly the values its transaction had read.
  ghost predicate Explains(init: Docs, log: seq<Job>, docs: Docs)
    decreases |log|
  {
    if log == [] then docs == init
    else
      var before := Replay(init, log[..|log| - 1]);
      && before.Some? && Explains(init, log[..|log| - 1], before.value)
      && ReadsCurrent(before.value, log[|log| - 1]) && Serial(before.value, log[|log| - 1]) == Some(docs)
  }

  lemma {:induction false} ExplainsReplay(init: Docs, log: seq<Job>, docs: Docs)
    requires Explains(init, log, docs)
    ensures Replay(init, log) == Some(docs)
  {}

  lemma LogStep(env: Env, s: State, step: Step, init: Docs)
    requires LockInv(env, s) && VersionInv(s) && Enabled(env, s, step) && Explains(init, s.log, s.table)
    ensures Explains(init, After(env, s, step).log, After(env, s, step).table)
  {
    hide SortedKeys, Prepare, Persist, IsPage, FreshTimes, Explains, VersionInv, Faithful, ReadsCurrent, LockInv;
    if step.Finish? { FinishExplained(env, s, step.c, init); }
  }

  // At the moment a commit takes effect every value its transaction first read is
  // still current, and its effect is that of running alone at that moment.
  lemma FinishIsSerial(env: Env, s: State, c: nat)
    requires LockInv(env, s) && VersionInv(s) && c in s.running && s.running[c].states.Some?
    ensures ReadsCurrent(s.table, s.running[c].job)
    ensures Serial(s.table, s.running[c].job) == Some(FinishOf(s, c).table)
  {
    hide SortedKeys, Persist, ApplyAll, ReadsCurrent, Faithful;
    assert CheckHolds(s.table, s.running[c]);
    VerifiedMeansCurrent(s, s.running[c].job);
  }

  lemma FinishExplained(env: Env, s: State, c: nat, init: Docs)
    requires LockInv(env, s) && VersionInv(s) && c in s.running && s.running[c].states.Some? && Explains(init, s.log, s.table)
    ensures Explains(init, FinishOf(s, c).log, FinishOf(s, c).table)
  {
    hide SortedKeys, Persist, Prepare, ReadsCurrent, Faithful, LockInv, VersionInv, Serial;
    FinishIsSerial(env, s, c);
    ExplainsReplay(init, s.log, s.table);
    var log := FinishOf(s, c).log;
    assert log[..|log| - 1] == s.log;
  }

  // The invariant of every run.
  ghost predicate Invariant(env: Env, s: State) { LockInv(env, s) && VersionInv(s) }

  lemma {:induction false} RunKeeps(env: Env, states: seq<State>, steps: seq<Step>)
    requires IsBehavior(env, states, steps)
    ensures Invariant(env, states[|steps|]) && Explains(states[0].table, states[|steps|].log, states[|steps|].table)
    decreases |steps|
  {
    hide Enabled, After, LockInv, VersionInv, Explains, SortedKeys;
    var n := |steps|;
    if n == 0 {
      InitialKeeps(env, states[0]);
    } else {
      PrefixBehavior(env, states, steps, n - 1);
      RunKeeps(env, states[..n], steps[..n - 1]);
      var s := states[n - 1];
      LockStep(env, s, steps[n - 1]);
      VersionStep(env, s, steps[n - 1]);
      LogStep(env, s, steps[n - 1], states[0].table);
    }
  }

  lemma InitialKeeps(env: Env, s: State)
    requires Initial(s)
    ensures Invariant(env, s) && Explains(s.table, s.log, s.table)
  {}

  // Every run is serializable in commit order: its table is what the committed
  // jobs produce one after the other, each seeing exactly what it had read.
  lemma Serializable(env: Env, states: seq<State>, steps: seq<Step>)
    requires IsBehavior(env, states, steps)
    ensures var last := states[|steps|];
      Replay(states[0].table, last.log) == Some(last.table) && Explains(states[0].table, last.log, last.table)
  {
    hide Enabled, After, Invariant, Explains, Replay;
    RunKeeps(env, states, steps);
    ExplainsReplay(states[0].table, states[|steps|].log, states[|steps|].table);
  }
}
