// What the machine can do: with the database to itself a transaction begins, reads,
// commits and takes effect as its job does alone (internal/store/txn.go, applyCommit in
// internal/store/store.go).
module Progress {
  import opened Bytes
  import opened Values
  import opened FieldPaths
  import opened Transforms
  import opened Transactions
  import opened Protocol
  import opened Serializability
  import opened Deadlocks

  // Only this commit is under way, and all locks are its own.
  ghost predicate Alone(s: State, c: nat) { s.running.Keys == {c} && forall k :: k in s.held ==> s.held[k] == c }

  lemma One(env: Env, s: State, step: Step) returns (states: seq<State>, steps: seq<Step>)
    requires Enabled(env, s, step)
    ensures Runs(env, states, steps) && states[0] == s && states[|steps|] == After(env, s, step) && |steps| == 1
  {
    states, steps := [s, After(env, s, step)], [step];
  }

  lemma {:induction false} AcquireAll(env: Env, s: State, c: nat) returns (states: seq<State>, steps: seq<Step>)
    requires Alone(s, c) && s.running[c].acquired <= |Locks(s.running[c])|
    ensures Runs(env, states, steps) && states[0] == s
    ensures var t := states[|steps|];
      Alone(t, c) && t == s.(running := s.running[c := s.running[c].(acquired := |Locks(s.running[c])|)], held := t.held)
    decreases |Locks(s.running[c])| - s.running[c].acquired
  {
    hide Enabled, After, Locks, SortedKeys;
    var r := s.running[c];
    if r.acquired == |Locks(r)| {
      states, steps := [s], [];
      assert s.running == s.running[c := r.(acquired := |Locks(r)|)];
    } else {
      AloneCanLock(env, s, c);
      AcquireIs(env, s, c);
      var t := AcquireOf(env, s, c);
      SameLocks(r, t.running[c]);
      var a, x := One(env, s, Acquire(c));
      var b, y := AcquireAll(env, t, c);
      Deadlocks.Join(env, a, x, b, y);
      states, steps := a + b[1..], x + y;
    }
  }

  lemma AloneCanLock(env: Env, s: State, c: nat)
    requires Alone(s, c) && s.running[c].acquired < |Locks(s.running[c])|
    ensures CanLock(env, s, c)
  {
    hide Locks;
  }

  lemma {:induction false} AppendAll(env: Env, s: State, c: nat) returns (states: seq<State>, steps: seq<Step>)
    requires Alone(s, c) && s.running[c].states.Some? && s.running[c].xid.Some?
    requires |s.running[c].events| <= |EventNames(s.running[c].states.value)|
    ensures Runs(env, states, steps) && states[0] == s
    ensures var t := states[|steps|];
      && Alone(t, c) && t == s.(running := t.running, nextSeq := t.nextSeq)
      && t.running[c] == s.running[c].(events := t.running[c].events, inserted := t.running[c].inserted)
      && |t.running[c].events| == |EventNames(s.running[c].states.value)|
    decreases |EventNames(s.running[c].states.value)| - |s.running[c].events|
  {
    hide Enabled, After, EventNames, NextEvent, InsertedNext;
    var r := s.running[c];
    if |r.events| == |EventNames(r.states.value)| {
      states, steps := [s], [];
    } else {
      AppendEnabled(env, s, c);
      AppendIs(env, s, c);
      var t := AppendOf(s, c);
      var a, x := One(env, s, Append(c));
      var b, y := AppendAll(env, t, c);
      Deadlocks.Join(env, a, x, b, y);
      states, steps := a + b[1..], x + y;
    }
  }

  lemma AppendEnabled(env: Env, s: State, c: nat)
    requires Alone(s, c) && s.running[c].states.Some? && s.running[c].xid.Some?
    requires |s.running[c].events| < |EventNames(s.running[c].states.value)|
    ensures Enabled(env, s, Append(c))
  {
    hide EventNames;
  }

  // With nothing else under way a commit that its job allows goes through all its steps
  // and takes effect.
  lemma CommitGoesThrough(env: Env, s: State, c: nat, txn: Option<TxnId>, ws: seq<Write>, time: Instant, job: Job)
    returns (states: seq<State>, steps: seq<Step>)
    requires s.running == map[] && s.held == map[] && Enabled(env, s, Start(c, txn, ws, time))
    requires job == StartOf(s, c, txn, ws, time).running[c].job && Serial(s.table, job).Some?
    requires forall n :: n in Targets(ws) ==> (n, time) !in s.versions
    ensures Runs(env, states, steps) && states[0] == s
    ensures var t := states[|steps|]; t.running == map[] && t.table == Serial(s.table, job).value && t.log == s.log + [job]
  {
    hide Enabled, After, Locks, SortedKeys, Prepare, Persist, NewVersions, EventNames;
    StartIs(env, s, Start(c, txn, ws, time));
    var s1 := StartOf(s, c, txn, ws, time);
    var a, x := One(env, s, Start(c, txn, ws, time));
    var b, y := AcquireAll(env, s1, c);
    Deadlocks.Join(env, a, x, b, y);
    var p, q := a + b[1..], x + y;
    SameLocks(s1.running[c], b[|y|].running[c]);
    var u, v := Work(env, b[|y|], c);
    Deadlocks.Join(env, p, q, u, v);
    states, steps := p + u[1..], q + v;
  }

  // From all locks held to the end.
  lemma Work(env: Env, s: State, c: nat) returns (states: seq<State>, steps: seq<Step>)
    requires Alone(s, c) && LocksHeld(s.running[c]) && s.running[c].states.None? && s.running[c].xid.None? && s.running[c].events == []
    requires Serial(s.table, s.running[c].job).Some?
    requires forall n :: n in Targets(s.running[c].job.writes) ==> (n, s.running[c].job.time) !in s.versions
    ensures Runs(env, states, steps) && states[0] == s
    ensures var t := states[|steps|];
      t.running == map[] && t.table == Serial(s.table, s.running[c].job).value && t.log == s.log + [s.running[c].job]
  {
    hide Enabled, After, Locks, SortedKeys, Prepare, Persist, NewVersions, EventNames, Release, FreshTimes, FinishOf, CheckOf;
    var job := s.running[c].job;
    CheckEnabled(env, s, c);
    var a, x := One(env, s, Check(c));
    var s1 := After(env, s, Check(c));
    SameLocks(s.running[c], s1.running[c]);
    AssignEnabled(env, s1, c);
    AssignIs(env, s1, c);
    var b, y := One(env, s1, Assign(c));
    Deadlocks.Join(env, a, x, b, y);
    var p, q := a + b[1..], x + y;
    var s2 := p[|q|];
    var d, z := AppendAll(env, s2, c);
    Deadlocks.Join(env, p, q, d, z);
    p, q := p + d[1..], q + z;
    var s3 := p[|q|];
    FinishesAlone(env, s3, c);
    var e, w := One(env, s3, Finish(c));
    Deadlocks.Join(env, p, q, e, w);
    states, steps := p + e[1..], q + w;
  }

  lemma CheckEnabled(env: Env, s: State, c: nat)
    requires Alone(s, c) && LocksHeld(s.running[c]) && s.running[c].states.None? && Prepare(s.table, s.running[c].job).Some?
    ensures Enabled(env, s, Check(c))
    ensures After(env, s, Check(c)) == s.(running := s.running[c := s.running[c].(states := Prepare(s.table, s.running[c].job))])
  {
    hide LocksHeld, Prepare, Release;
  }

  lemma AssignEnabled(env: Env, s: State, c: nat)
    requires Alone(s, c) && LocksHeld(s.running[c]) && s.running[c].xid.None?
    ensures Enabled(env, s, Assign(c))
  {
    hide LocksHeld;
  }

  lemma FinishesAlone(env: Env, s: State, c: nat)
    requires Alone(s, c) && s.running[c].states.Some? && s.running[c].states == Prepare(s.table, s.running[c].job)
    requires |s.running[c].events| == |EventNames(s.running[c].states.value)|
    requires forall n :: n in Targets(s.running[c].job.writes) ==> (n, s.running[c].job.time) !in s.versions
    ensures Enabled(env, s, Finish(c))
    ensures var t := After(env, s, Finish(c));
      t.running == map[] && Serial(s.table, s.running[c].job) == Some(t.table) && t.log == s.log + [s.running[c].job]
  {
    hide EventNames, Prepare, Persist, NewVersions, Release;
    var r := s.running[c];
    forall n | n in Dirty(r.states.value) ensures n in Targets(r.job.writes) { PrepareWrites(s.table, r.job, n); }
    assert s.running - {c} == map[];
  }

  // ------------------------------------------------------------- a transaction

  function JobOf(docs: Docs, names: set<Str>, ws: seq<Write>, time: Instant): Job {
    Job(VersionsOf(Observe(docs, names)), Observe(docs, names), ws, time)
  }

  lemma ReadsSteps(env: Env, s: State, t: TxnId, names: set<Str>) returns (states: seq<State>, steps: seq<Step>)
    requires t !in s.txns
    ensures Runs(env, states, steps) && states[0] == s && steps == [Begin(t), Read(t, names), Record(|s.observed|)]
    ensures var o := Observation(t, Observe(s.table, names));
      states[3] == s.(txns := s.txns[t := Txn(VersionsOf(o.seen), o.seen)], observed := s.observed + [o])
  {
    hide Observe, VersionsOf, Recorded, Enabled, After;
    var o := Observation(t, Observe(s.table, names));
    var s1 := s.(txns := s.txns[t := Txn(map[], map[])]);
    var s2 := s1.(observed := s1.observed + [o]);
    var s3 := s2.(txns := s2.txns[t := Recorded(s2.txns[t], o)]);
    FirstRecorded(o);
    assert s3.txns == s.txns[t := Txn(VersionsOf(o.seen), o.seen)];
    BeginsAt(env, s, t);
    ServesAt(env, s1, t, names);
    RecordsLast(env, s2, o);
    states, steps := [s, s1, s2, s3], [Begin(t), Read(t, names), Record(|s.observed|)];
  }

  lemma FirstRecorded(o: Observation)
    ensures Recorded(Txn(map[], map[]), o) == Txn(VersionsOf(o.seen), o.seen)
  {
    hide VersionsOf;
    assert o.seen + map[] == o.seen;
  }

  lemma BeginsAt(env: Env, s: State, t: TxnId)
    requires t !in s.txns
    ensures Enabled(env, s, Begin(t)) && After(env, s, Begin(t)) == s.(txns := s.txns[t := Txn(map[], map[])])
  {}

  lemma ServesAt(env: Env, s: State, t: TxnId, names: set<Str>)
    ensures Enabled(env, s, Read(t, names))
    ensures After(env, s, Read(t, names)) == s.(observed := s.observed + [Observation(t, Observe(s.table, names))])
  {
    hide Observe;
  }

  lemma RecordsLast(env: Env, s: State, o: Observation)
    requires s.observed != [] && s.observed[|s.observed| - 1] == o && o.txn in s.txns
    ensures Enabled(env, s, Record(|s.observed| - 1))
    ensures After(env, s, Record(|s.observed| - 1)) == s.(txns := s.txns[o.txn := Recorded(s.txns[o.txn], o)])
  {
    hide Recorded;
  }

  // From any initial state a transaction that reads these documents and makes these
  // writes commits, with the table its job leaves alone, whenever the job is possible.
  lemma TransactionCommits(env: Env, s0: State, t: TxnId, names: set<Str>, ws: seq<Write>, time: Instant)
    returns (states: seq<State>, steps: seq<Step>)
    requires Initial(s0) && time != ZERO_TIME && (forall n :: n in Targets(ws) ==> (n, time) !in s0.versions)
    requires forall n :: n in Targets(ws) + names ==> env.allowed(n)
    requires Serial(s0.table, JobOf(s0.table, names, ws, time)).Some?
    ensures IsBehavior(env, states, steps) && states[0] == s0
    ensures var last := states[|steps|];
      && last.table == Serial(s0.table, JobOf(s0.table, names, ws, time)).value
      && last.log == [JobOf(s0.table, names, ws, time)] && last.running == map[]
  {
    hide Enabled, After, Serial, Observe, VersionsOf;
    var a, x := ReadsSteps(env, s0, t, names);
    var s := a[3];
    StartEnabled(env, s, 0, t, names, ws, time);
    var b, y := CommitGoesThrough(env, s, 0, Some(t), ws, time, JobOf(s0.table, names, ws, time));
    Deadlocks.Join(env, a, x, b, y);
    states, steps := a + b[1..], x + y;
    EmptyLog(s0);
  }

  lemma EmptyLog(s0: State)
    requires Initial(s0)
    ensures s0.log == [] && s0.running == map[] && s0.held == map[]
  {}

  lemma StartEnabled(env: Env, s: State, c: nat, t: TxnId, names: set<Str>, ws: seq<Write>, time: Instant)
    requires t in s.txns && c !in s.running && time != ZERO_TIME
    requires s.txns[t] == Txn(VersionsOf(Observe(s.table, names)), Observe(s.table, names))
    requires forall n :: n in Targets(ws) + names ==> env.allowed(n)
    ensures Enabled(env, s, Start(c, Some(t), ws, time))
    ensures StartOf(s, c, Some(t), ws, time).running[c].job == JobOf(s.table, names, ws, time)
  {
    var job := JobOf(s.table, names, ws, time);
    assert job.verify.Keys == names;
    assert LockNames(job) == Targets(ws) + names;
  }
}
