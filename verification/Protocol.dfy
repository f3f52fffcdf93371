// Concurrent commits as a state machine: transactional reads, the registry,
// advisory locks taken one by one, the version check, change events, and the
// moment a commit takes effect (internal/store/store.go, txn.go, changelog.go).
module Protocol {
  import opened Bytes
  import opened Values
  import opened FieldPaths
  import opened Transforms
  import opened DocNames
  import opened Transactions

  type TxnId = seq<byte>

  // lockId is hashtext on names; wants is the reader's collection filter; allowed
  // are the names commits read or write.
  datatype Env = Env(lockId: Str -> int, wants: Str -> bool, allowed: Str -> bool)

  datatype Event = Event(xid: nat, seqNo: nat, name: Str, deleted: bool)

  datatype Txn = Txn(verify: map<Str, nat>, seen: map<Str, Option<Stored>>)

  // A read that was served and is not recorded yet.
  datatype Observation = Observation(txn: TxnId, seen: map<Str, Option<Stored>>)

  // One applyCommit under way. acquired counts the locks held so far; states are
  // the documents after the writes, once the check passed; xid is assigned when
  // the database transaction first locks or writes a row; inserted are the
  // collections rows it added, which nobody else sees before it ends.
  datatype Running = Running(job: Job, acquired: nat, states: Option<map<Str, DocState>>, xid: Option<nat>,
                             events: seq<Event>, inserted: set<Str>)

  datatype Reader = Reader(xid: nat, seqNo: nat, delivered: seq<Event>)

  // versions holds every version a document ever had; feed the committed events
  // and log the committed jobs, both in commit order.
  datatype State = State(
    table: Docs, collections: set<Str>, versions: map<(Str, nat), Stored>,
    txns: map<TxnId, Txn>, observed: seq<Observation>,
    running: map<nat, Running>, held: map<int, nat>,
    nextXid: nat, nextSeq: nat, open: set<nat>,
    feed: seq<Event>, log: seq<Job>, reader: Reader)

  datatype Step =
    | Begin(t: TxnId)
    | Read(t: TxnId, names: set<Str>)
    | Record(i: nat)
    | Rollback(t: TxnId)
    | Start(c: nat, txn: Option<TxnId>, writes: seq<Write>, time: Instant)
    | Acquire(c: nat)
    | Check(c: nat)
    | Assign(c: nat)
    | Append(c: nat)
    | Finish(c: nat)
    | Fail(c: nat)
    | Open
    | Close(x: nat)
    | Poll(limit: int, page: seq<Event>)

  function Locks(r: Running): seq<Str> { SortedKeys(LockNames(r.job)) }

  predicate LocksHeld(r: Running) { r.acquired == |Locks(r)| }

  function Dirty(states: map<Str, DocState>): set<Str> { set n | n in states && states[n].dirty }

  // The documents events are appended for, in the order they are.
  function EventNames(states: map<Str, DocState>): seq<Str> { SortedKeys(Dirty(states)) }

  // -------------------------------------------------------------- the low-water mark

  // x is below pg_snapshot_xmin: every transaction in progress, and every one to
  // come, has a later id.
  ghost predicate BelowMark(s: State, x: nat) {
    && x < s.nextXid && (forall y :: y in s.open ==> x < y)
    && forall c :: c in s.running && s.running[c].xid.Some? ==> x < s.running[c].xid.value
  }

  predicate KeyLess(x: nat, i: nat, y: nat, j: nat) { x < y || (x == y && i < j) }

  predicate EventLess(a: Event, b: Event) { KeyLess(a.xid, a.seqNo, b.xid, b.seqNo) }

  predicate AfterCursor(r: Reader, e: Event) { KeyLess(r.xid, r.seqNo, e.xid, e.seqNo) }

  // What Changes may select: visible, below the mark, past the cursor, wanted.
  ghost predicate Due(env: Env, s: State, e: Event) {
    e in s.feed && BelowMark(s, e.xid) && AfterCursor(s.reader, e) && env.wants(e.name)
  }

  function PageLimit(limit: int): nat { if limit <= 0 then 500 else limit }

  // A page of Changes: due events in key order, none due skipped, all of them when
  // they fit.
  ghost predicate IsPage(env: Env, s: State, limit: int, page: seq<Event>) {
    && |page| <= PageLimit(limit) && (|page| < PageLimit(limit) ==> forall e :: Due(env, s, e) ==> e in page)
    && (forall i :: 0 <= i < |page| ==> Due(env, s, page[i]))
    && (forall i, j :: 0 <= i < j < |page| ==> EventLess(page[i], page[j]))
    && (forall e :: Due(env, s, e) && e !in page ==> forall i :: 0 <= i < |page| ==> EventLess(page[i], e))
  }

  // ---------------------------------------------------------------------- steps

  function VersionsOf(seen: map<Str, Option<Stored>>): map<Str, nat> {
    map n | n in seen :: VersionOf(seen[n])
  }

  function Observe(docs: Docs, names: set<Str>): map<Str, Option<Stored>> {
    map n | n in names :: Lookup(docs, n)
  }

  // First read wins, for the versions as for what they stood for.
  function Recorded(t: Txn, o: Observation): Txn {
    Txn(FirstReads(t.verify, VersionsOf(o.seen)), o.seen + t.seen)
  }

  function Release(held: map<int, nat>, c: nat): map<int, nat> {
    map k | k in held && held[k] != c :: held[k]
  }

  // The transaction ends, committed or not: its locks go, its xid closes.
  function Gone(s: State, c: nat): State {
    s.(running := s.running - {c}, held := Release(s.held, c))
  }

  function NextLock(env: Env, r: Running): int
    requires r.acquired < |Locks(r)|
  {
    env.lockId(Locks(r)[r.acquired])
  }

  predicate CanLock(env: Env, s: State, c: nat)
    requires c in s.running && s.running[c].acquired < |Locks(s.running[c])|
  {
    var k := NextLock(env, s.running[c]);
    k in s.held ==> s.held[k] == c
  }

  // The document a commit writes next, with its event.
  function NextName(r: Running): Str
    requires r.states.Some? && |r.events| < |EventNames(r.states.value)|
  {
    EventNames(r.states.value)[|r.events|]
  }

  // The collections row the next document needs, when it stays.
  function NextCollection(r: Running): Option<Str>
    requires r.states.Some? && |r.events| < |EventNames(r.states.value)|
  {
    if StateOf(r, NextName(r)).exists_ then Some(CollectionOf(NextName(r))) else None
  }

  // INSERT INTO collections ... ON CONFLICT DO NOTHING: nothing to do for a row that
  // is there, a wait for one another transaction has added and not committed.
  ghost predicate CanInsert(s: State, c: nat)
    requires c in s.running && s.running[c].states.Some? && |s.running[c].events| < |EventNames(s.running[c].states.value)|
  {
    var p := NextCollection(s.running[c]);
    p.Some? && p.value !in s.collections ==> forall d :: d in s.running && d != c ==> p.value !in s.running[d].inserted
  }

  // No two commits give one document the same update time.
  ghost predicate FreshTimes(s: State, r: Running)
    requires r.states.Some?
  {
    forall n :: n in Dirty(r.states.value) ==> (n, r.job.time) !in s.versions
  }

  function NewVersions(docs: Docs, states: map<Str, DocState>): map<(Str, nat), Stored> {
    map n | n in Dirty(states) && n in docs :: (n, docs[n].updateTime) := docs[n]
  }

  predicate AllAllowed(env: Env, job: Job) {
    forall n :: n in LockNames(job) ==> env.allowed(n)
  }

  ghost predicate Enabled(env: Env, s: State, step: Step) {
    match step
    case Begin(t) => t !in s.txns
    case Read(_, _) => true
    case Record(i) => i < |s.observed| && s.observed[i].txn in s.txns
    case Rollback(_) => true
    case Start(c, t, _, time) => c !in s.running && time != ZERO_TIME && (t.Some? ==> t.value in s.txns)
                              && AllAllowed(env, StartOf(s, c, t, step.writes, time).running[c].job)
    case Acquire(c) => c in s.running && s.running[c].acquired < |Locks(s.running[c])| && CanLock(env, s, c)
    case Check(c) => c in s.running && LocksHeld(s.running[c]) && s.running[c].states.None?
    case Assign(c) => c in s.running && LocksHeld(s.running[c]) && s.running[c].xid.None?
    case Append(c) =>
      c in s.running && s.running[c].states.Some? && s.running[c].xid.Some?
      && |s.running[c].events| < |EventNames(s.running[c].states.value)| && CanInsert(s, c)
    case Finish(c) =>
      c in s.running && s.running[c].states.Some? && |s.running[c].events| == |EventNames(s.running[c].states.value)|
      && FreshTimes(s, s.running[c])
    case Fail(c) => c in s.running
    case Open => true
    case Close(x) => x in s.open
    case Poll(limit, page) => IsPage(env, s, limit, page)
  }

  ghost function After(env: Env, s: State, step: Step): State
    requires Enabled(env, s, step)
  {
    match step
    case Begin(t) => s.(txns := s.txns[t := Txn(map[], map[])])
    case Read(t, names) => s.(observed := s.observed + [Observation(t, Observe(s.table, names))])
    case Record(i) => var o := s.observed[i]; s.(txns := s.txns[o.txn := Recorded(s.txns[o.txn], o)])
    case Rollback(t) => s.(txns := s.txns - {t})
    case Start(c, t, ws, time) => StartOf(s, c, t, ws, time)
    case Acquire(c) => AcquireOf(env, s, c)
    case Check(c) => CheckOf(s, c)
    case Assign(c) => AssignOf(s, c)
    case Append(c) => AppendOf(s, c)
    case Finish(c) => FinishOf(s, c)
    case Fail(c) => Gone(s, c)
    case Open => s.(open := s.open + {s.nextXid}, nextXid := s.nextXid + 1)
    case Close(x) => s.(open := s.open - {x})
    case Poll(_, page) => s.(reader := ReaderAfter(s.reader, page))
  }

  function StateOf(r: Running, n: Str): DocState
    requires r.states.Some?
  {
    if n in r.states.value then r.states.value[n] else Load(None)
  }

  function StartOf(s: State, c: nat, t: Option<TxnId>, ws: seq<Write>, time: Instant): State
    requires t.Some? ==> t.value in s.txns
  {
    if t.None? then s.(running := s.running[c := Running(Job(map[], map[], ws, time), 0, None, None, [], {})])
    else
      var e := s.txns[t.value];
      s.(txns := s.txns - {t.value},
         running := s.running[c := Running(Job(e.verify, e.seen, ws, time), 0, None, None, [], {})])
  }

  function AcquireOf(env: Env, s: State, c: nat): State
    requires c in s.running && s.running[c].acquired < |Locks(s.running[c])|
  {
    var r := s.running[c];
    s.(running := s.running[c := r.(acquired := r.acquired + 1)], held := s.held[NextLock(env, r) := c])
  }

  // The check fails or passes as a whole.
  function CheckOf(s: State, c: nat): State
    requires c in s.running
  {
    var r := s.running[c];
    var states := Prepare(s.table, r.job);
    if states.None? then Gone(s, c) else s.(running := s.running[c := r.(states := states)])
  }

  function AssignOf(s: State, c: nat): State
    requires c in s.running
  {
    s.(running := s.running[c := s.running[c].(xid := Some(s.nextXid))], nextXid := s.nextXid + 1)
  }

  // appendChange: the next document's event, with the next sequence number.
  function NextEvent(s: State, r: Running): Event
    requires r.states.Some? && r.xid.Some? && |r.events| < |EventNames(r.states.value)|
  {
    Event(r.xid.value, s.nextSeq, NextName(r), !StateOf(r, NextName(r)).exists_)
  }

  function InsertedNext(s: State, r: Running): set<Str>
    requires r.states.Some? && |r.events| < |EventNames(r.states.value)|
  {
    var p := NextCollection(r);
    if p.Some? && p.value !in s.collections then r.inserted + {p.value} else r.inserted
  }

  // One document of the loop over targets: its row, its collection and its event.
  function AppendOf(s: State, c: nat): State
    requires c in s.running && s.running[c].states.Some? && s.running[c].xid.Some?
    requires |s.running[c].events| < |EventNames(s.running[c].states.value)|
  {
    var r := s.running[c];
    s.(running := s.running[c := r.(events := r.events + [NextEvent(s, r)], inserted := InsertedNext(s, r))],
       nextSeq := s.nextSeq + 1)
  }

  function FinishOf(s: State, c: nat): State
    requires c in s.running && s.running[c].states.Some?
  {
    var r := s.running[c];
    var table := Persist(s.table, r.states.value);
    Gone(s, c).(table := table, collections := s.collections + r.inserted, versions := s.versions + NewVersions(table, r.states.value),
                feed := s.feed + r.events, log := s.log + [r.job])
  }

  function ReaderAfter(r: Reader, page: seq<Event>): Reader {
    if page == [] then r
    else Reader(page[|page| - 1].xid, page[|page| - 1].seqNo, r.delivered + page)
  }

  // --------------------------------------------------------- what a step touches

  // The commit a step belongs to.
  function Actor(step: Step): Option<nat> {
    match step
    case Start(c, _, _, _) => Some(c)
    case Acquire(c) => Some(c)
    case Check(c) => Some(c)
    case Assign(c) => Some(c)
    case Append(c) => Some(c)
    case Finish(c) => Some(c)
    case Fail(c) => Some(c)
    case _ => None
  }

  lemma AcquireIs(env: Env, s: State, c: nat)
    requires c in s.running && s.running[c].acquired < |Locks(s.running[c])| && CanLock(env, s, c)
    ensures Enabled(env, s, Acquire(c)) && After(env, s, Acquire(c)) == AcquireOf(env, s, c)
  {}

  lemma AcquireOnly(env: Env, s: State, c: nat)
    requires Enabled(env, s, Acquire(c))
    ensures c in s.running && s.running[c].acquired < |Locks(s.running[c])| && After(env, s, Acquire(c)) == AcquireOf(env, s, c)
  {
    hide Locks, CanLock;
  }

  // A check that passes records what it found.
  lemma CheckIs(env: Env, s: State, c: nat)
    requires Enabled(env, s, Check(c)) && c in After(env, s, Check(c)).running
    ensures c in s.running && LocksHeld(s.running[c]) && s.running[c].states.None? && Prepare(s.table, s.running[c].job).Some?
    ensures After(env, s, Check(c)).running[c] == s.running[c].(states := Prepare(s.table, s.running[c].job))
    ensures After(env, s, Check(c)).table == s.table
  {
    hide Prepare, LocksHeld, Release;
  }

  lemma AssignIs(env: Env, s: State, c: nat)
    requires Enabled(env, s, Assign(c))
    ensures c in s.running && LocksHeld(s.running[c]) && s.running[c].xid.None? && After(env, s, Assign(c)) == AssignOf(s, c)
  {}

  lemma AppendIs(env: Env, s: State, c: nat)
    requires Enabled(env, s, Append(c))
    ensures c in s.running && s.running[c].states.Some? && s.running[c].xid.Some?
    ensures |s.running[c].events| < |EventNames(s.running[c].states.value)| && After(env, s, Append(c)) == AppendOf(s, c)
  {}

  lemma FinishEnabled(env: Env, s: State, c: nat)
    requires Enabled(env, s, Finish(c))
    ensures c in s.running && s.running[c].states.Some?
  {
    hide EventNames, FreshTimes;
  }

  // The steps of a commit that is neither starting nor ending.
  lemma WorkIs(env: Env, s: State, step: Step)
    requires Enabled(env, s, step) && (step.Acquire? || step.Assign? || step.Append?)
    ensures var s' := After(env, s, step);
      && step.c in s.running && s'.running.Keys == s.running.Keys
      && s'.running == s.running[step.c := s'.running[step.c]] && s'.running[step.c].job == s.running[step.c].job
  {
    hide SortedKeys, EventNames, NextEvent, NextLock, CanLock, Locks, NextCollection, InsertedNext;
  }

  // The steps that end a commit, or might.
  lemma EndIs(env: Env, s: State, step: Step)
    requires Enabled(env, s, step) && (step.Check? || step.Finish? || step.Fail?)
    ensures var s' := After(env, s, step);
      && step.c in s.running && s'.running.Keys <= s.running.Keys
      && (forall d :: d in s.running && d != step.c ==> d in s'.running && s'.running[d] == s.running[d])
      && (step.c in s'.running ==> step.Check? && s'.running[step.c] == s.running[step.c].(states := s'.running[step.c].states))
      && (forall k :: k in s.held && s.held[k] != step.c ==> k in s'.held && s'.held[k] == s.held[k])
      && (step.c in s'.running ==> s'.held == s.held)
  {
    hide SortedKeys, Prepare, Persist, FreshTimes, NewVersions, EventNames, LocksHeld, Locks, Dirty;
  }

  // The steps that belong to no commit.
  lemma IdleIs(env: Env, s: State, step: Step)
    requires Enabled(env, s, step) && Actor(step).None?
    ensures var s' := After(env, s, step); s'.running == s.running && s'.held == s.held
  {
    hide SortedKeys, IsPage, Recorded, Observe, ReaderAfter;
  }

  lemma StartIs(env: Env, s: State, step: Step)
    requires Enabled(env, s, step) && step.Start?
    ensures step.txn.Some? ==> step.txn.value in s.txns
    ensures After(env, s, step) == StartOf(s, step.c, step.txn, step.writes, step.time)
    ensures step.c !in s.running && AllAllowed(env, StartOf(s, step.c, step.txn, step.writes, step.time).running[step.c].job)
  {
    hide AllAllowed;
  }

  // A step changes no commit but its own, and never a job.
  lemma RunningAfter(env: Env, s: State, step: Step, d: nat)
    requires Enabled(env, s, step) && d in After(env, s, step).running
    ensures d !in s.running ==> step.Start? && step.c == d
    ensures d in s.running && Actor(step) != Some(d) ==> After(env, s, step).running[d] == s.running[d]
    ensures d in s.running ==> After(env, s, step).running[d].job == s.running[d].job
  {
    hide Enabled, After;
    if step.Acquire? || step.Assign? || step.Append? { WorkIs(env, s, step); }
    else if step.Check? || step.Finish? || step.Fail? { EndIs(env, s, step); }
    else if step.Start? { StartIs(env, s, step); }
    else { IdleIs(env, s, step); }
  }

  // The table changes only when a commit takes effect, locks only with their owner.
  lemma TableAfter(env: Env, s: State, step: Step)
    requires Enabled(env, s, step)
    ensures !step.Finish? ==>
      var s' := After(env, s, step);
      s'.table == s.table && s'.collections == s.collections && s'.versions == s.versions && s'.feed == s.feed && s'.log == s.log
    ensures step.Finish? ==> After(env, s, step) == FinishOf(s, step.c)
  {
    hide Enabled, After, FinishOf;
    if step.Acquire? || step.Assign? || step.Append? { WorkFrame(env, s, step); }
    else if step.Check? || step.Finish? || step.Fail? { EndFrame(env, s, step); }
    else { IdleFrame(env, s, step); }
  }

  // What the steps of a commit under way leave alone,
  lemma WorkFrame(env: Env, s: State, step: Step)
    requires Enabled(env, s, step) && (step.Acquire? || step.Assign? || step.Append?)
    ensures var s' := After(env, s, step);
      s' == s.(running := s'.running, held := s'.held, nextXid := s'.nextXid, nextSeq := s'.nextSeq)
  {
    hide SortedKeys, EventNames, NextEvent, NextLock, CanLock, Locks, NextCollection, InsertedNext;
  }

  // ... those that end it without effect,
  lemma EndFrame(env: Env, s: State, step: Step)
    requires Enabled(env, s, step) && (step.Check? || step.Finish? || step.Fail?)
    ensures var s' := After(env, s, step);
      if step.Finish? then s' == FinishOf(s, step.c) else s' == s.(running := s'.running, held := s'.held)
  {
    hide SortedKeys, Prepare, Persist, FreshTimes, EventNames, LocksHeld, FinishOf, Release;
  }

  // ... and the others.
  lemma IdleFrame(env: Env, s: State, step: Step)
    requires Enabled(env, s, step) && (Actor(step).None? || step.Start?)
    ensures var s' := After(env, s, step);
      s' == s.(txns := s'.txns, observed := s'.observed, running := s'.running, open := s'.open, nextXid := s'.nextXid, reader := s'.reader)
  {
    hide SortedKeys, IsPage, Recorded, Observe, ReaderAfter, AllAllowed;
  }

  lemma HeldAfter(env: Env, s: State, step: Step, d: nat, k: int)
    requires Enabled(env, s, step) && k in s.held && s.held[k] == d && d in After(env, s, step).running
    ensures k in After(env, s, step).held && After(env, s, step).held[k] == d
  {
    hide Enabled, After;
    if step.Acquire? || step.Assign? || step.Append? { WorkHeld(env, s, step, k); }
    else if step.Check? || step.Finish? || step.Fail? { EndIs(env, s, step); }
    else if step.Start? { StartIs(env, s, step); }
    else { IdleIs(env, s, step); }
  }

  lemma WorkHeld(env: Env, s: State, step: Step, k: int)
    requires Enabled(env, s, step) && (step.Acquire? || step.Assign? || step.Append?) && k in s.held
    ensures k in After(env, s, step).held && After(env, s, step).held[k] == s.held[k]
  {
    hide SortedKeys, EventNames, NextEvent, Locks, NextCollection, InsertedNext, NextLock;
  }

  // ----------------------------------------------------------------------- runs

  // Any table, nothing under way, the counters anywhere, the reader at the start.
  ghost predicate Initial(s: State) {
    && s.txns == map[] && s.observed == [] && s.running == map[] && s.held == map[] && s.open == {}
    && s.feed == [] && s.log == [] && s.reader == Reader(0, 0, []) && s.nextXid > 0
    && (forall n :: n in s.table ==> s.table[n].updateTime != ZERO_TIME && (n, s.table[n].updateTime) in s.versions
                                     && s.versions[(n, s.table[n].updateTime)] == s.table[n])
  }

  ghost predicate IsBehavior(env: Env, states: seq<State>, steps: seq<Step>) {
    && |states| == |steps| + 1 && Initial(states[0])
    && forall i :: 0 <= i < |steps| ==> Enabled(env, states[i], steps[i]) && states[i + 1] == After(env, states[i], steps[i])
  }

  lemma PrefixBehavior(env: Env, states: seq<State>, steps: seq<Step>, n: nat)
    requires IsBehavior(env, states, steps) && n <= |steps|
    ensures IsBehavior(env, states[..n + 1], steps[..n])
  {
    hide Enabled, After, Initial;
  }
}
