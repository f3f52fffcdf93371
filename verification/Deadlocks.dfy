// Deadlock freedom of commits: they wait for advisory locks and, holding those, for
// the collections rows other commits have inserted (applyCommit in
// internal/store/store.go). Exactly when no run gets stuck.
module Deadlocks {
  import opened Bytes
  import opened Values
  import opened FieldPaths
  import opened DocNames
  import opened Storage
  import opened Transforms
  import opened Transactions
  import opened Protocol
  import opened Serializability
  import opened LockOrder
  import ChangeFeed

  // ------------------------------------------------------- who inserted which row

  // The documents a commit has written so far.
  ghost predicate InsertedFor(r: Running, p: Str) {
    r.states.Some? && exists i :: 0 <= i < |r.events| && i < |EventNames(r.states.value)| && CollectionOf(EventNames(r.states.value)[i]) == p
  }

  ghost predicate RowsOk(s: State, c: nat) {
    c in s.running ==>
      && (forall p :: p in s.running[c].inserted ==> p !in s.collections && InsertedFor(s.running[c], p))
      && (s.running[c].inserted != {} ==> s.running[c].xid.Some?)
      && (forall d, p :: d in s.running && d != c && p in s.running[c].inserted ==> p !in s.running[d].inserted)
  }

  ghost predicate RowInv(s: State) { forall c :: RowsOk(s, c) }

  lemma RowStep(env: Env, s: State, step: Step)
    requires RowInv(s) && Enabled(env, s, step)
    ensures RowInv(After(env, s, step)) && s.collections <= After(env, s, step).collections
  {
    hide Enabled, After, RowsOk;
    CollectionsGrow(env, s, step);
    forall c ensures RowsOk(After(env, s, step), c) { RowsStep(env, s, step, c); }
  }

  lemma CollectionsGrow(env: Env, s: State, step: Step)
    requires Enabled(env, s, step)
    ensures s.collections <= After(env, s, step).collections
    ensures !step.Finish? ==> After(env, s, step).collections == s.collections
    ensures step.Finish? ==>
      step.c in s.running && step.c !in After(env, s, step).running
      && After(env, s, step).collections == s.collections + s.running[step.c].inserted
  {
    hide After, SortedKeys, EventNames, FreshTimes, IsPage, Persist, NewVersions;
    TableAfter(env, s, step);
  }

  // What a step does to the rows a commit has inserted.
  lemma InsertedAfter(env: Env, s: State, step: Step, c: nat)
    requires Enabled(env, s, step) && c in After(env, s, step).running
    ensures var r := After(env, s, step).running[c];
      && (c !in s.running ==> r.inserted == {})
      && (c in s.running && step != Append(c) ==> r.inserted == s.running[c].inserted)
  {
    hide Enabled, After;
    RunningAfter(env, s, step, c);
    if Actor(step) == Some(c) {
      if step.Start? { StartIs(env, s, step); }
      else if step.Check? || step.Finish? || step.Fail? { EndIs(env, s, step); }
      else if !step.Append? { QuietWork(env, s, step); }
    }
  }

  lemma QuietWork(env: Env, s: State, step: Step)
    requires Enabled(env, s, step) && (step.Acquire? || step.Assign?)
    ensures step.c in s.running && step.c in After(env, s, step).running
    ensures var r, r' := s.running[step.c], After(env, s, step).running[step.c];
      r'.inserted == r.inserted && r'.events == r.events && r'.states == r.states && (r.xid.Some? ==> r'.xid == r.xid)
  {
    hide SortedKeys, NextLock, Locks, CanLock;
  }

  lemma RowsStep(env: Env, s: State, step: Step, c: nat)
    requires RowInv(s) && Enabled(env, s, step)
    ensures RowsOk(After(env, s, step), c)
  {
    hide Enabled, After, InsertedFor, EventNames;
    var s' := After(env, s, step);
    if c in s'.running {
      forall p | p in s'.running[c].inserted
        ensures p !in s'.collections && InsertedFor(s'.running[c], p) && s'.running[c].xid.Some?
      {
        RowKept(env, s, step, c, p);
      }
      forall d, p | d in s'.running && d != c && p in s'.running[c].inserted ensures p !in s'.running[d].inserted {
        RowApart(env, s, step, c, d, p);
      }
    }
  }

  lemma RowKept(env: Env, s: State, step: Step, c: nat, p: Str)
    requires RowInv(s) && Enabled(env, s, step) && c in After(env, s, step).running && p in After(env, s, step).running[c].inserted
    ensures var s' := After(env, s, step);
      p !in s'.collections && InsertedFor(s'.running[c], p) && s'.running[c].xid.Some?
  {
    hide Enabled, After, EventNames;
    CollectionsGrow(env, s, step);
    InsertedAfter(env, s, step, c);
    assert RowsOk(s, c);
    if step == Append(c) {
      AppendRow(env, s, c, p);
    } else {
      StaysInserted(env, s, step, c, p);
      if step.Finish? { assert RowsOk(s, step.c); }
    }
  }

  lemma StaysInserted(env: Env, s: State, step: Step, c: nat, p: Str)
    requires Enabled(env, s, step) && step != Append(c) && c in s.running && c in After(env, s, step).running
    requires InsertedFor(s.running[c], p) && s.running[c].xid.Some?
    ensures InsertedFor(After(env, s, step).running[c], p) && After(env, s, step).running[c].xid.Some?
  {
    hide Enabled, After, EventNames;
    RunningAfter(env, s, step, c);
    if Actor(step) == Some(c) {
      if step.Check? || step.Finish? || step.Fail? { CheckedOnce(env, s, step); }
      else if step.Start? { StartIs(env, s, step); }
      else { QuietWork(env, s, step); }
    }
  }

  lemma CheckedOnce(env: Env, s: State, step: Step)
    requires Enabled(env, s, step) && (step.Check? || step.Finish? || step.Fail?) && step.c in After(env, s, step).running
    ensures step.c in s.running && s.running[step.c].states.None?
  {
    hide SortedKeys, Prepare, Persist, FreshTimes, NewVersions, EventNames, LocksHeld;
  }

  // The row an append adds is that of the document it writes.
  lemma AppendRow(env: Env, s: State, c: nat, p: Str)
    requires RowInv(s) && Enabled(env, s, Append(c)) && c in After(env, s, Append(c)).running
    requires p in After(env, s, Append(c)).running[c].inserted
    ensures var s' := After(env, s, Append(c));
      && p !in s'.collections && InsertedFor(s'.running[c], p) && s'.running[c].xid.Some?
      && (p in s.running[c].inserted || forall d :: d in s.running && d != c ==> p !in s.running[d].inserted)
  {
    hide SortedKeys, EventNames;
    AppendIs(env, s, c);
    assert RowsOk(s, c);
    var r, r' := s.running[c], After(env, s, Append(c)).running[c];
    if p in r.inserted {
      var i :| 0 <= i < |r.events| && i < |EventNames(r.states.value)| && CollectionOf(EventNames(r.states.value)[i]) == p;
      assert i < |r'.events|;
    } else {
      assert CollectionOf(EventNames(r'.states.value)[|r.events|]) == p;
    }
  }

  lemma RowApart(env: Env, s: State, step: Step, c: nat, d: nat, p: Str)
    requires RowInv(s) && Enabled(env, s, step) && c != d
    requires var s' := After(env, s, step); c in s'.running && d in s'.running && p in s'.running[c].inserted
    ensures p !in After(env, s, step).running[d].inserted
  {
    hide Enabled, After, InsertedFor;
    InsertedAfter(env, s, step, c);
    InsertedAfter(env, s, step, d);
    assert RowsOk(s, c) && RowsOk(s, d);
    if step == Append(c) {
      AppendRow(env, s, c, p);
    } else if step == Append(d) && p in After(env, s, step).running[d].inserted {
      AppendRow(env, s, d, p);
    }
  }

  lemma {:induction false} RunRows(env: Env, states: seq<State>, steps: seq<Step>)
    requires IsBehavior(env, states, steps)
    ensures RowInv(states[|steps|]) && states[0].collections <= states[|steps|].collections
    decreases |steps|
  {
    hide Enabled, After, RowInv;
    var n := |steps|;
    if n == 0 {
      NothingInserted(env, states[0]);
    } else {
      PrefixBehavior(env, states, steps, n - 1);
      RunRows(env, states[..n], steps[..n - 1]);
      RowStep(env, states[n - 1], steps[n - 1]);
    }
  }

  lemma NothingInserted(env: Env, s: State)
    requires Initial(s)
    ensures RowInv(s)
  {}

  // ----------------------------------------------------------- loops of collections

  // One commit of a loop: it has written x and wants y, and holds the lock ids.
  datatype Edge = Edge(x: Str, y: Str, ids: set<int>)

  function From(e: Edge): Str { CollectionOf(e.x) }

  function To(e: Edge): Str { CollectionOf(e.y) }

  // Two collections, not registered yet, that allowed names reach in both orders
  // under locks of their own.
  ghost predicate Tangle(env: Env, registered: set<Str>, a: Str, b: Str, c: Str, d: Str) {
    && Ordered(env, a, b) && Ordered(env, c, d)
    && CollectionOf(a) == CollectionOf(d) != CollectionOf(b) == CollectionOf(c)
    && CollectionOf(a) !in registered && CollectionOf(b) !in registered
    && {env.lockId(a), env.lockId(b)} !! {env.lockId(c), env.lockId(d)}
  }

  ghost predicate Untangled(env: Env, registered: set<Str>) {
    forall a, b, c, d :: !Tangle(env, registered, a, b, c, d)
  }

  ghost predicate IsEdge(env: Env, registered: set<Str>, e: Edge) {
    && Ordered(env, e.x, e.y) && From(e) != To(e) && From(e) !in registered && To(e) !in registered
    && env.lockId(e.x) in e.ids && env.lockId(e.y) in e.ids
  }

  ghost predicate IsLoop(env: Env, registered: set<Str>, es: seq<Edge>) {
    && |es| >= 2
    && (forall i :: 0 <= i < |es| ==> IsEdge(env, registered, es[i]))
    && (forall i :: 0 <= i < |es| - 1 ==> To(es[i]) == From(es[i + 1]))
    && To(es[|es| - 1]) == From(es[0])
    && (forall i, j :: 0 <= i < j < |es| ==> From(es[i]) != From(es[j]) && es[i].ids !! es[j].ids)
  }

  // Two commits of a loop as one.
  function Merge(e: Edge, f: Edge): Edge { Edge(e.x, f.y, e.ids + f.ids) }

  lemma MergeAt(env: Env, registered: set<Str>, es: seq<Edge>, i: nat)
    requires IsLoop(env, registered, es) && |es| >= 3 && i + 1 < |es| && Less(es[i].x, es[i + 1].y)
    ensures IsLoop(env, registered, es[..i] + [Merge(es[i], es[i + 1])] + es[i + 2..])
  {
    hide Less, CollectionOf;
    var m := Merge(es[i], es[i + 1]);
    var fs := es[..i] + [m] + es[i + 2..];
    assert From(m) == From(es[i]) && To(m) == To(es[i + 1]);
    assert IsEdge(env, registered, es[i]) && IsEdge(env, registered, es[i + 1]);
    var next := if i + 2 < |es| then i + 2 else 0;
    assert To(m) == From(es[next]) && next != i;
    forall j | 0 <= j < |fs| ensures IsEdge(env, registered, fs[j]) {
      if j != i { assert fs[j] == es[if j < i then j else j + 1]; }
    }
    forall j | 0 <= j < |fs| - 1 ensures To(fs[j]) == From(fs[j + 1]) {
      assert fs[j] == (if j < i then es[j] else if j == i then m else es[j + 1]);
      assert fs[j + 1] == (if j + 1 < i then es[j + 1] else if j + 1 == i then m else es[j + 2]);
    }
    forall j, k | 0 <= j < k < |fs| ensures From(fs[j]) != From(fs[k]) && fs[j].ids !! fs[k].ids {
      assert fs[j] == (if j < i then es[j] else if j == i then m else es[j + 1]);
      assert fs[k] == (if k < i then es[k] else if k == i then m else es[k + 1]);
    }
  }

  // A loop read from its second commit on.
  lemma Rotate(env: Env, registered: set<Str>, es: seq<Edge>)
    requires IsLoop(env, registered, es)
    ensures IsLoop(env, registered, es[1..] + [es[0]])
  {
    hide IsEdge, CollectionOf;
    var fs := es[1..] + [es[0]];
    forall j | 0 <= j < |fs| - 1 ensures To(fs[j]) == From(fs[j + 1]) {
      assert fs[j] == es[j + 1] && fs[j + 1] == (if j + 2 < |es| then es[j + 2] else es[0]);
    }
  }

  // Every loop shortens to one of two commits, which is a tangle.
  lemma {:induction false} LoopTangles(env: Env, registered: set<Str>, es: seq<Edge>)
    requires IsLoop(env, registered, es)
    ensures !Untangled(env, registered)
    decreases |es|
  {
    hide Less, CollectionOf, Untangled, IsLoop, IsEdge;
    if |es| <= 2 {
      PairTangles(env, registered, es);
    } else if i :| 0 <= i < |es| - 1 && Less(es[i].x, es[i + 1].y) {
      MergeAt(env, registered, es, i);
      LoopTangles(env, registered, es[..i] + [Merge(es[i], es[i + 1])] + es[i + 2..]);
    } else {
      FallsAround(env, registered, es, |es| - 1);
      Rotate(env, registered, es);
      var fs, n := es[1..] + [es[0]], |es| - 2;
      LastBelow(env, registered, es);
      assert fs[n] == es[|es| - 1] && fs[n + 1] == es[0];
      MergeAt(env, registered, fs, n);
      LoopTangles(env, registered, fs[..n] + [Merge(fs[n], fs[n + 1])] + fs[n + 2..]);
    }
  }

  lemma PairTangles(env: Env, registered: set<Str>, es: seq<Edge>)
    requires IsLoop(env, registered, es) && |es| <= 2
    ensures !Untangled(env, registered)
  {
    hide Less, CollectionOf;
    assert IsEdge(env, registered, es[0]) && IsEdge(env, registered, es[1]);
    assert Tangle(env, registered, es[0].x, es[0].y, es[1].x, es[1].y);
  }

  // When no neighbours merge, what the commits wrote falls all the way round.
  lemma {:induction false} FallsAround(env: Env, registered: set<Str>, es: seq<Edge>, n: nat)
    requires IsLoop(env, registered, es) && |es| >= 3 && n < |es|
    requires forall i :: 0 <= i < |es| - 1 ==> !Less(es[i].x, es[i + 1].y)
    ensures n > 0 ==> Less(es[n].x, es[0].x)
    decreases n
  {
    hide Less, CollectionOf;
    if n > 0 {
      FallsAround(env, registered, es, n - 1);
      var e, f := es[n - 1], es[n];
      assert IsEdge(env, registered, e) && IsEdge(env, registered, f);
      var next := if n + 1 < |es| then n + 1 else 0;
      assert To(f) == From(es[next]) && From(e) != From(es[next]);
      LessTotal(e.x, f.y);
      LessTrans(f.x, f.y, e.x);
      if n > 1 { LessTrans(f.x, e.x, es[0].x); }
    }
  }

  lemma LastBelow(env: Env, registered: set<Str>, es: seq<Edge>)
    requires IsLoop(env, registered, es) && Less(es[|es| - 1].x, es[0].x)
    ensures Less(es[|es| - 1].x, es[0].y)
  {
    hide Less, CollectionOf;
    assert IsEdge(env, registered, es[0]);
    LessTrans(es[|es| - 1].x, es[0].x, es[0].y);
  }

  // -------------------------------------------------------------- waiting for rows

  // It would insert a row that another commit has inserted and not committed.
  ghost predicate Blocked(s: State, c: nat) {
    && c in s.running && s.running[c].states.Some? && s.running[c].xid.Some?
    && |s.running[c].events| < |EventNames(s.running[c].states.value)| && !CanInsert(s, c)
  }

  ghost predicate RowWaits(s: State, c: nat, d: nat) {
    && Blocked(s, c) && d in s.running && c != d
    && NextCollection(s.running[c]).Some? && NextCollection(s.running[c]).value in s.running[d].inserted
  }

  // Neither a lock nor a row keeps it from its next step.
  ghost predicate CanProceed(env: Env, s: State, c: nat) { LockFree(env, s, c) && !Blocked(s, c) }

  ghost predicate WaitsFor(env: Env, s: State, c: nat, d: nat) { LockWaits(env, s, c, d) || RowWaits(s, c, d) }

  ghost predicate IsChain(env: Env, s: State, chain: seq<nat>) {
    forall i :: 0 <= i < |chain| - 1 ==> WaitsFor(env, s, chain[i], chain[i + 1])
  }

  ghost predicate Reached(env: Env, s: State) { LockInv(env, s) && HeldInv(env, s) && AllowedInv(env, s) && RowInv(s) }

  ghost function LockIds(env: Env, r: Running): set<int> { set n | n in LockNames(r.job) :: env.lockId(n) }

  // A blocked commit that inserted a row is a commit of a loop.
  lemma EdgeOf(env: Env, s: State, d: nat, p: Str) returns (e: Edge)
    requires Reached(env, s) && Blocked(s, d) && p in s.running[d].inserted
    ensures IsEdge(env, s.collections, e) && From(e) == p && e.ids == LockIds(env, s.running[d])
    ensures NextCollection(s.running[d]) == Some(To(e))
  {
    hide CollectionOf, Less, Reached, EventNames, LockIds, LockNames;
    var r := s.running[d];
    var i := WrittenBefore(env, s, d, p);
    var names := EventNames(r.states.value);
    e := Edge(names[i], names[|r.events|], LockIds(env, r));
    LockedEvent(env, s, d, i);
    LockedEvent(env, s, d, |r.events|);
    OwnLockId(env, r, e.x);
    OwnLockId(env, r, e.y);
    NamesAscend(r.states.value, i, |r.events|);
    BlockedOn(env, s, d, p);
  }

  lemma OwnLockId(env: Env, r: Running, n: Str)
    requires n in LockNames(r.job)
    ensures env.lockId(n) in LockIds(env, r)
  {}

  lemma NamesAscend(states: map<Str, DocState>, i: nat, j: nat)
    requires i < j < |EventNames(states)|
    ensures Less(EventNames(states)[i], EventNames(states)[j])
  {}

  lemma WrittenBefore(env: Env, s: State, d: nat, p: Str) returns (i: nat)
    requires Reached(env, s) && d in s.running && p in s.running[d].inserted
    ensures s.running[d].states.Some? && i < |s.running[d].events| && i < |EventNames(s.running[d].states.value)|
    ensures CollectionOf(EventNames(s.running[d].states.value)[i]) == p && p !in s.collections
  {
    hide CollectionOf, EventNames, LockInv, HeldInv, AllowedInv;
    assert RowsOk(s, d);
    var r := s.running[d];
    i :| 0 <= i < |r.events| && i < |EventNames(r.states.value)| && CollectionOf(EventNames(r.states.value)[i]) == p;
  }

  // What a blocked commit waits for is new, and not its own.
  lemma BlockedOn(env: Env, s: State, d: nat, p: Str)
    requires Reached(env, s) && Blocked(s, d) && p in s.running[d].inserted
    ensures var r := s.running[d];
      var q := CollectionOf(EventNames(r.states.value)[|r.events|]);
      NextCollection(r) == Some(q) && q !in s.collections && q != p
  {
    hide CollectionOf, EventNames, LockInv, HeldInv, AllowedInv;
    var q := NextCollection(s.running[d]).value;
    var e :| e in s.running && e != d && q in s.running[e].inserted;
    assert RowsOk(s, e);
  }

  lemma LockedEvent(env: Env, s: State, d: nat, i: nat)
    requires Reached(env, s) && d in s.running && s.running[d].states.Some? && i < |EventNames(s.running[d].states.value)|
    ensures var n := EventNames(s.running[d].states.value)[i]; n in LockNames(s.running[d].job) && env.allowed(n)
  {
    hide SortedKeys, Prepare, HoldsLocks;
    var r := s.running[d];
    var names := EventNames(r.states.value);
    assert names[i] in names;
    assert CheckHolds(s.table, r);
    PrepareWrites(s.table, r.job, names[i]);
    assert AllAllowed(env, r.job);
  }

  // Commits past their locks hold ids of their own.
  lemma OwnIds(env: Env, s: State, c: nat, d: nat)
    requires Reached(env, s) && c != d && c in s.running && d in s.running && s.running[c].xid.Some? && s.running[d].xid.Some?
    ensures LockIds(env, s.running[c]) !! LockIds(env, s.running[d])
  {
    hide SortedKeys, Prepare, HoldsLocks;
    assert CheckHolds(s.table, s.running[c]) && CheckHolds(s.table, s.running[d]);
    forall k | k in LockIds(env, s.running[c]) && k in LockIds(env, s.running[d]) ensures false {
      var m :| m in LockNames(s.running[c].job) && env.lockId(m) == k;
      var n :| n in LockNames(s.running[d].job) && env.lockId(n) == k;
      HoldsName(env, s, c, m);
      HoldsName(env, s, d, n);
    }
  }

  ghost predicate IsPath(s: State, path: seq<nat>) {
    && path != [] && (forall i :: 0 <= i < |path| ==> path[i] in s.running)
    && (forall i, j :: 0 <= i < j < |path| ==> path[i] != path[j])
    && (forall i :: 0 <= i < |path| - 1 ==> RowWaits(s, path[i], path[i + 1]))
  }

  // A path that closes is a loop.
  lemma ClosedPath(env: Env, s: State, path: seq<nat>) returns (es: seq<Edge>)
    requires Reached(env, s) && IsPath(s, path) && |path| >= 2 && RowWaits(s, path[|path| - 1], path[0])
    ensures IsLoop(env, s.collections, es)
  {
    hide IsEdge, CollectionOf, RowsOk, LockNames, Reached, EventNames, CanInsert, LockIds;
    var n := |path|;
    es := [];
    for i := 0 to n
      invariant |es| == i
      invariant forall j :: 0 <= j < i ==> EdgeFor(env, s, path, j, es[j])
    {
      var e := NextEdge(env, s, path, i);
      es := es + [e];
    }
    LoopOf(env, s, path, es);
  }

  lemma NextEdge(env: Env, s: State, path: seq<nat>, i: nat) returns (e: Edge)
    requires Reached(env, s) && IsPath(s, path) && |path| >= 2 && RowWaits(s, path[|path| - 1], path[0]) && i < |path|
    ensures EdgeFor(env, s, path, i, e)
  {
    hide IsEdge, CollectionOf, Reached, EventNames, CanInsert, LockIds;
    var before := if i == 0 then |path| - 1 else i - 1;
    var after := if i + 1 == |path| then 0 else i + 1;
    assert RowWaits(s, path[before], path[i]) && RowWaits(s, path[i], path[after]);
    e := EdgeOf(env, s, path[i], NextCollection(s.running[path[before]]).value);
  }

  ghost predicate EdgeFor(env: Env, s: State, path: seq<nat>, j: nat, e: Edge)
    requires j < |path|
  {
    var d := path[j];
    var before := path[if j == 0 then |path| - 1 else j - 1];
    && d in s.running && before in s.running && Blocked(s, d) && Blocked(s, before) && IsEdge(env, s.collections, e)
    && e.ids == LockIds(env, s.running[d]) && From(e) in s.running[d].inserted
    && NextCollection(s.running[d]) == Some(To(e)) && NextCollection(s.running[before]) == Some(From(e))
  }

  lemma LoopOf(env: Env, s: State, path: seq<nat>, es: seq<Edge>)
    requires Reached(env, s) && IsPath(s, path) && |path| >= 2 && |es| == |path|
    requires forall j :: 0 <= j < |path| ==> EdgeFor(env, s, path, j, es[j])
    ensures IsLoop(env, s.collections, es)
  {
    hide IsEdge, CollectionOf, LockNames, LockInv, HeldInv, AllowedInv, NextCollection, EventNames;
    var n := |path|;
    forall i | 0 <= i < n - 1 ensures To(es[i]) == From(es[i + 1]) {
      assert EdgeFor(env, s, path, i, es[i]) && EdgeFor(env, s, path, i + 1, es[i + 1]);
    }
    assert EdgeFor(env, s, path, n - 1, es[n - 1]) && EdgeFor(env, s, path, 0, es[0]);
    forall i, j | 0 <= i < j < n ensures From(es[i]) != From(es[j]) && es[i].ids !! es[j].ids {
      assert EdgeFor(env, s, path, i, es[i]) && EdgeFor(env, s, path, j, es[j]);
      assert RowsOk(s, path[i]);
      OwnIds(env, s, path[i], path[j]);
    }
  }

  // ------------------------------------------------------------------- progress

  lemma BlockedWaits(env: Env, s: State, c: nat) returns (d: nat)
    requires Reached(env, s) && Blocked(s, c)
    ensures RowWaits(s, c, d) && LockFree(env, s, d)
  {
    hide EventNames, CollectionOf, HeldInv, AllowedInv, SortedKeys, Prepare;
    var q := NextCollection(s.running[c]).value;
    d :| d in s.running && d != c && q in s.running[d].inserted;
    assert RowsOk(s, d);
    assert CheckHolds(s.table, s.running[d]);
  }

  // From a blocked commit the chain of inserters ends at one that can proceed.
  lemma {:induction false} RowProgress(env: Env, s: State, path: seq<nat>) returns (chain: seq<nat>)
    requires Reached(env, s) && Untangled(env, s.collections) && path != [] && IsPath(s, path) && LockFree(env, s, path[|path| - 1])
    ensures chain != [] && chain[0] == path[0] && IsChain(env, s, chain) && CanProceed(env, s, chain[|chain| - 1])
    decreases |s.running.Keys| - |path|
  {
    hide Reached, Untangled, Blocked, LockFree, LockWaits, IsPath, RowWaits;
    var c := path[|path| - 1];
    if !Blocked(s, c) {
      chain := path;
      PathChains(env, s, path);
    } else {
      var d := BlockedWaits(env, s, c);
      if d in path { Closes(env, s, path, d); }
      Extends(s, path, d);
      PathFits(s, path + [d]);
      chain := RowProgress(env, s, path + [d]);
    }
  }

  lemma PathChains(env: Env, s: State, path: seq<nat>)
    requires IsPath(s, path)
    ensures IsChain(env, s, path)
  {
    hide RowWaits, LockWaits;
  }

  lemma Extends(s: State, path: seq<nat>, d: nat)
    requires IsPath(s, path) && RowWaits(s, path[|path| - 1], d) && d !in path
    ensures IsPath(s, path + [d])
  {
    assert d in s.running;
    hide RowWaits;
  }

  // The chain cannot come back: that would be a loop.
  lemma Closes(env: Env, s: State, path: seq<nat>, d: nat)
    requires Reached(env, s) && Untangled(env, s.collections) && IsPath(s, path) && RowWaits(s, path[|path| - 1], d)
    ensures d !in path
  {
    hide Reached, Untangled;
    if d in path {
      var k :| 0 <= k < |path| && path[k] == d;
      var tail := path[k..];
      assert path[|path| - 1] != d;
      TailPath(s, path, k);
      var es := ClosedPath(env, s, tail);
      LoopTangles(env, s.collections, es);
    }
  }

  lemma TailPath(s: State, path: seq<nat>, k: nat)
    requires IsPath(s, path) && k < |path|
    ensures IsPath(s, path[k..]) && path[k..][|path[k..]| - 1] == path[|path| - 1]
  {
    hide RowWaits;
  }

  lemma PathFits(s: State, path: seq<nat>)
    requires IsPath(s, path)
    ensures |path| <= |s.running.Keys|
  {
    hide RowWaits;
    DistinctMembers(path);
    SubsetSize(Members(path), s.running.Keys);
  }

  ghost function Members(path: seq<nat>): set<nat> { set c | c in path }

  lemma SubsetSize(a: set<nat>, b: set<nat>)
    requires a <= b
    ensures |a| <= |b|
  {
    assert b == a + (b - a);
  }

  lemma {:induction false} DistinctMembers(path: seq<nat>)
    requires forall i, j :: 0 <= i < j < |path| ==> path[i] != path[j]
    ensures |Members(path)| == |path|
    decreases |path|
  {
    if path != [] {
      var n := |path| - 1;
      DistinctMembers(path[..n]);
      assert path == path[..n] + [path[n]];
      assert path[n] !in path[..n];
      assert Members(path) == Members(path[..n]) + {path[n]};
    }
  }

  // Wherever a run stands, every commit under way waits, through others at most,
  // for one that can go on.
  lemma NoDeadlock(env: Env, states: seq<State>, steps: seq<Step>, c: nat) returns (chain: seq<nat>)
    requires IsBehavior(env, states, steps) && c in states[|steps|].running
    requires Consistent(env) && Untangled(env, states[0].collections)
    ensures var s := states[|steps|];
      chain != [] && chain[0] == c && IsChain(env, s, chain) && CanProceed(env, s, chain[|chain| - 1])
  {
    hide Enabled, After, Consistent, LockInv, HeldInv, AllowedInv, RowInv, Untangled, Initial, CanProceed, LockFree, LockWaits;
    RunHeld(env, states, steps);
    RunRows(env, states, steps);
    var s := states[|steps|];
    StillUntangled(env, states[0].collections, s.collections);
    var locks := LockProgress(env, s, c);
    var last := locks[|locks| - 1];
    LockFreeRuns(env, s, last);
    var rows := RowProgress(env, s, [last]);
    chain := locks + rows[1..];
    assert chain[|locks| - 1] == rows[0];
    forall i | 0 <= i < |chain| - 1 ensures WaitsFor(env, s, chain[i], chain[i + 1]) {
      if i < |locks| - 1 {
        assert LockWaits(env, s, locks[i], locks[i + 1]);
      } else {
        var j := i - (|locks| - 1);
        assert chain[i] == rows[j] && chain[i + 1] == rows[j + 1];
      }
    }
  }

  lemma LockFreeRuns(env: Env, s: State, c: nat)
    requires LockFree(env, s, c)
    ensures c in s.running
  {}

  lemma StillUntangled(env: Env, a: set<Str>, b: set<Str>)
    requires Untangled(env, a) && a <= b
    ensures Untangled(env, b)
  {
    forall x, y, z, w ensures !Tangle(env, b, x, y, z, w) {
      assert !Tangle(env, a, x, y, z, w);
    }
  }

  ghost predicate NotStuck(env: Env, s: State) { forall c :: c in s.running ==> exists e :: CanProceed(env, s, e) }

  // No run from s0 ever stands still.
  ghost predicate NeverStuck(env: Env, s0: State) {
    forall states: seq<State>, steps: seq<Step> ::
      IsBehavior(env, states, steps) && |states| == |steps| + 1 && states[0] == s0 ==> NotStuck(env, states[|steps|])
  }

  lemma Unstuck(env: Env, states: seq<State>, steps: seq<Step>)
    requires Consistent(env) && IsBehavior(env, states, steps) && Untangled(env, states[0].collections)
    ensures NotStuck(env, states[|steps|])
  {
    hide Enabled, After, CanProceed, Initial, Consistent, IsChain, Untangled;
    forall c | c in states[|steps|].running ensures exists e :: CanProceed(env, states[|steps|], e) {
      var chain := NoDeadlock(env, states, steps, c);
    }
  }

  // ------------------------------------------------------- a tangle gets stuck

  function PutBoth(a: Str, b: Str): seq<Write> {
    [Update(a, map[], None, Always, []), Update(b, map[], None, Always, [])]
  }

  function PutJob(a: Str, b: Str): Job { Job(map[], map[], PutBoth(a, b), 1) }

  lemma PutTargets(a: Str, b: Str)
    ensures Targets(PutBoth(a, b)) == {a, b} && LockNames(PutJob(a, b)) == {a, b}
  {
    var ws := PutBoth(a, b);
    assert ws[0].name == a && ws[1].name == b;
  }

  lemma PutLocks(a: Str, b: Str, r: Running)
    requires Less(a, b) && r.job == PutJob(a, b)
    ensures Locks(r) == [a, b]
  {
    PutTargets(a, b);
    SortedPair(a, b);
  }

  function PutState(d: Option<Stored>): DocState {
    DocState(true, map[], if d.Some? then d.value.createTime else 1, 1, true)
  }

  function PutStates(docs: Docs, a: Str, b: Str): map<Str, DocState> {
    map[a := PutState(Lookup(docs, a)), b := PutState(Lookup(docs, b))]
  }

  // Two unconditional writes pass their check and leave both documents.
  lemma PutPrepares(docs: Docs, a: Str, b: Str)
    requires a != b
    ensures Prepare(docs, PutJob(a, b)) == Some(PutStates(docs, a, b))
  {
    PutTargets(a, b);
    var ws, loaded := PutBoth(a, b), LoadAll(docs, {a, b});
    var one := PutState(Lookup(docs, a));
    PutApplies(Lookup(docs, a), ws[0]);
    PutApplies(Lookup(docs, b), ws[1]);
    assert ws[1..] == [ws[1]] && ws[1..][1..] == [];
    var mid := loaded[a := one];
    assert mid[b] == Load(Lookup(docs, b));
    assert mid[b := PutState(Lookup(docs, b))] == PutStates(docs, a, b);
    assert ApplyAll(loaded, ws, 1) == ApplyAll(mid, [ws[1]], 1) == Some(PutStates(docs, a, b));
    EmptyStores();
  }

  lemma PutApplies(d: Option<Stored>, w: Write)
    requires w.Update? && w.fields == map[] && w.mask.None? && w.pre == Always && w.transforms == []
    ensures ApplyWrite(Load(d), w, 1) == Some(PutState(d))
  {
    assert TransformAll(map[], [], 1) == Some(map[]);
  }

  lemma EmptyStores()
    ensures StoreFields(map[]).Some?
  {}

  lemma PutEvents(docs: Docs, a: Str, b: Str)
    requires Less(a, b)
    ensures EventNames(PutStates(docs, a, b)) == [a, b]
  {
    CompareRefl(a);
    assert Dirty(PutStates(docs, a, b)) == {a, b};
    SortedPair(a, b);
  }

  // s0 with these commits under way, holding these locks.
  function With(s0: State, rs: map<nat, Running>, held: map<int, nat>, x: nat, y: nat): State {
    s0.(running := rs, held := held, nextXid := s0.nextXid + x, nextSeq := s0.nextSeq + y)
  }

  lemma StartPut(env: Env, s0: State, rs: map<nat, Running>, c: nat, a: Str, b: Str)
    requires c !in rs && env.allowed(a) && env.allowed(b)
    ensures var s := With(s0, rs, map[], 0, 0);
      && Enabled(env, s, Start(c, None, PutBoth(a, b), 1))
      && After(env, s, Start(c, None, PutBoth(a, b), 1))
         == With(s0, rs[c := Running(PutJob(a, b), 0, None, None, [], {})], map[], 0, 0)
  {
    PutTargets(a, b);
  }

  lemma AcquirePut(env: Env, s0: State, rs: map<nat, Running>, held: map<int, nat>, c: nat, a: Str, b: Str)
    requires Less(a, b) && c in rs && rs[c].job == PutJob(a, b) && rs[c].acquired < 2
    requires var k := env.lockId([a, b][rs[c].acquired]); k in held ==> held[k] == c
    ensures var s := With(s0, rs, held, 0, 0);
      && Enabled(env, s, Acquire(c))
      && After(env, s, Acquire(c)) ==
         With(s0, rs[c := rs[c].(acquired := rs[c].acquired + 1)], held[env.lockId([a, b][rs[c].acquired]) := c], 0, 0)
  {
    hide Enabled, After, Less, SortedKeys, Locks;
    PutLocks(a, b, rs[c]);
    AcquireIs(env, With(s0, rs, held, 0, 0), c);
  }

  lemma CheckPut(env: Env, s0: State, rs: map<nat, Running>, held: map<int, nat>, c: nat, a: Str, b: Str)
    requires Less(a, b) && c in rs && rs[c] == Running(PutJob(a, b), 2, None, None, [], {})
    ensures var s := With(s0, rs, held, 0, 0);
      && Enabled(env, s, Check(c))
      && After(env, s, Check(c)) == With(s0, rs[c := rs[c].(states := Some(PutStates(s0.table, a, b)))], held, 0, 0)
  {
    hide Less, SortedKeys, Locks, Prepare, PutStates;
    PutLocks(a, b, rs[c]);
    LessIrreflexive(a, b);
    PutPrepares(s0.table, a, b);
  }

  lemma LessIrreflexive(a: Str, b: Str)
    requires Less(a, b)
    ensures a != b
  {
    CompareRefl(a);
  }

  lemma AssignPut(env: Env, s0: State, rs: map<nat, Running>, held: map<int, nat>, x: nat, c: nat, a: Str, b: Str)
    requires Less(a, b) && c in rs && rs[c].job == PutJob(a, b) && rs[c].acquired == 2 && rs[c].xid.None?
    ensures var s := With(s0, rs, held, x, 0);
      && Enabled(env, s, Assign(c))
      && After(env, s, Assign(c)) == With(s0, rs[c := rs[c].(xid := Some(s0.nextXid + x))], held, x + 1, 0)
  {
    hide Less, SortedKeys, Locks, After;
    PutLocks(a, b, rs[c]);
    AssignIs(env, With(s0, rs, held, x, 0), c);
  }

  // The first of the two documents: its collection is new, and nobody inserted it.
  lemma AppendPut(env: Env, s0: State, rs: map<nat, Running>, held: map<int, nat>, y: nat, c: nat, a: Str, b: Str) returns (e: Event)
    requires Less(a, b) && c in rs && rs[c].states == Some(PutStates(s0.table, a, b)) && rs[c].xid.Some? && rs[c].events == []
    requires CollectionOf(a) !in s0.collections && rs[c].inserted == {}
    requires forall d :: d in rs && d != c ==> CollectionOf(a) !in rs[d].inserted
    ensures var s := With(s0, rs, held, 2, y);
      && Enabled(env, s, Append(c))
      && After(env, s, Append(c)) ==
         With(s0, rs[c := rs[c].(events := [e], inserted := {CollectionOf(a)})], held, 2, y + 1)
  {
    hide Less, CollectionOf, EventNames, After;
    PutEvents(s0.table, a, b);
    var s := With(s0, rs, held, 2, y);
    assert NextName(rs[c]) == a && StateOf(rs[c], a).exists_;
    assert NextCollection(rs[c]) == Some(CollectionOf(a));
    AppendIs(env, s, c);
    e := NextEvent(s, rs[c]);
    assert rs[c].events + [e] == [e];
    assert InsertedNext(s, rs[c]) == {CollectionOf(a)};
  }

  function Written(docs: Docs, a: Str, b: Str, xid: nat, e: Event): Running {
    Running(PutJob(a, b), 2, Some(PutStates(docs, a, b)), Some(xid), [e], {CollectionOf(a)})
  }

  // The end of the run: each has written its first document and wants the row the
  // other one inserted.
  lemma BothBlocked(s: State, docs: Docs, a: Str, b: Str, c: Str, d: Str, x: nat, y: nat, e: Event, f: Event)
    requires Less(a, b) && Less(c, d) && CollectionOf(a) == CollectionOf(d) && CollectionOf(b) == CollectionOf(c)
    requires CollectionOf(a) !in s.collections && CollectionOf(b) !in s.collections
    requires s.running.Keys == {0, 1} && s.running[0] == Written(docs, a, b, x, e) && s.running[1] == Written(docs, c, d, y, f)
    ensures Blocked(s, 0) && Blocked(s, 1)
  {
    hide Less, CollectionOf, EventNames;
    PutEvents(docs, a, b);
    PutEvents(docs, c, d);
    assert 0 in s.running.Keys && 1 in s.running.Keys;
    assert NextCollection(s.running[0]) == Some(CollectionOf(b));
    assert NextCollection(s.running[1]) == Some(CollectionOf(d));
  }

  // Where two new collections are reached in both orders under different locks, two
  // commits of two documents each end up waiting for one another's row.
  lemma TangleDeadlock(env: Env, s0: State, a: Str, b: Str, c: Str, d: Str) returns (states: seq<State>, steps: seq<Step>)
    requires Initial(s0) && Tangle(env, s0.collections, a, b, c, d)
    ensures IsBehavior(env, states, steps) && states[0] == s0
    ensures var s := states[|steps|]; s.running.Keys == {0, 1} && RowWaits(s, 0, 1) && RowWaits(s, 1, 0)
    ensures Start(0, None, PutBoth(a, b), 1) in steps && Start(1, None, PutBoth(c, d), 1) in steps
  {
    hide Less, SortedKeys, Enabled, After, CollectionOf, Initial;
    var rs, held, first, taken := TangleStarts(env, s0, a, b, c, d);
    var second, rest := TangleEnds(env, s0, a, b, c, d, rs, held);
    Join(env, first, taken, second, rest);
    states, steps := first + second[1..], taken + rest;
  }

  // Both begin and take their locks.
  lemma TangleStarts(env: Env, s0: State, a: Str, b: Str, c: Str, d: Str)
    returns (rs: map<nat, Running>, held: map<int, nat>, states: seq<State>, steps: seq<Step>)
    requires Initial(s0) && Tangle(env, s0.collections, a, b, c, d)
    ensures Runs(env, states, steps) && states[0] == s0 && states[|steps|] == With(s0, rs, held, 0, 0)
    ensures Start(0, None, PutBoth(a, b), 1) in steps && Start(1, None, PutBoth(c, d), 1) in steps
    ensures rs.Keys == {0, 1} && 0 in rs && 1 in rs
    ensures rs[0] == Running(PutJob(a, b), 2, None, None, [], {}) && rs[1] == Running(PutJob(c, d), 2, None, None, [], {})
  {
    hide Less, SortedKeys, Enabled, After, CollectionOf, PutStates, Locks, EventNames, PutBoth;
    var r, q := Running(PutJob(a, b), 0, None, None, [], {}), Running(PutJob(c, d), 0, None, None, [], {});
    assert With(s0, map[], map[], 0, 0) == s0;
    StartPut(env, s0, map[], 0, a, b);
    var rs1 := map[0 := r];
    assert map[][0 := r] == rs1;
    StartPut(env, s0, rs1, 1, c, d);
    var rs2 := rs1[1 := q];
    var mid, got := LockTwice(env, s0, rs2, map[], 0, a, b);
    var rs4 := rs2[0 := r.(acquired := 2)];
    var held2 := map[][env.lockId(a) := 0][env.lockId(b) := 0];
    var end, got2 := LockTwice(env, s0, rs4, held2, 1, c, d);
    rs := rs4[1 := q.(acquired := 2)];
    held := held2[env.lockId(c) := 1][env.lockId(d) := 1];
    var start: seq<State> := [s0, With(s0, rs1, map[], 0, 0), With(s0, rs2, map[], 0, 0)];
    var begun: seq<Step> := [Start(0, None, PutBoth(a, b), 1), Start(1, None, PutBoth(c, d), 1)];
    Join(env, mid, got, end, got2);
    Join(env, start, begun, mid + end[1..], got + got2);
    states, steps := start + (mid + end[1..])[1..], begun + (got + got2);
  }

  // A commit of two documents takes both its locks.
  lemma LockTwice(env: Env, s0: State, rs: map<nat, Running>, held: map<int, nat>, c: nat, a: Str, b: Str)
    returns (states: seq<State>, steps: seq<Step>)
    requires Less(a, b) && c in rs && rs[c].job == PutJob(a, b) && rs[c].acquired == 0
    requires forall k :: k in held && k in {env.lockId(a), env.lockId(b)} ==> held[k] == c
    ensures Runs(env, states, steps) && |steps| == 2 && states[0] == With(s0, rs, held, 0, 0)
    ensures states[2] == With(s0, rs[c := rs[c].(acquired := 2)], held[env.lockId(a) := c][env.lockId(b) := c], 0, 0)
  {
    hide Less, Enabled, After;
    AcquirePut(env, s0, rs, held, c, a, b);
    var rs1 := rs[c := rs[c].(acquired := 1)];
    AcquirePut(env, s0, rs1, held[env.lockId(a) := c], c, a, b);
    assert rs1[c := rs[c].(acquired := 2)] == rs[c := rs[c].(acquired := 2)];
    states := [With(s0, rs, held, 0, 0), With(s0, rs1, held[env.lockId(a) := c], 0, 0),
               With(s0, rs1[c := rs[c].(acquired := 2)], held[env.lockId(a) := c][env.lockId(b) := c], 0, 0)];
    steps := [Acquire(c), Acquire(c)];
  }

  ghost predicate Runs(env: Env, states: seq<State>, steps: seq<Step>) {
    |states| == |steps| + 1 &&
    forall i :: 0 <= i < |steps| ==> Enabled(env, states[i], steps[i]) && states[i + 1] == After(env, states[i], steps[i])
  }

  lemma Join(env: Env, a: seq<State>, x: seq<Step>, b: seq<State>, y: seq<Step>)
    requires Runs(env, a, x) && Runs(env, b, y) && a[|x|] == b[0]
    ensures Runs(env, a + b[1..], x + y) && (a + b[1..])[0] == a[0] && (a + b[1..])[|x + y|] == b[|y|]
  {
    hide Enabled, After;
    var s, t := a + b[1..], x + y;
    forall i | 0 <= i < |t| ensures Enabled(env, s[i], t[i]) && s[i + 1] == After(env, s[i], t[i]) {
      if i < |x| { assert s[i] == a[i] && s[i + 1] == a[i + 1]; }
      else { assert s[i] == b[i - |x|] && s[i + 1] == b[i - |x| + 1]; }
    }
  }

  // From all locks held to the wait.
  lemma TangleEnds(env: Env, s0: State, a: Str, b: Str, c: Str, d: Str, rs: map<nat, Running>, held: map<int, nat>)
    returns (states: seq<State>, steps: seq<Step>)
    requires Tangle(env, s0.collections, a, b, c, d) && rs.Keys == {0, 1}
    requires 0 in rs && 1 in rs && rs[0] == Running(PutJob(a, b), 2, None, None, [], {}) && rs[1] == Running(PutJob(c, d), 2, None, None, [], {})
    ensures Runs(env, states, steps) && states[0] == With(s0, rs, held, 0, 0)
    ensures var s := states[|steps|]; s.running.Keys == {0, 1} && RowWaits(s, 0, 1) && RowWaits(s, 1, 0)
  {
    hide Less, SortedKeys, Enabled, After, CollectionOf, PutStates, Locks, EventNames, Blocked, RowWaits;
    var ready, first, taken := TangleChecks(env, s0, a, b, c, d, rs, held);
    var e := AppendPut(env, s0, ready, held, 0, 0, a, b);
    var rs5 := ready[0 := ready[0].(events := [e], inserted := {CollectionOf(a)})];
    var f := AppendPut(env, s0, rs5, held, 1, 1, c, d);
    var rs6 := rs5[1 := rs5[1].(events := [f], inserted := {CollectionOf(c)})];
    var second := [With(s0, ready, held, 2, 0), With(s0, rs5, held, 2, 1), With(s0, rs6, held, 2, 2)];
    BothBlocked(second[2], s0.table, a, b, c, d, s0.nextXid, s0.nextXid + 1, e, f);
    EachOther(second[2], s0.table, a, b, c, d, s0.nextXid, s0.nextXid + 1, e, f);
    Join(env, first, taken, second, [Append(0), Append(1)]);
    states, steps := first + second[1..], taken + [Append(0), Append(1)];
  }

  // Both pass their check and get an id.
  lemma TangleChecks(env: Env, s0: State, a: Str, b: Str, c: Str, d: Str, rs: map<nat, Running>, held: map<int, nat>)
    returns (ready: map<nat, Running>, states: seq<State>, steps: seq<Step>)
    requires Less(a, b) && Less(c, d) && rs.Keys == {0, 1} && 0 in rs && 1 in rs
    requires rs[0] == Running(PutJob(a, b), 2, None, None, [], {}) && rs[1] == Running(PutJob(c, d), 2, None, None, [], {})
    ensures Runs(env, states, steps) && states[0] == With(s0, rs, held, 0, 0) && states[|steps|] == With(s0, ready, held, 2, 0)
    ensures ready.Keys == {0, 1} && 0 in ready && 1 in ready
    ensures ready[0] == Running(PutJob(a, b), 2, Some(PutStates(s0.table, a, b)), Some(s0.nextXid), [], {})
    ensures ready[1] == Running(PutJob(c, d), 2, Some(PutStates(s0.table, c, d)), Some(s0.nextXid + 1), [], {})
  {
    hide Less, Enabled, After, PutStates;
    CheckPut(env, s0, rs, held, 0, a, b);
    var rs1 := rs[0 := rs[0].(states := Some(PutStates(s0.table, a, b)))];
    CheckPut(env, s0, rs1, held, 1, c, d);
    var rs2 := rs1[1 := rs[1].(states := Some(PutStates(s0.table, c, d)))];
    AssignPut(env, s0, rs2, held, 0, 0, a, b);
    var rs3 := rs2[0 := rs2[0].(xid := Some(s0.nextXid))];
    AssignPut(env, s0, rs3, held, 1, 1, c, d);
    ready := rs3[1 := rs3[1].(xid := Some(s0.nextXid + 1))];
    states := [With(s0, rs, held, 0, 0), With(s0, rs1, held, 0, 0), With(s0, rs2, held, 0, 0), With(s0, rs3, held, 1, 0),
               With(s0, ready, held, 2, 0)];
    steps := [Check(0), Check(1), Assign(0), Assign(1)];
  }

  lemma EachOther(s: State, docs: Docs, a: Str, b: Str, c: Str, d: Str, x: nat, y: nat, e: Event, f: Event)
    requires Less(a, b) && Less(c, d) && CollectionOf(a) == CollectionOf(d) && CollectionOf(b) == CollectionOf(c)
    requires s.running.Keys == {0, 1} && 0 in s.running && 1 in s.running
    requires s.running[0] == Written(docs, a, b, x, e) && s.running[1] == Written(docs, c, d, y, f) && Blocked(s, 0) && Blocked(s, 1)
    ensures RowWaits(s, 0, 1) && RowWaits(s, 1, 0)
  {
    hide Less, CollectionOf, EventNames;
    PutEvents(docs, a, b);
    PutEvents(docs, c, d);
  }

  // ------------------------------------------------------------- the exact condition

  // No run from s0 gets stuck exactly when the lock ids are never taken in both
  // orders, and no two collections without a row are reached in both orders.
  lemma DeadlockFreeExact(env: Env, s0: State)
    requires Initial(s0)
    ensures NeverStuck(env, s0) <==> Consistent(env) && Untangled(env, s0.collections)
  {
    hide IsBehavior, NotStuck, Consistent, Untangled, Initial;
    if Consistent(env) && Untangled(env, s0.collections) {
      forall states: seq<State>, steps: seq<Step> | IsBehavior(env, states, steps) && |states| == |steps| + 1 && states[0] == s0
        ensures NotStuck(env, states[|steps|])
      {
        Unstuck(env, states, steps);
      }
    } else {
      var states, steps := ReachesStuck(env, s0);
    }
  }

  lemma ReachesStuck(env: Env, s0: State) returns (states: seq<State>, steps: seq<Step>)
    requires Initial(s0) && !(Consistent(env) && Untangled(env, s0.collections))
    ensures IsBehavior(env, states, steps) && |states| == |steps| + 1 && states[0] == s0 && !NotStuck(env, states[|steps|])
  {
    hide IsBehavior, NotStuck, Consistent, Untangled, Initial;
    if !Consistent(env) { states, steps := CollisionSticks(env, s0); } else { states, steps := TangleSticks(env, s0); }
  }

  lemma CollisionSticks(env: Env, s0: State) returns (states: seq<State>, steps: seq<Step>)
    requires Initial(s0) && !Consistent(env)
    ensures IsBehavior(env, states, steps) && |states| == |steps| + 1 && states[0] == s0 && !NotStuck(env, states[|steps|])
  {
    hide Enabled, After, Initial, Less, NotStuck, LockFree;
    var a, b, c, d :| Ordered(env, a, b) && Ordered(env, c, d) && env.lockId(a) == env.lockId(d) && env.lockId(b) == env.lockId(c)
                      && env.lockId(a) != env.lockId(b);
    states, steps := CollisionDeadlock(env, s0, a, b, c, d);
    LocksStuck(env, states[|steps|]);
  }

  lemma TangleSticks(env: Env, s0: State) returns (states: seq<State>, steps: seq<Step>)
    requires Initial(s0) && !Untangled(env, s0.collections)
    ensures IsBehavior(env, states, steps) && |states| == |steps| + 1 && states[0] == s0 && !NotStuck(env, states[|steps|])
  {
    hide Enabled, After, Initial, NotStuck, Tangle, RowWaits;
    var a, b, c, d :| Tangle(env, s0.collections, a, b, c, d);
    states, steps := TangleDeadlock(env, s0, a, b, c, d);
    RowsStuck(env, states[|steps|]);
  }

  lemma LocksStuck(env: Env, s: State)
    requires s.running.Keys == {0, 1} && !LockFree(env, s, 0) && !LockFree(env, s, 1)
    ensures !NotStuck(env, s)
  {
    hide SortedKeys, Blocked;
    assert 0 in s.running.Keys;
    forall e ensures !CanProceed(env, s, e) { assert e in s.running ==> e in s.running.Keys; }
  }

  lemma RowsStuck(env: Env, s: State)
    requires s.running.Keys == {0, 1} && RowWaits(s, 0, 1) && RowWaits(s, 1, 0)
    ensures !NotStuck(env, s)
  {
    hide SortedKeys, CanInsert, EventNames;
    assert 0 in s.running.Keys;
    forall e ensures !CanProceed(env, s, e) { assert e in s.running ==> e in s.running.Keys; }
  }

  // ------------------------------------------------------------ real names nest

  // Ids tell names apart, and commits may touch any document of the collections.
  ghost predicate OfCollections(env: Env, used: Str -> bool) {
    && (forall a, b :: env.lockId(a) == env.lockId(b) ==> a == b)
    && (forall n :: env.allowed(n) <==> used(CollectionOf(n)) && CollectionOf(n) != n)
    && (forall u :: used(u) ==> u != [] && u[|u| - 1] == SLASH)
  }

  // One collection below a document of another, neither with a row yet.
  ghost predicate Nested(used: Str -> bool, registered: set<Str>, u: Str, v: Str) {
    used(u) && used(v) && u !in registered && v !in registered && u != v && u <= v
  }

  // With such ids and names commits are free of deadlock exactly when no two of the
  // collections that have no row yet nest.
  lemma NestingExact(env: Env, used: Str -> bool, s0: State)
    requires Initial(s0) && OfCollections(env, used)
    ensures NeverStuck(env, s0) <==> forall u, v :: !Nested(used, s0.collections, u, v)
  {
    hide Initial, NeverStuck, Consistent, Untangled, Nested;
    DeadlockFreeExact(env, s0);
    InjectiveConsistent(env);
    if Untangled(env, s0.collections) {
      forall u, v ensures !Nested(used, s0.collections, u, v) {
        if Nested(used, s0.collections, u, v) { NestedTangles(env, used, s0.collections, u, v); }
      }
    }
    if forall u, v :: !Nested(used, s0.collections, u, v) { ApartUntangled(env, used, s0.collections); }
  }

  // The first segment of v below u, between a smaller and a greater document of u.
  lemma NestedTangles(env: Env, used: Str -> bool, registered: set<Str>, u: Str, v: Str)
    requires OfCollections(env, used) && Nested(used, registered, u, v)
    ensures !Untangled(env, registered)
  {
    hide CollectionOf, OfCollections, Untangled, Less;
    var w := v[|u|..];
    assert v == u + w && w != [];
    var i := FirstSlash(w);
    assert w[|w| - 1] == v[|v| - 1] == SLASH by { UsedEnds(env, used, v); }
    assert w == w[..i] + ([SLASH] + w[i + 1..]);
    SegmentTangles(env, used, registered, u, w[..i], w[i + 1..]);
  }

  lemma UsedEnds(env: Env, used: Str -> bool, v: Str)
    requires OfCollections(env, used) && used(v)
    ensures v != [] && v[|v| - 1] == SLASH
  {}

  lemma SegmentTangles(env: Env, used: Str -> bool, registered: set<Str>, u: Str, x: Str, rest: Str)
    requires OfCollections(env, used) && NoSlash(x) && Nested(used, registered, u, u + (x + ([SLASH] + rest)))
    ensures !Untangled(env, registered)
  {
    hide CollectionOf, OfCollections, Less;
    var v := u + (x + ([SLASH] + rest));
    var a, d, b, c := u + (x + [0x2E]), u + (x + [0x30]), v + [0x30], v + [0x31];
    NameIn(env, used, u, x + [0x2E]);
    NameIn(env, used, u, x + [0x30]);
    NameIn(env, used, v, [0x30]);
    NameIn(env, used, v, [0x31]);
    Between(u, x, rest + [0x30]);
    Between(u, x, rest + [0x31]);
    assert b == u + (x + ([SLASH] + (rest + [0x30]))) && c == u + (x + ([SLASH] + (rest + [0x31])));
    LastByte(a, b, c, d, v, u + x);
    OwnLocksApart(env, used, a, b, c, d);
    assert Tangle(env, registered, a, b, c, d);
  }

  lemma OwnLocksApart(env: Env, used: Str -> bool, a: Str, b: Str, c: Str, d: Str)
    requires OfCollections(env, used) && a != c && a != d && b != c && b != d
    ensures {env.lockId(a), env.lockId(b)} !! {env.lockId(c), env.lockId(d)}
  {}

  lemma LastByte(a: Str, b: Str, c: Str, d: Str, v: Str, p: Str)
    requires a == p + [0x2E] && d == p + [0x30] && b == v + [0x30] && c == v + [0x31] && |v| > |p|
    ensures a != c && a != d && b != c && b != d
  {
    assert a[|a| - 1] == 0x2E && d[|d| - 1] == 0x30 && b[|b| - 1] == 0x30 && c[|c| - 1] == 0x31;
    assert |b| > |d|;
  }

  lemma NameIn(env: Env, used: Str -> bool, u: Str, id: Str)
    requires OfCollections(env, used) && used(u) && id != [] && NoSlash(id)
    ensures CollectionOf(u + id) == u && env.allowed(u + id)
  {
    CollectionPrefix(u, id);
  }

  // u/x. < u/x/... < u/x0
  lemma Between(u: Str, x: Str, rest: Str)
    ensures Less(u + (x + [0x2E]), u + (x + ([SLASH] + rest))) && Less(u + (x + ([SLASH] + rest)), u + (x + [0x30]))
  {
    SamePrefix(u, x + [0x2E], x + ([SLASH] + rest));
    SamePrefix(x, [0x2E], [SLASH] + rest);
    SamePrefix(u, x + ([SLASH] + rest), x + [0x30]);
    SamePrefix(x, [SLASH] + rest, [0x30]);
  }

  // Collections apart from one another keep all their documents apart.
  lemma ApartUntangled(env: Env, used: Str -> bool, registered: set<Str>)
    requires OfCollections(env, used) && forall u, v :: !Nested(used, registered, u, v)
    ensures Untangled(env, registered)
  {
    hide CollectionOf, Less;
    forall a, b, c, d ensures !Tangle(env, registered, a, b, c, d) {
      if Tangle(env, registered, a, b, c, d) {
        var u, v := CollectionOf(a), CollectionOf(b);
        assert !Nested(used, registered, u, v) && !Nested(used, registered, v, u);
        OneSide(u, v, a, b, c, d);
      }
    }
  }

  lemma OneSide(u: Str, v: Str, a: Str, b: Str, c: Str, d: Str)
    requires !(u <= v) && !(v <= u) && CollectionOf(a) == u == CollectionOf(d) && CollectionOf(b) == v == CollectionOf(c)
    ensures !(Less(a, b) && Less(c, d))
  {
    CollectionLeads(a);
    CollectionLeads(b);
    CollectionLeads(c);
    CollectionLeads(d);
    Diverge(u, v);
    FirstDiffConcat(u, v, a[|u|..], b[|v|..]);
    FirstDiffConcat(u, v, d[|u|..], c[|v|..]);
    assert a == u + a[|u|..] && b == v + b[|v|..] && c == v + c[|v|..] && d == u + d[|u|..];
    CompareSwap(d, c);
  }

  lemma {:induction false} CollectionLeads(n: Str)
    ensures CollectionOf(n) <= n
    decreases |n|
  {
    if n != [] && n[|n| - 1] != SLASH { CollectionLeads(n[..|n| - 1]); }
  }

  lemma {:induction false} Diverge(u: Str, v: Str)
    requires !(u <= v) && !(v <= u)
    ensures FirstDiff(u, v) != 0
    decreases |u|
  {
    if u[0] == v[0] {
      assert u[1..] <= v[1..] ==> u <= v;
      assert v[1..] <= u[1..] ==> v <= u;
      Diverge(u[1..], v[1..]);
    }
  }

  // "d1/sub/"
  const SUB: Str := [0x64, 0x31, SLASH, 0x73, 0x75, 0x62, SLASH]

  // One commit writes d1/sub/1 and d5 of a new collection, another d0 and d1/sub/2:
  // no document in common, no lock id in common, and each ends up waiting.
  lemma FreshCollections(env: Env, s0: State, u: Str) returns (states: seq<State>, steps: seq<Step>)
    requires Initial(s0) && u != [] && u[|u| - 1] == SLASH && u !in s0.collections && u + SUB !in s0.collections
    requires (forall n :: env.allowed(n)) && forall a, b :: env.lockId(a) == env.lockId(b) ==> a == b
    ensures IsBehavior(env, states, steps) && |states| == |steps| + 1 && states[0] == s0
    ensures Start(0, None, PutBoth(u + (SUB + [0x31]), u + [0x64, 0x35]), 1) in steps
    ensures Start(1, None, PutBoth(u + [0x64, 0x30], u + (SUB + [0x32])), 1) in steps
    ensures var s := states[|steps|]; s.running.Keys == {0, 1} && RowWaits(s, 0, 1) && RowWaits(s, 1, 0)
  {
    hide Initial, Enabled, After, RowWaits, CollectionOf, PutBoth;
    var a, b, c, d := u + (SUB + [0x31]), u + [0x64, 0x35], u + [0x64, 0x30], u + (SUB + [0x32]);
    FreshParts(u);
    FreshOrder(u);
    assert Tangle(env, s0.collections, a, b, c, d);
    states, steps := TangleDeadlock(env, s0, a, b, c, d);
  }

  lemma FreshParts(u: Str)
    requires u != [] && u[|u| - 1] == SLASH
    ensures CollectionOf(u + (SUB + [0x31])) == u + SUB == CollectionOf(u + (SUB + [0x32]))
    ensures CollectionOf(u + [0x64, 0x35]) == u == CollectionOf(u + [0x64, 0x30])
  {
    hide CollectionOf;
    InCollection(u, SUB, 0x31);
    InCollection(u, SUB, 0x32);
    AtTop(u, 0x35);
    AtTop(u, 0x30);
  }

  lemma AtTop(u: Str, x: byte)
    requires u != [] && u[|u| - 1] == SLASH != x
    ensures CollectionOf(u + [0x64, x]) == u
  {
    hide CollectionOf;
    CollectionPrefix(u, [0x64, x]);
  }

  lemma InCollection(u: Str, w: Str, x: byte)
    requires w != [] && w[|w| - 1] == SLASH != x
    ensures CollectionOf(u + (w + [x])) == u + w
  {
    hide CollectionOf;
    CollectionPrefix(u + w, [x]);
    Assoc(u, w, [x]);
  }

  lemma FreshOrder(u: Str)
    ensures Less(u + (SUB + [0x31]), u + [0x64, 0x35]) && Less(u + [0x64, 0x30], u + (SUB + [0x32]))
    ensures u + (SUB + [0x31]) != u + [0x64, 0x30] && u + (SUB + [0x31]) != u + (SUB + [0x32])
    ensures u + [0x64, 0x35] != u + [0x64, 0x30] && u + [0x64, 0x35] != u + (SUB + [0x32])
  {
    SamePrefix(u, SUB + [0x31], [0x64, 0x35]);
    SamePrefix(u, [0x64, 0x30], SUB + [0x32]);
    SamePrefix([0x64], [0x31, SLASH, 0x73, 0x75, 0x62, SLASH, 0x31], [0x35]);
    SamePrefix([0x64], [0x30], [0x31, SLASH, 0x73, 0x75, 0x62, SLASH, 0x32]);
    assert SUB + [0x31] == [0x64] + [0x31, SLASH, 0x73, 0x75, 0x62, SLASH, 0x31];
    assert SUB + [0x32] == [0x64] + [0x31, SLASH, 0x73, 0x75, 0x62, SLASH, 0x32];
    assert [0x64, 0x35] == [0x64] + [0x35] && [0x64, 0x30] == [0x64] + [0x30];
    assert (u + [0x64, 0x35])[|u| + 1] == 0x35 && (u + [0x64, 0x30])[|u| + 1] == 0x30;
    assert (u + (SUB + [0x31]))[|u| + 7] == 0x31 && (u + (SUB + [0x32]))[|u| + 7] == 0x32;
  }

  // ------------------------------------------------------ waiting and the steps

  // In every state of a run a commit can go on exactly when one of its steps other
  // than giving up is enabled, as long as its update time is a new one.
  lemma ProceedExact(env: Env, states: seq<State>, steps: seq<Step>, c: nat)
    requires IsBehavior(env, states, steps) && c in states[|steps|].running
    requires states[|steps|].running[c].states.Some? ==> FreshTimes(states[|steps|], states[|steps|].running[c])
    ensures CanProceed(env, states[|steps|], c) <==>
      exists step :: Actor(step) == Some(c) && !step.Fail? && Enabled(env, states[|steps|], step)
  {
    hide Enabled, After, CanProceed, LockInv, VersionInv, Explains, Initial, ChangeFeed.FeedInv;
    var s := states[|steps|];
    ChangeFeed.RunFeeds(env, states, steps);
    RunKeeps(env, states, steps);
    EventsBounded(env, s, c);
    if CanProceed(env, s, c) { var step := NextStep(env, s, c); }
    if step :| Actor(step) == Some(c) && !step.Fail? && Enabled(env, s, step) { StepProceeds(env, s, c, step); }
  }

  lemma EventsBounded(env: Env, s: State, c: nat)
    requires ChangeFeed.FeedInv(env, s) && LockInv(env, s) && c in s.running
    ensures var r := s.running[c];
      r.acquired <= |Locks(r)| && (r.states.Some? ==> LocksHeld(r) && |r.events| <= |EventNames(r.states.value)|)
  {
    hide Locks, SortedKeys, Prepare;
    assert ChangeFeed.EventsOk(s.running[c]);
    assert HoldsLocks(env, s.held, c, s.running[c]) && CheckHolds(s.table, s.running[c]);
  }

  lemma NextStep(env: Env, s: State, c: nat) returns (step: Step)
    requires CanProceed(env, s, c) && c in s.running
    requires s.running[c].acquired <= |Locks(s.running[c])|
    requires s.running[c].states.Some? ==>
      LocksHeld(s.running[c]) && |s.running[c].events| <= |EventNames(s.running[c].states.value)| && FreshTimes(s, s.running[c])
    ensures Actor(step) == Some(c) && !step.Fail? && Enabled(env, s, step)
  {
    hide Locks, EventNames, CanLock, CanInsert, FreshTimes;
    var r := s.running[c];
    step := if Waiting(s, c) then Acquire(c) else if r.states.None? then Check(c) else if r.xid.None? then Assign(c)
            else if |r.events| < |EventNames(r.states.value)| then Append(c) else Finish(c);
  }

  lemma StepProceeds(env: Env, s: State, c: nat, step: Step)
    requires c in s.running && Actor(step) == Some(c) && !step.Fail? && Enabled(env, s, step)
    requires s.running[c].states.Some? ==> LocksHeld(s.running[c])
    ensures CanProceed(env, s, c)
  {
    hide Locks, EventNames, CanLock, CanInsert, FreshTimes;
  }
}
