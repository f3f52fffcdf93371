// Waiting on advisory locks: with ids that no two lock lists take in both orders,
// every chain of lock holders ends; with others two commits can wait for each other.
module LockOrder {
  import opened Bytes
  import opened Values
  import opened FieldPaths
  import opened Transforms
  import opened Transactions
  import opened Protocol
  import opened Serializability

  // ------------------------------------------------------ every lock has an owner

  ghost predicate Owned(env: Env, r: Running, k: int) {
    exists i :: 0 <= i < r.acquired <= |Locks(r)| && env.lockId(Locks(r)[i]) == k
  }

  ghost predicate HeldInv(env: Env, s: State) {
    forall k :: k in s.held ==> s.held[k] in s.running && Owned(env, s.running[s.held[k]], k)
  }

  lemma HeldStep(env: Env, s: State, step: Step)
    requires HeldInv(env, s) && Enabled(env, s, step)
    ensures HeldInv(env, After(env, s, step))
  {
    hide Enabled, After, Owned;
    var s' := After(env, s, step);
    forall k | k in s'.held ensures s'.held[k] in s'.running && Owned(env, s'.running[s'.held[k]], k) {
      OwnerStep(env, s, step, k);
    }
  }

  lemma OwnerStep(env: Env, s: State, step: Step, k: int)
    requires HeldInv(env, s) && Enabled(env, s, step) && k in After(env, s, step).held
    ensures var s' := After(env, s, step); s'.held[k] in s'.running && Owned(env, s'.running[s'.held[k]], k)
  {
    hide Enabled, After, SortedKeys;
    var s' := After(env, s, step);
    HeldFrom(env, s, step, k);
    var c := s'.held[k];
    if k in s.held && s.held[k] == c {
      RunningAfter(env, s, step, c);
      AcquiredGrows(env, s, step, c);
      OwnedGrows(env, s.running[c], s'.running[c], k);
    }
  }

  lemma OwnedGrows(env: Env, a: Running, b: Running, k: int)
    requires Owned(env, a, k) && a.job == b.job && a.acquired <= b.acquired <= |Locks(b)|
    ensures Owned(env, b, k)
  {
    hide SortedKeys;
    var i :| 0 <= i < a.acquired <= |Locks(a)| && env.lockId(Locks(a)[i]) == k;
    assert Locks(a) == Locks(b);
  }

  // A lock is held because it was, or because its owner just took it.
  lemma HeldFrom(env: Env, s: State, step: Step, k: int)
    requires Enabled(env, s, step) && k in After(env, s, step).held
    requires HeldInv(env, s)
    ensures var s' := After(env, s, step); var c := s'.held[k];
      c in s'.running && ((k in s.held && s.held[k] == c && c in s.running) || Owned(env, s'.running[c], k))
  {
    hide Enabled, After, Owned, AcquireOf;
    if step.Check? || step.Finish? || step.Fail? {
      EndHeld(env, s, step);
    } else if step.Append? || step.Assign? {
      SameHeld(env, s, step);
    } else if step.Acquire? {
      AcquireTakes(env, s, step.c);
      JustTaken(env, s, step.c, k);
    } else if step.Start? {
      StartIs(env, s, step);
    } else {
      IdleIs(env, s, step);
    }
  }

  lemma AcquireTakes(env: Env, s: State, c: nat)
    requires Enabled(env, s, Acquire(c))
    ensures c in s.running && s.running[c].acquired < |Locks(s.running[c])| && After(env, s, Acquire(c)) == AcquireOf(env, s, c)
  {}

  lemma SameHeld(env: Env, s: State, step: Step)
    requires Enabled(env, s, step) && (step.Append? || step.Assign?)
    ensures After(env, s, step).held == s.held && After(env, s, step).running.Keys == s.running.Keys
  {
    hide SortedKeys, Prepare, Persist;
  }

  lemma EndHeld(env: Env, s: State, step: Step)
    requires Enabled(env, s, step) && (step.Check? || step.Finish? || step.Fail?)
    ensures var s' := After(env, s, step);
      && (forall k :: k in s'.held ==> k in s.held && s'.held[k] == s.held[k])
      && (forall c :: c in s.running && c !in s'.running ==> c == step.c && forall k :: k in s'.held ==> s'.held[k] != c)
  {
    hide SortedKeys, Prepare, Persist, FreshTimes, NewVersions, EventNames, LocksHeld;
  }

  lemma JustTaken(env: Env, s: State, c: nat, k: int)
    requires c in s.running && s.running[c].acquired < |Locks(s.running[c])|
    ensures k == NextLock(env, s.running[c]) ==> Owned(env, AcquireOf(env, s, c).running[c], k)
    ensures var s' := AcquireOf(env, s, c);
      s'.running.Keys == s.running.Keys && s'.held == s.held[NextLock(env, s.running[c]) := c]
  {
    hide SortedKeys;
    var r, r' := s.running[c], AcquireOf(env, s, c).running[c];
    assert Locks(r) == Locks(r');
    assert env.lockId(Locks(r')[r.acquired]) == NextLock(env, r);
  }

  lemma AcquiredGrows(env: Env, s: State, step: Step, d: nat)
    requires Enabled(env, s, step) && d in s.running && d in After(env, s, step).running
    requires s.running[d].acquired <= |Locks(s.running[d])|
    ensures var r := After(env, s, step).running[d]; s.running[d].acquired <= r.acquired <= |Locks(r)|
  {
    hide After, Enabled, SortedKeys;
    RunningAfter(env, s, step, d);
    SameLocks(s.running[d], After(env, s, step).running[d]);
    if Actor(step) == Some(d) { OwnLocks(env, s, step, d); }
  }

  // Commits lock allowed names only.
  ghost predicate AllowedInv(env: Env, s: State) {
    forall c :: c in s.running ==> AllAllowed(env, s.running[c].job)
  }

  lemma AllowedStep(env: Env, s: State, step: Step)
    requires AllowedInv(env, s) && Enabled(env, s, step)
    ensures AllowedInv(env, After(env, s, step))
  {
    hide Enabled, After, AllAllowed;
    forall c | c in After(env, s, step).running ensures AllAllowed(env, After(env, s, step).running[c].job) {
      RunningAfter(env, s, step, c);
      if c !in s.running { StartIs(env, s, step); }
    }
  }

  lemma {:induction false} RunHeld(env: Env, states: seq<State>, steps: seq<Step>)
    requires IsBehavior(env, states, steps)
    ensures LockInv(env, states[|steps|]) && HeldInv(env, states[|steps|]) && AllowedInv(env, states[|steps|])
    decreases |steps|
  {
    hide Enabled, After, LockInv, HeldInv, VersionInv, AllowedInv, SortedKeys;
    var n := |steps|;
    RunKeeps(env, states, steps);
    if n == 0 {
      NothingHeld(env, states[0]);
    } else {
      PrefixBehavior(env, states, steps, n - 1);
      RunHeld(env, states[..n], steps[..n - 1]);
      HeldStep(env, states[n - 1], steps[n - 1]);
      AllowedStep(env, states[n - 1], steps[n - 1]);
    }
  }

  lemma NothingHeld(env: Env, s: State)
    requires Initial(s)
    ensures HeldInv(env, s) && AllowedInv(env, s)
  {}

  // ------------------------------------------------------------------- waiting

  ghost predicate Waiting(s: State, c: nat) {
    c in s.running && s.running[c].acquired < |Locks(s.running[c])|
  }

  // The name a waiting commit locks next.
  function Wanted(s: State, c: nat): Str
    requires c in s.running && s.running[c].acquired < |Locks(s.running[c])|
  {
    Locks(s.running[c])[s.running[c].acquired]
  }

  // Not waiting, or the lock it wants is free or already its own.
  ghost predicate LockFree(env: Env, s: State, c: nat) {
    c in s.running && (Waiting(s, c) ==> CanLock(env, s, c))
  }

  ghost predicate LockWaits(env: Env, s: State, c: nat, d: nat) {
    Waiting(s, c) && c != d && env.lockId(Wanted(s, c)) in s.held && s.held[env.lockId(Wanted(s, c))] == d
  }

  // Two allowed names, in lock order.
  ghost predicate Ordered(env: Env, a: Str, b: Str) { Less(a, b) && env.allowed(a) && env.allowed(b) }

  // No two ids are taken in both orders by some lists of allowed names.
  ghost predicate Consistent(env: Env) {
    forall a, b, c, d :: Ordered(env, a, b) && Ordered(env, c, d) && env.lockId(a) == env.lockId(d) && env.lockId(b) == env.lockId(c)
      ==> env.lockId(a) == env.lockId(b)
  }

  ghost predicate Precedes(env: Env, k: int, m: int) {
    k != m && exists a, b :: Ordered(env, a, b) && env.lockId(a) == k && env.lockId(b) == m
  }

  // Injective ids are consistent.
  lemma InjectiveConsistent(env: Env)
    requires forall a, b :: env.lockId(a) == env.lockId(b) ==> a == b
    ensures Consistent(env)
  {
    hide Less;
    forall a, b ensures !(Ordered(env, a, b) && Ordered(env, b, a)) { LessAsym(a, b); }
  }

  lemma PrecedesAsym(env: Env, k: int, m: int)
    requires Consistent(env) && Precedes(env, k, m)
    ensures !Precedes(env, m, k)
  {
    hide Less;
  }

  lemma LessAsym(a: Str, b: Str)
    ensures !(Less(a, b) && Less(b, a))
  {
    CompareSwap(a, b);
  }

  lemma LessTotal(a: Str, b: Str)
    ensures a == b || Less(a, b) || Less(b, a)
  {
    CompareSwap(a, b);
    CompareZero(a, b);
  }

  lemma LessTrans(a: Str, b: Str, c: Str)
    requires Less(a, b) && Less(b, c)
    ensures Less(a, c)
  {
    CompareTrans(a, b, c);
  }

  lemma Through(env: Env, c: Str, d: Str, a: Str)
    requires Ordered(env, c, d) && Less(d, a) && env.allowed(a) && env.lockId(c) != env.lockId(a)
    ensures Precedes(env, env.lockId(c), env.lockId(a))
  {
    hide Less;
    LessTrans(c, d, a);
    assert Ordered(env, c, a);
  }

  lemma PrecedesTrans(env: Env, k: int, m: int, n: int)
    requires Consistent(env) && Precedes(env, k, m) && Precedes(env, m, n)
    ensures Precedes(env, k, n)
  {
    hide Less, Consistent;
    if k == n { PrecedesAsym(env, k, m); }
    var a, b :| Ordered(env, a, b) && env.lockId(a) == k && env.lockId(b) == m;
    var c, d :| Ordered(env, c, d) && env.lockId(c) == m && env.lockId(d) == n;
    LessTotal(a, d);
    if Less(d, a) {
      Through(env, c, d, a);
      PrecedesAsym(env, k, m);
    } else {
      assert Ordered(env, a, d);
    }
  }

  // Whoever holds the lock c waits for wants a later one, if it waits at all.
  lemma HolderWantsLater(env: Env, s: State, c: nat, d: nat)
    requires HeldInv(env, s) && AllowedInv(env, s) && LockWaits(env, s, c, d) && Waiting(s, d) && !CanLock(env, s, d)
    ensures Precedes(env, env.lockId(Wanted(s, c)), env.lockId(Wanted(s, d)))
  {
    hide SortedKeys, Less;
    var k, r := env.lockId(Wanted(s, c)), s.running[d];
    assert Owned(env, r, k);
    var i :| 0 <= i < r.acquired && env.lockId(Locks(r)[i]) == k;
    assert Locks(r)[i] in Locks(r) && Locks(r)[r.acquired] in Locks(r);
    assert Ordered(env, Locks(r)[i], Locks(r)[r.acquired]);
  }

  // The waiting commits that want something later than c does.
  ghost function Later(env: Env, s: State, c: nat): set<nat>
    requires Waiting(s, c)
  {
    set e | e in s.running && Waiting(s, e) && Precedes(env, env.lockId(Wanted(s, c)), env.lockId(Wanted(s, e)))
  }

  lemma LaterShrinks(env: Env, s: State, c: nat, d: nat)
    requires Consistent(env) && Waiting(s, c) && Waiting(s, d)
    requires Precedes(env, env.lockId(Wanted(s, c)), env.lockId(Wanted(s, d)))
    ensures Later(env, s, d) < Later(env, s, c)
  {
    hide Consistent, Precedes, Wanted, SortedKeys;
    forall e | e in Later(env, s, d) ensures e in Later(env, s, c) {
      PrecedesTrans(env, env.lockId(Wanted(s, c)), env.lockId(Wanted(s, d)), env.lockId(Wanted(s, e)));
    }
    NotBeforeItself(env, env.lockId(Wanted(s, d)));
    assert d in Later(env, s, c) && d !in Later(env, s, d);
  }

  lemma NotBeforeItself(env: Env, k: int)
    ensures !Precedes(env, k, k)
  {}

  ghost predicate IsLockChain(env: Env, s: State, chain: seq<nat>) {
    forall i :: 0 <= i < |chain| - 1 ==> LockWaits(env, s, chain[i], chain[i + 1])
  }

  // From every commit the chain of lock holders ends at one that waits for no lock.
  lemma {:induction false} LockProgress(env: Env, s: State, c: nat) returns (chain: seq<nat>)
    requires Consistent(env) && HeldInv(env, s) && AllowedInv(env, s) && c in s.running
    ensures chain != [] && chain[0] == c && IsLockChain(env, s, chain) && LockFree(env, s, chain[|chain| - 1])
    decreases if Waiting(s, c) then |Later(env, s, c)| + 1 else 0
  {
    hide Consistent, SortedKeys, Precedes, AllowedInv;
    if LockFree(env, s, c) {
      chain := [c];
    } else {
      var d := s.held[env.lockId(Wanted(s, c))];
      assert LockWaits(env, s, c, d);
      if LockFree(env, s, d) {
        chain := [c, d];
      } else {
        HolderWantsLater(env, s, c, d);
        LaterShrinks(env, s, c, d);
        Smaller(Later(env, s, d), Later(env, s, c));
        var rest := LockProgress(env, s, d);
        chain := [c] + rest;
      }
    }
  }

  lemma Smaller(a: set<nat>, b: set<nat>)
    requires a < b
    ensures |a| < |b|
  {
    assert b == a + (b - a);
    assert |b| == |a| + |b - a|;
    assert b - a != {};
  }

  // ------------------------------------------------------ what collisions can do

  lemma SortedPair(a: Str, b: Str)
    requires Less(a, b)
    ensures SortedKeys({a, b}) == [a, b]
  {
    var r := SortedKeys({a, b});
    CompareSwap(a, b);
    CompareRefl(a);
    assert |{a, b}| == 2;
    assert r[0] in r && r[1] in r && Less(r[0], r[1]);
  }

  function DeleteBoth(a: Str, b: Str): seq<Write> { [Delete(a, Always, []), Delete(b, Always, [])] }

  lemma PairTargets(a: Str, b: Str)
    ensures Targets(DeleteBoth(a, b)) == {a, b}
  {
    var ws := DeleteBoth(a, b);
    assert ws[0].name == a && ws[1].name == b;
  }

  lemma PairLocks(a: Str, b: Str, r: Running)
    requires Less(a, b) && r.job == Job(map[], map[], DeleteBoth(a, b), 1)
    ensures Locks(r) == [a, b]
  {
    PairTargets(a, b);
    assert LockNames(r.job) == {a, b};
    SortedPair(a, b);
  }

  function Fresh(a: Str, b: Str, acquired: nat): Running {
    Running(Job(map[], map[], DeleteBoth(a, b), 1), acquired, None, None, [], {})
  }

  // Both under way, with the given locks held.
  function TwoDeletes(s0: State, a: Str, b: Str, c: Str, d: Str, x: nat, y: nat, held: map<int, nat>): State {
    s0.(running := map[0 := Fresh(a, b, x), 1 := Fresh(c, d, y)], held := held)
  }

  lemma StartsBoth(env: Env, s0: State, a: Str, b: Str, c: Str, d: Str)
    requires Initial(s0) && env.allowed(a) && env.allowed(b) && env.allowed(c) && env.allowed(d)
    ensures var ws, vs := DeleteBoth(a, b), DeleteBoth(c, d);
      var s1 := StartOf(s0, 0, None, ws, 1);
      && Enabled(env, s0, Start(0, None, ws, 1)) && After(env, s0, Start(0, None, ws, 1)) == s1
      && Enabled(env, s1, Start(1, None, vs, 1))
      && After(env, s1, Start(1, None, vs, 1)) == TwoDeletes(s0, a, b, c, d, 0, 0, map[])
  {
    PairTargets(a, b);
    PairTargets(c, d);
  }

  lemma FirstTakes(env: Env, s0: State, a: Str, b: Str, c: Str, d: Str)
    requires Less(a, b)
    ensures var s := TwoDeletes(s0, a, b, c, d, 0, 0, map[]);
      && Enabled(env, s, Acquire(0))
      && After(env, s, Acquire(0)) == TwoDeletes(s0, a, b, c, d, 1, 0, map[env.lockId(a) := 0])
  {
    hide SortedKeys, Less, DeleteBoth, After, Enabled, Locks;
    PairLocks(a, b, Fresh(a, b, 0));
    AcquireIs(env, TwoDeletes(s0, a, b, c, d, 0, 0, map[]), 0);
  }

  lemma SecondTakes(env: Env, s0: State, a: Str, b: Str, c: Str, d: Str)
    requires Less(c, d) && env.lockId(a) != env.lockId(c)
    ensures var s := TwoDeletes(s0, a, b, c, d, 1, 0, map[env.lockId(a) := 0]);
      && Enabled(env, s, Acquire(1))
      && After(env, s, Acquire(1)) == TwoDeletes(s0, a, b, c, d, 1, 1, map[env.lockId(a) := 0, env.lockId(c) := 1])
  {
    hide SortedKeys, Less, DeleteBoth, After, Enabled, Locks;
    PairLocks(c, d, Fresh(c, d, 0));
    AcquireIs(env, TwoDeletes(s0, a, b, c, d, 1, 0, map[env.lockId(a) := 0]), 1);
  }

  // Where two ids are taken in both orders, two deletes of two documents each can
  // end up waiting for one another.
  lemma CollisionDeadlock(env: Env, s0: State, a: Str, b: Str, c: Str, d: Str) returns (states: seq<State>, steps: seq<Step>)
    requires Initial(s0) && Ordered(env, a, b) && Ordered(env, c, d)
    requires env.lockId(a) == env.lockId(d) != env.lockId(b) == env.lockId(c)
    ensures IsBehavior(env, states, steps) && states[0] == s0
    ensures var s := states[|steps|]; s.running.Keys == {0, 1} && !LockFree(env, s, 0) && !LockFree(env, s, 1)
  {
    hide SortedKeys, Less, Enabled, After, Initial, DeleteBoth, Locks;
    var ws, vs := DeleteBoth(a, b), DeleteBoth(c, d);
    var s4 := TwoDeletes(s0, a, b, c, d, 1, 1, map[env.lockId(a) := 0, env.lockId(c) := 1]);
    steps := [Start(0, None, ws, 1), Start(1, None, vs, 1), Acquire(0), Acquire(1)];
    states := [s0, StartOf(s0, 0, None, ws, 1), TwoDeletes(s0, a, b, c, d, 0, 0, map[]),
               TwoDeletes(s0, a, b, c, d, 1, 0, map[env.lockId(a) := 0]), s4];
    StartsBoth(env, s0, a, b, c, d);
    FirstTakes(env, s0, a, b, c, d);
    SecondTakes(env, s0, a, b, c, d);
    PairLocks(a, b, s4.running[0]);
    PairLocks(c, d, s4.running[1]);
  }
}
