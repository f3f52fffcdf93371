// From rows to readers: every row a commit changes is told in the change feed by one
// event of its own, and the collections rows are there (applyCommit in
// internal/store/store.go, appendChange and Changes in internal/store/changelog.go).
module Delivery {
  import opened Bytes
  import opened Values
  import opened FieldPaths
  import opened DocNames
  import opened Transforms
  import opened Transactions
  import opened Protocol
  import opened Serializability
  import opened ChangeFeed

  // From one state to the next, the p-th event of the feed is new and names the
  // document.
  ghost predicate NewEventOf(s: State, s': State, p: nat, n: Str) {
    |s.feed| <= p < |s'.feed| && s'.feed[p].name == n
  }

  ghost predicate IsTold(s: State, s': State, n: Str) { exists p: nat :: NewEventOf(s, s', p, n) }

  ghost predicate RowChanges(s: State, s': State, n: Str) { Lookup(s.table, n) != Lookup(s'.table, n) }

  // The feed grows by one event of that name where the row changes, a deletion exactly
  // when the row is gone, and never by two.
  ghost predicate Tells(s: State, s': State, n: Str) {
    && s.feed <= s'.feed
    && (RowChanges(s, s', n) ==> IsTold(s, s', n))
    && (forall p: nat, q: nat :: NewEventOf(s, s', p, n) && NewEventOf(s, s', q, n) ==> p == q)
    && (forall p: nat :: NewEventOf(s, s', p, n) ==> (s'.feed[p].deleted <==> n !in s'.table))
  }

  // Rows change only when a commit takes effect.
  lemma OnlyFinishChanges(env: Env, states: seq<State>, steps: seq<Step>, i: nat)
    requires IsBehavior(env, states, steps) && i < |steps| && !steps[i].Finish?
    ensures states[i + 1].table == states[i].table && states[i + 1].feed == states[i].feed
  {
    hide Enabled, After;
    TableAfter(env, states[i], steps[i]);
  }

  // A commit that takes effect adds to the feed, for each row it changes, one event of
  // that name, a deletion exactly when the row is gone; and no events but of documents
  // it writes.
  lemma FinishTells(env: Env, states: seq<State>, steps: seq<Step>, i: nat, n: Str)
    requires IsBehavior(env, states, steps) && i < |steps| && steps[i].Finish?
    ensures Tells(states[i], states[i + 1], n)
    ensures IsTold(states[i], states[i + 1], n) ==>
      steps[i].c in states[i].running && n in Targets(states[i].running[steps[i].c].job.writes)
  {
    hide Enabled, After, Initial, LockInv, VersionInv, Explains, Tells;
    var s, c := states[i], steps[i].c;
    PrefixBehavior(env, states, steps, i);
    TableAfter(env, s, steps[i]);
    FinishEnabled(env, s, c);
    EventsOfCommit(env, states[..i + 1], steps[..i], c);
    RunKeeps(env, states[..i + 1], steps[..i]);
    CommitTells(s, c, n);
    if n in Dirty(s.running[c].states.value) { WrittenTargets(env, s, c, n); }
  }

  lemma CommitTells(s: State, c: nat, n: Str)
    requires c in s.running && s.running[c].states.Some?
    requires var r := s.running[c];
      && (forall e :: e in r.events ==> e.name in Dirty(r.states.value) && e.deleted == !r.states.value[e.name].exists_)
      && (forall m :: m in Dirty(r.states.value) ==> exists e :: e in r.events && e.name == m)
      && (forall i, j :: 0 <= i < j < |r.events| ==> r.events[i].name != r.events[j].name)
    ensures Tells(s, FinishOf(s, c), n)
    ensures IsTold(s, FinishOf(s, c), n) ==> n in Dirty(s.running[c].states.value)
  {
    hide Persist, NewVersions, Release;
    var r, s' := s.running[c], FinishOf(s, c);
    PersistAt(s.table, r.states.value, n);
    forall p: nat | |s.feed| <= p < |s'.feed| ensures s'.feed[p] == r.events[p - |s.feed|] && s'.feed[p] in r.events {}
    if RowChanges(s, s', n) {
      assert n in Dirty(r.states.value);
      var e :| e in r.events && e.name == n;
      var j :| 0 <= j < |r.events| && r.events[j] == e;
      assert NewEventOf(s, s', |s.feed| + j, n);
    }
  }

  lemma WrittenTargets(env: Env, s: State, c: nat, n: Str)
    requires LockInv(env, s) && c in s.running && s.running[c].states.Some? && n in Dirty(s.running[c].states.value)
    ensures n in Targets(s.running[c].job.writes)
  {
    hide SortedKeys, Prepare, HoldsLocks, Locks;
    assert CheckHolds(s.table, s.running[c]);
    PrepareWrites(s.table, s.running[c].job, n);
  }

  lemma {:induction false} FeedGrows(env: Env, states: seq<State>, steps: seq<Step>, i: nat, k: nat)
    requires IsBehavior(env, states, steps) && i <= k <= |steps|
    ensures states[i].feed <= states[k].feed
    decreases k
  {
    hide Enabled, After;
    if i < k {
      FeedGrows(env, states, steps, i, k - 1);
      if steps[k - 1].Finish? { FinishTells(env, states, steps, k - 1, []); } else { OnlyFinishChanges(env, states, steps, k - 1); }
    }
  }

  // A changed row reaches the reader: its event is in the feed from then on, and once
  // the cursor is at or past it and the name is wanted, it was delivered, once.
  lemma ChangeDelivered(env: Env, states: seq<State>, steps: seq<Step>, i: nat, k: nat, n: Str) returns (e: Event)
    requires IsBehavior(env, states, steps) && i < k <= |steps|
    requires RowChanges(states[i], states[i + 1], n)
    ensures e in states[k].feed && e !in states[i].feed && e.name == n && (e.deleted <==> n !in states[i + 1].table)
    ensures env.wants(n) && !AfterCursor(states[k].reader, e) ==>
      exists d :: 0 <= d < |states[k].reader.delivered| && states[k].reader.delivered[d] == e
        && forall o :: 0 <= o < |states[k].reader.delivered| && o != d ==> states[k].reader.delivered[o] != e
  {
    hide Enabled, After, Initial, FeedInv, NewEventOf, RowChanges;
    if !steps[i].Finish? { Unchanged(env, states, steps, i, n); }
    FinishTells(env, states, steps, i, n);
    var p: nat :| NewEventOf(states[i], states[i + 1], p, n);
    e := NewOne(states, i, p, n);
    FeedGrows(env, states, steps, i + 1, k);
    NotBefore(env, states, steps, i, p, n);
    PrefixBehavior(env, states, steps, k);
    ExactlyOnce(env, states[..k + 1], steps[..k]);
    if env.wants(n) && !AfterCursor(states[k].reader, e) {
      var delivered := states[k].reader.delivered;
      assert e in delivered;
      var d :| 0 <= d < |delivered| && delivered[d] == e;
      forall o | 0 <= o < |delivered| && o != d ensures delivered[o] != e {
        if o < d { assert EventLess(delivered[o], delivered[d]); } else { assert EventLess(delivered[d], delivered[o]); }
      }
    }
  }

  lemma Unchanged(env: Env, states: seq<State>, steps: seq<Step>, i: nat, n: Str)
    requires IsBehavior(env, states, steps) && i < |steps| && !steps[i].Finish?
    ensures !RowChanges(states[i], states[i + 1], n)
  {
    hide Enabled, After;
    OnlyFinishChanges(env, states, steps, i);
  }

  lemma NewOne(states: seq<State>, i: nat, p: nat, n: Str) returns (e: Event)
    requires i + 1 < |states| && NewEventOf(states[i], states[i + 1], p, n)
    ensures p < |states[i + 1].feed| && e == states[i + 1].feed[p] && e.name == n
  {
    e := states[i + 1].feed[p];
  }

  // Events do not repeat.
  lemma NotBefore(env: Env, states: seq<State>, steps: seq<Step>, i: nat, p: nat, n: Str)
    requires IsBehavior(env, states, steps) && i < |steps| && NewEventOf(states[i], states[i + 1], p, n) && states[i].feed <= states[i + 1].feed
    ensures p < |states[i + 1].feed| && states[i + 1].feed[p] !in states[i].feed
  {
    hide Enabled, After, Initial, XidInv, ReaderInv, KeysInv;
    PrefixBehavior(env, states, steps, i + 1);
    RunFeeds(env, states[..i + 2], steps[..i + 1]);
    var feed := states[i + 1].feed;
    forall q | 0 <= q < |states[i].feed| ensures states[i].feed[q] != feed[p] {
      assert states[i].feed[q] == feed[q];
      if feed[q].name == feed[p].name { assert feed[q].xid < feed[p].xid; }
    }
  }

  // ------------------------------------------------------------ collections rows

  // The collection of every document a commit has written and kept so far has a row,
  // its own or another's.
  ghost predicate CollectionsOk(s: State, c: nat) {
    c in s.running && s.running[c].states.Some? ==>
      var r := s.running[c];
      forall i :: 0 <= i < |r.events| && i < |EventNames(r.states.value)| && StateOf(r, EventNames(r.states.value)[i]).exists_ ==>
        CollectionOf(EventNames(r.states.value)[i]) in s.collections + r.inserted
  }

  lemma {:induction false} RunCollections(env: Env, states: seq<State>, steps: seq<Step>, c: nat)
    requires IsBehavior(env, states, steps)
    ensures CollectionsOk(states[|steps|], c)
    decreases |steps|
  {
    hide Enabled, After, CollectionsOk, FeedInv;
    var n := |steps|;
    if n == 0 {
      NoneRunning(states[0], c);
    } else {
      PrefixBehavior(env, states, steps, n - 1);
      RunCollections(env, states[..n], steps[..n - 1], c);
      RunFeeds(env, states[..n], steps[..n - 1]);
      CollectionsStep(env, states[n - 1], steps[n - 1], c);
    }
  }

  lemma NoneRunning(s: State, c: nat)
    requires Initial(s)
    ensures CollectionsOk(s, c)
  {}

  lemma CollectionsStep(env: Env, s: State, step: Step, c: nat)
    requires Enabled(env, s, step) && CollectionsOk(s, c) && FeedInv(env, s)
    ensures CollectionsOk(After(env, s, step), c)
  {
    hide Enabled, After, FeedInv, EventNames, CollectionOf;
    var s' := After(env, s, step);
    if c in s'.running {
      RunningAfter(env, s, step, c);
      MoreCollections(env, s, step);
      if Actor(step) == Some(c) { OwnCollections(env, s, step, c); }
    }
  }

  lemma MoreCollections(env: Env, s: State, step: Step)
    requires Enabled(env, s, step)
    ensures s.collections <= After(env, s, step).collections
  {
    hide Enabled, After, Persist, NewVersions, Release;
    TableAfter(env, s, step);
    if step.Finish? { FinishAdds(env, s, step.c); }
  }

  lemma FinishAdds(env: Env, s: State, c: nat)
    requires Enabled(env, s, Finish(c))
    ensures c in s.running && s.running[c].states.Some? && FinishOf(s, c).collections == s.collections + s.running[c].inserted
  {
    hide Persist, NewVersions, Release, EventNames, FreshTimes;
  }

  lemma OwnCollections(env: Env, s: State, step: Step, c: nat)
    requires Enabled(env, s, step) && Actor(step) == Some(c) && c in After(env, s, step).running
    requires CollectionsOk(s, c) && FeedInv(env, s) && s.collections <= After(env, s, step).collections
    ensures CollectionsOk(After(env, s, step), c)
  {
    hide Enabled, After, Prepare, EventNames, Locks, AllAllowed, LocksHeld, FinishOf, NextEvent, CanLock, OrderInv, ReaderInv, KeysInv,
         CollectionOf;
    match step
    case Append(_) =>
      AppendIs(env, s, c);
      AppendCollections(s, c);
      TableAfter(env, s, step);
    case Acquire(_) => AcquireOnly(env, s, c);
    case Assign(_) => AssignIs(env, s, c);
    case Start(_, _, _, _) => StartIs(env, s, step);
    case Check(_) =>
      CheckIs(env, s, c);
      assert EventsOk(s.running[c]);
    case _ => EndIs(env, s, step);
  }

  lemma AppendCollections(s: State, c: nat)
    requires c in s.running && s.running[c].states.Some? && s.running[c].xid.Some? && CollectionsOk(s, c)
    requires |s.running[c].events| < |EventNames(s.running[c].states.value)|
    ensures CollectionsOk(AppendOf(s, c), c)
  {
    hide EventNames, CollectionOf, NextEvent;
  }

  // When a commit takes effect, the collection of every document it writes and keeps is
  // registered.
  lemma CollectionsRegistered(env: Env, states: seq<State>, steps: seq<Step>, i: nat, n: Str)
    requires IsBehavior(env, states, steps) && i < |steps| && RowChanges(states[i], states[i + 1], n) && n in states[i + 1].table
    ensures CollectionOf(n) in states[i + 1].collections
  {
    hide After, Initial, SortedKeys, FreshTimes, Locks, Prepare, CollectionOf, FeedInv;
    if !steps[i].Finish? { Unchanged(env, states, steps, i, n); }
    var s, c := states[i], steps[i].c;
    PrefixBehavior(env, states, steps, i);
    assert Enabled(env, s, steps[i]);
    TableAfter(env, s, steps[i]);
    RunCollections(env, states[..i + 1], steps[..i], c);
    var r := s.running[c];
    PersistAt(s.table, r.states.value, n);
    var names := EventNames(r.states.value);
    assert n in Dirty(r.states.value);
    assert n in names;
    var j :| 0 <= j < |names| && names[j] == n;
    assert j < |r.events|;
    FinishAdds(env, s, c);
  }

  // Every row a commit has added is the collection of a document it has written and
  // kept.
  ghost predicate NeededOk(s: State, c: nat) {
    c in s.running ==>
      var r := s.running[c];
      && (r.states.None? ==> r.inserted == {})
      && (r.states.Some? ==> forall p :: p in r.inserted ==> NeededFor(r, p))
  }

  ghost predicate NeededFor(r: Running, p: Str)
    requires r.states.Some?
  {
    exists i :: 0 <= i < |r.events| && i < |EventNames(r.states.value)|
      && StateOf(r, EventNames(r.states.value)[i]).exists_ && CollectionOf(EventNames(r.states.value)[i]) == p
  }

  lemma {:induction false} RunNeeded(env: Env, states: seq<State>, steps: seq<Step>, c: nat)
    requires IsBehavior(env, states, steps)
    ensures NeededOk(states[|steps|], c)
    decreases |steps|
  {
    hide Enabled, After, NeededOk, FeedInv;
    var n := |steps|;
    if n == 0 {
      NoneNeeded(states[0], c);
    } else {
      PrefixBehavior(env, states, steps, n - 1);
      RunNeeded(env, states[..n], steps[..n - 1], c);
      RunFeeds(env, states[..n], steps[..n - 1]);
      NeededStep(env, states[n - 1], steps[n - 1], c);
    }
  }

  lemma NoneNeeded(s: State, c: nat)
    requires Initial(s)
    ensures NeededOk(s, c)
  {}

  lemma NeededStep(env: Env, s: State, step: Step, c: nat)
    requires Enabled(env, s, step) && NeededOk(s, c) && FeedInv(env, s)
    ensures NeededOk(After(env, s, step), c)
  {
    hide Enabled, After, FeedInv, NeededFor;
    if c in After(env, s, step).running {
      RunningAfter(env, s, step, c);
      if Actor(step) == Some(c) { OwnNeeded(env, s, step, c); }
    }
  }

  lemma OwnNeeded(env: Env, s: State, step: Step, c: nat)
    requires Enabled(env, s, step) && Actor(step) == Some(c) && c in After(env, s, step).running && NeededOk(s, c) && FeedInv(env, s)
    ensures NeededOk(After(env, s, step), c)
  {
    hide Enabled, After, Prepare, EventNames, Locks, AllAllowed, LocksHeld, FinishOf, NextEvent, CanLock, OrderInv, ReaderInv, KeysInv,
         CollectionOf, AppendOf, NeededFor;
    match step
    case Append(_) =>
      AppendIs(env, s, c);
      AppendNeeded(s, c);
    case Acquire(_) =>
      AcquireOnly(env, s, c);
      SameNeeded(s.running[c], After(env, s, step).running[c]);
    case Assign(_) =>
      AssignIs(env, s, c);
      SameNeeded(s.running[c], After(env, s, step).running[c]);
    case Start(_, _, _, _) => StartIs(env, s, step);
    case Check(_) => CheckIs(env, s, c);
    case _ => EndIs(env, s, step);
  }

  lemma SameNeeded(a: Running, b: Running)
    requires a.states == b.states && a.events == b.events && a.inserted == b.inserted
    ensures a.states.Some? ==> forall p :: NeededFor(a, p) ==> NeededFor(b, p)
  {}

  lemma AppendNeeded(s: State, c: nat)
    requires c in s.running && s.running[c].states.Some? && s.running[c].xid.Some? && NeededOk(s, c)
    requires |s.running[c].events| < |EventNames(s.running[c].states.value)|
    ensures NeededOk(AppendOf(s, c), c)
  {
    hide EventNames, CollectionOf, NextEvent;
    var a, b := s.running[c], AppendOf(s, c).running[c];
    forall p | p in b.inserted ensures NeededFor(b, p) {
      if p in a.inserted {
        var i :| 0 <= i < |a.events| && i < |EventNames(a.states.value)|
          && StateOf(a, EventNames(a.states.value)[i]).exists_ && CollectionOf(EventNames(a.states.value)[i]) == p;
        assert StateOf(b, EventNames(b.states.value)[i]).exists_ && CollectionOf(EventNames(b.states.value)[i]) == p;
      } else {
        var i := |a.events|;
        assert StateOf(b, EventNames(b.states.value)[i]).exists_ && CollectionOf(EventNames(b.states.value)[i]) == p;
      }
    }
  }

  // No other collection is: a row that is new belongs to a document the commit leaves.
  lemma NoOtherCollection(env: Env, states: seq<State>, steps: seq<Step>, i: nat, p: Str) returns (n: Str)
    requires IsBehavior(env, states, steps) && i < |steps| && p in states[i + 1].collections && p !in states[i].collections
    ensures steps[i].Finish? && n in states[i + 1].table && CollectionOf(n) == p
    ensures steps[i].c in states[i].running && n in Targets(states[i].running[steps[i].c].job.writes)
  {
    hide Enabled, After, Initial, CollectionOf, LockInv, VersionInv, Explains, NeededOk;
    TableAfter(env, states[i], steps[i]);
    var s, c := states[i], steps[i].c;
    PrefixBehavior(env, states, steps, i);
    FinishAdds(env, s, c);
    RunNeeded(env, states[..i + 1], steps[..i], c);
    RunKeeps(env, states[..i + 1], steps[..i]);
    n := NeededName(s, c, p);
    PersistAt(s.table, s.running[c].states.value, n);
    WrittenTargets(env, s, c, n);
  }

  lemma NeededName(s: State, c: nat, p: Str) returns (n: Str)
    requires c in s.running && s.running[c].states.Some? && NeededOk(s, c) && p in s.running[c].inserted
    ensures n in Dirty(s.running[c].states.value) && s.running[c].states.value[n].exists_ && CollectionOf(n) == p
  {
    hide CollectionOf, SortedKeys;
    var r := s.running[c];
    assert NeededFor(r, p);
    var i :| 0 <= i < |r.events| && i < |EventNames(r.states.value)|
      && StateOf(r, EventNames(r.states.value)[i]).exists_ && CollectionOf(EventNames(r.states.value)[i]) == p;
    n := EventNames(r.states.value)[i];
    assert n in EventNames(r.states.value);
  }
}
