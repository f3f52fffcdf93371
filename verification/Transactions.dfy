// Writes and optimistic transactions: what one commit does when it runs alone
// (internal/writes/writes.go, applyCommit in internal/store/store.go), and the
// registry of open transactions (internal/store/txn.go).
module Transactions {
  import opened Bytes
  import opened Values
  import opened FieldPaths
  import opened Writes
  import opened Transforms
  import opened Storage
  import opened DocNames

  // The zero time stands for a missing document.
  const ZERO_TIME: nat := 0

  datatype Stored = Stored(fields: Fields, createTime: nat, updateTime: nat)

  type Docs = map<Str, Stored>

  function Lookup(docs: Docs, name: Str): Option<Stored> {
    if name in docs then Some(docs[name]) else None
  }

  // The version a read of the document observes.
  function VersionOf(d: Option<Stored>): nat { if d.None? then ZERO_TIME else d.value.updateTime }

  // ------------------------------------------------------------------- writes

  datatype Precondition = Always | Exists(wanted: bool) | UpdatedAt(time: nat)

  // The update transforms of a write run after its operation.
  datatype Write =
    | Update(name: Str, fields: Fields, mask: Option<seq<Str>>, pre: Precondition, transforms: seq<Transform>)
    | Delete(name: Str, pre: Precondition, transforms: seq<Transform>)
    | TransformDoc(name: Str, own: seq<Transform>, pre: Precondition, transforms: seq<Transform>)

  datatype DocState = DocState(exists_: bool, fields: Fields, createTime: nat, updateTime: nat, dirty: bool)

  function Load(d: Option<Stored>): DocState {
    if d.None? then DocState(false, map[], ZERO_TIME, ZERO_TIME, false)
    else DocState(true, d.value.fields, d.value.createTime, d.value.updateTime, false)
  }

  predicate Allows(pre: Precondition, st: DocState) {
    match pre
    case Always => true
    case Exists(wanted) => wanted == st.exists_
    case UpdatedAt(t) => st.exists_ && st.updateTime == t
  }

  function FieldsOf(st: DocState): Fields { if st.exists_ then st.fields else map[] }

  // The fields a write leaves, or an error.
  function WriteFields(st: DocState, w: Write, time: Instant): Option<Fields>
    requires !w.Delete?
  {
    var r := if w.Update? then ApplyUpdate(FieldsOf(st), w.fields, w.mask) else TransformAll(FieldsOf(st), w.own, time);
    if r.None? then None else TransformAll(r.value, w.transforms, time)
  }

  // writes.Apply; None is any of its errors. A delete cannot carry transforms.
  function ApplyWrite(st: DocState, w: Write, time: Instant): Option<DocState> {
    if !Allows(w.pre, st) then None
    else if w.Delete? then
      if w.transforms != [] then None else Some(st.(exists_ := false, fields := map[], dirty := true))
    else
      var fields := WriteFields(st, w, time);
      if fields.None? then None
      else Some(DocState(true, fields.value, if st.exists_ then st.createTime else time, time, true))
  }

  // checkPrecondition.
  method CheckPrecondition(st: DocState, pre: Precondition) returns (ok: bool)
    ensures ok == Allows(pre, st)
  {
    match pre
    case Always => return true;
    case Exists(wanted) =>
      if wanted && !st.exists_ { return false; }
      if !wanted && st.exists_ { return false; }
      return true;
    case UpdatedAt(want) =>
      if !st.exists_ { return false; }
      return st.updateTime == want;
  }

  // The source's switch, mutating one state.
  method Apply(st: DocState, w: Write, time: Instant) returns (r: Option<DocState>)
    ensures r == ApplyWrite(st, w, time)
  {
    hide ApplyUpdate, TransformAll, Allows;
    var allowed := CheckPrecondition(st, w.pre);
    if !allowed { return None; }
    var state := st;
    var fields: Fields := map[];
    match w {
      case Delete(_, _, transforms) =>
        state := state.(exists_ := false, fields := map[], dirty := true);
        if |transforms| > 0 { return None; }
        return Some(state);
      case Update(_, update, mask, _, transforms) =>
        var updated := Writes.Update(FieldsOf(state), update, mask);
        if updated.None? { return None; }
        fields := updated.value;
      case TransformDoc(_, own, _, transforms) =>
        var changed := ApplyTransforms(FieldsOf(state), own, time);
        if changed.None? { return None; }
        fields := changed.value;
    }
    if !state.exists_ { state := state.(exists_ := true, createTime := time); }
    state := state.(fields := fields, updateTime := time, dirty := true);
    var done := ApplyTransforms(fields, w.transforms, time);
    if done.None? { return None; }
    return Some(state.(fields := done.value));
  }

  // The writes in order, each seeing the effects of the earlier ones.
  function ApplyAll(states: map<Str, DocState>, ws: seq<Write>, time: Instant): Option<map<Str, DocState>>
    decreases |ws|
  {
    if ws == [] then Some(states)
    else if ws[0].name !in states then None
    else
      var st := ApplyWrite(states[ws[0].name], ws[0], time);
      if st.None? then None else ApplyAll(states[ws[0].name := st.value], ws[1..], time)
  }

  function Targets(ws: seq<Write>): set<Str> {
    set i | 0 <= i < |ws| :: ws[i].name
  }

  function LoadAll(docs: Docs, names: set<Str>): map<Str, DocState> {
    map n | n in names :: Load(Lookup(docs, n))
  }

  predicate Written(states: map<Str, DocState>, n: Str) { n in states && states[n].dirty }

  // The data column, as it reads back.
  function Data(fields: Fields): Fields {
    if StoreFields(fields).Some? then StoreFields(fields).value else fields
  }

  // INSERT ... ON CONFLICT (name) DO UPDATE SET data, update_time: an existing row
  // keeps its create time.
  function Upsert(row: Option<Stored>, st: DocState): Stored {
    Stored(Data(st.fields), if row.Some? then row.value.createTime else st.createTime, st.updateTime)
  }

  function Persist(docs: Docs, states: map<Str, DocState>): Docs {
    map n | n in docs.Keys + states.Keys && (if Written(states, n) then states[n].exists_ else n in docs)
      :: if Written(states, n) then Upsert(Lookup(docs, n), states[n]) else docs[n]
  }

  // MarshalFields accepts every document that is written.
  predicate AllStorable(states: map<Str, DocState>) {
    forall n :: n in states ==> Written(states, n) && states[n].exists_ ==> StoreFields(states[n].fields).Some?
  }

  // The collections rows the written documents need.
  function Collections(states: map<Str, DocState>): set<Str> {
    set n | n in states && Written(states, n) && states[n].exists_ :: CollectionOf(n)
  }

  lemma PersistAt(docs: Docs, states: map<Str, DocState>, n: Str)
    ensures Lookup(Persist(docs, states), n) ==
      if !Written(states, n) then Lookup(docs, n)
      else if states[n].exists_ then Some(Upsert(Lookup(docs, n), states[n]))
      else None
  {}

  lemma {:induction false} ApplyAllKeys(states: map<Str, DocState>, ws: seq<Write>, time: Instant)
    requires ApplyAll(states, ws, time).Some?
    ensures ApplyAll(states, ws, time).value.Keys == states.Keys
    decreases |ws|
  {
    if ws != [] {
      var next := states[ws[0].name := ApplyWrite(states[ws[0].name], ws[0], time).value];
      assert next.Keys == states.Keys;
      ApplyAllKeys(next, ws[1..], time);
    }
  }

  // What a commit leaves of a document it wrote: gone, or stamped with its time.
  ghost predicate Stamped(states: map<Str, DocState>, time: nat) {
    forall n :: Written(states, n) && states[n].exists_ ==> states[n].updateTime == time
  }

  lemma {:induction false} ApplyAllStamps(states: map<Str, DocState>, ws: seq<Write>, time: Instant)
    requires Stamped(states, time) && ApplyAll(states, ws, time).Some?
    ensures Stamped(ApplyAll(states, ws, time).value, time)
    decreases |ws|
  {
    hide WriteFields;
    if ws != [] {
      ApplyAllStamps(states[ws[0].name := ApplyWrite(states[ws[0].name], ws[0], time).value], ws[1..], time);
    }
  }

  // Only written documents become dirty.
  lemma {:induction false} ApplyAllWrites(states: map<Str, DocState>, ws: seq<Write>, time: Instant, n: Str)
    requires ApplyAll(states, ws, time).Some? && Written(ApplyAll(states, ws, time).value, n)
    ensures n in Targets(ws) || Written(states, n)
    decreases |ws|
  {
    hide WriteFields;
    if ws != [] {
      ApplyAllWrites(states[ws[0].name := ApplyWrite(states[ws[0].name], ws[0], time).value], ws[1..], time, n);
      assert ws[0].name in Targets(ws);
      forall m | m in Targets(ws[1..]) ensures m in Targets(ws) {
        var i :| 0 <= i < |ws[1..]| && ws[1..][i].name == m;
        assert ws[i + 1].name == m;
      }
    }
  }

  // --------------------------------------------------------- a commit on its own

  // verify: the versions a transaction read; seen: the values those versions stood
  // for when it was shown them.
  datatype Job = Job(verify: map<Str, nat>, seen: map<Str, Option<Stored>>, writes: seq<Write>, time: Instant)

  function LockNames(job: Job): set<Str> { Targets(job.writes) + job.verify.Keys }

  predicate Verified(docs: Docs, verify: map<Str, nat>) {
    forall n :: n in verify ==> VersionOf(Lookup(docs, n)) == verify[n]
  }

  // The check, the writes and their encoding over the rows a commit locked; None
  // aborts it.
  function Prepare(docs: Docs, job: Job): Option<map<Str, DocState>> {
    if !Verified(docs, job.verify) then None
    else
      var states := ApplyAll(LoadAll(docs, Targets(job.writes)), job.writes, job.time);
      if states.Some? && !AllStorable(states.value) then None else states
  }

  // The commit as one atomic action.
  function Serial(docs: Docs, job: Job): Option<Docs> {
    var states := Prepare(docs, job);
    if states.None? then None else Some(Persist(docs, states.value))
  }

  ghost predicate AgreeOn(a: Docs, b: Docs, names: set<Str>) {
    forall n :: n in names ==> Lookup(a, n) == Lookup(b, n)
  }

  // A commit looks only at the documents it locks.
  lemma PrepareLocal(a: Docs, b: Docs, job: Job)
    requires AgreeOn(a, b, LockNames(job))
    ensures Prepare(a, job) == Prepare(b, job)
  {
    hide ApplyAll, AllStorable;
    var names := Targets(job.writes);
    assert LoadAll(a, names) == LoadAll(b, names);
  }

  lemma PrepareWrites(docs: Docs, job: Job, n: Str)
    requires Prepare(docs, job).Some? && Written(Prepare(docs, job).value, n)
    ensures n in Targets(job.writes)
    ensures Prepare(docs, job).value[n].exists_ ==> Prepare(docs, job).value[n].updateTime == job.time
  {
    var loaded := LoadAll(docs, Targets(job.writes));
    ApplyAllWrites(loaded, job.writes, job.time, n);
    ApplyAllStamps(loaded, job.writes, job.time);
  }

  // ------------------------------------------------------------ the registry

  datatype Entry = Entry(versions: map<Str, nat>, created: nat)

  // First read wins.
  function FirstReads(old_: map<Str, nat>, observed: map<Str, nat>): map<Str, nat> { observed + old_ }

  method KeepFirst(old_: map<Str, nat>, observed: map<Str, nat>) returns (cur: map<Str, nat>)
    ensures cur == FirstReads(old_, observed)
  {
    cur := old_;
    var todo := observed.Keys;
    while todo != {}
      invariant todo <= observed.Keys
      invariant forall n :: n in cur <==> n in old_ || (n in observed && n !in todo)
      invariant forall n :: n in cur ==> cur[n] == if n in old_ then old_[n] else observed[n]
      decreases |todo|
    {
      var n :| n in todo;
      todo := todo - {n};
      if n !in cur { cur := cur[n := observed[n]]; }
    }
  }

  const TXN_TTL: nat := 300

  predicate Live(e: Entry, now: nat) { now - e.created <= TXN_TTL }

  class TxnRegistry {
    var m: map<seq<byte>, Entry>

    constructor ()
      ensures m == map[]
    {
      m := map[];
    }

    // begin: an expiry sweep, then a fresh entry.
    method Begin(id: seq<byte>, now: nat)
      modifies this
      ensures m == (map k | k in old(m) && Live(old(m)[k], now) :: old(m)[k])[id := Entry(map[], now)]
    {
      var keep: map<seq<byte>, Entry> := m;
      var todo := m.Keys;
      while todo != {}
        invariant todo <= old(m).Keys && keep.Keys <= old(m).Keys && m == old(m)
        invariant forall k :: k in old(m) ==> (k in keep <==> k in todo || Live(old(m)[k], now))
        invariant forall k :: k in keep ==> keep[k] == old(m)[k]
        decreases |todo|
      {
        var k :| k in todo;
        todo := todo - {k};
        if !Live(m[k], now) { keep := keep - {k}; }
      }
      assert keep == map k | k in old(m) && Live(old(m)[k], now) :: old(m)[k];
      m := keep[id := Entry(map[], now)];
    }

    // record; false is "unknown or expired transaction".
    method Record(id: seq<byte>, observed: map<Str, nat>) returns (ok: bool)
      modifies this
      ensures ok == (id in old(m))
      ensures m == if ok then old(m)[id := old(m)[id].(versions := FirstReads(old(m)[id].versions, observed))] else old(m)
    {
      if id !in m { return false; }
      var e := m[id];
      var cur := KeepFirst(e.versions, observed);
      m := m[id := e.(versions := cur)];
      return true;
    }

    method Take(id: seq<byte>) returns (e: Option<Entry>)
      modifies this
      ensures e == if id in old(m) then Some(old(m)[id]) else None
      ensures m == old(m) - {id}
    {
      if id !in m {
        assert m - {id} == m;
        return None;
      }
      e := Some(m[id]);
      m := m - {id};
    }

    method Drop(id: seq<byte>)
      modifies this
      ensures m == old(m) - {id}
    {
      m := m - {id};
    }
  }

  // ------------------------------------------------------- applyCommit's loops

  // The write targets, in order of first mention and without repeats, then the
  // names only read; both sorted.
  // False when a target is not a document name.
  method CollectLocks(ws: seq<Write>, extra: set<Str>) returns (targets: seq<Str>, lockSet: seq<Str>, ok: bool)
    ensures ok == AllParse(ws)
    ensures ok ==> targets == SortedKeys(Targets(ws)) && lockSet == SortedKeys(Targets(ws) + extra)
  {
    hide ParseName;
    var seen: set<Str> := {};
    for i := 0 to |ws|
      invariant seen == Targets(ws[..i]) && AllParse(ws[..i])
    {
      assert ws[..i + 1] == ws[..i] + [ws[i]];
      TargetsSnoc(ws[..i], ws[i]);
      if ws[i].name !in seen && ParseName(ws[i].name).None? { return [], [], false; }
      if ws[i].name in seen { SeenParses(ws[..i], ws[i].name); }
      seen := seen + {ws[i].name};
    }
    assert ws[..|ws|] == ws;
    ok := true;
    targets := SortedKeys(seen);
    lockSet := SortedKeys(seen + extra);
  }

  predicate AllParse(ws: seq<Write>) {
    forall i :: 0 <= i < |ws| ==> ParseName(ws[i].name).Some?
  }

  lemma SeenParses(ws: seq<Write>, n: Str)
    requires AllParse(ws) && n in Targets(ws)
    ensures ParseName(n).Some?
  {}

  lemma TargetsSnoc(ws: seq<Write>, w: Write)
    ensures Targets(ws + [w]) == Targets(ws) + {w.name}
  {
    forall n | n in Targets(ws) ensures n in Targets(ws + [w]) {
      var i :| 0 <= i < |ws| && ws[i].name == n;
      assert (ws + [w])[i].name == n;
    }
    assert (ws + [w])[|ws|].name == w.name;
  }

  // The loop over writes, mutating one state per document.
  method RunWrites(states0: map<Str, DocState>, ws: seq<Write>, time: Instant) returns (r: Option<map<Str, DocState>>)
    requires Targets(ws) <= states0.Keys
    ensures r == ApplyAll(states0, ws, time)
  {
    hide ApplyWrite;
    var states := states0;
    for i := 0 to |ws|
      invariant states.Keys == states0.Keys
      invariant ApplyAll(states0, ws, time) == ApplyAll(states, ws[i..], time)
    {
      var n := ws[i].name;
      assert n in Targets(ws);
      assert ws[i..][0] == ws[i] && ws[i..][1..] == ws[i + 1..];
      var st := Apply(states[n], ws[i], time);
      if st.None? { return None; }
      states := states[n := st.value];
    }
    return Some(states);
  }

  // The tables a commit writes, besides index entries and events.
  datatype Tables = Tables(docs: Docs, collections: set<Str>)

  // The loop over targets: upsert or delete one row at a time, registering the
  // collection of each document that stays; None when one does not encode.
  method PersistLoop(tables: Tables, targets: seq<Str>, states: map<Str, DocState>) returns (r: Option<Tables>)
    requires forall i, j :: 0 <= i < j < |targets| ==> targets[i] != targets[j]
    requires forall n :: n in states <==> n in targets
    ensures r == if AllStorable(states) then Some(PersistAll(tables, states)) else None
  {
    hide Collections, Persist, StoreFields, Only, CollectionOf;
    var docs, collections := tables.docs, tables.collections;
    NothingWritten(states);
    for i := 0 to |targets|
      invariant DoneTo(tables.docs, states, targets[..i], docs)
      invariant collections == tables.collections + Collections(Only(states, targets[..i]))
      invariant StorableTo(states, targets[..i])
    {
      var n := targets[i];
      assert targets[..i + 1] == targets[..i] + [n] && n !in targets[..i];
      assert n in targets;
      OneMore(states, targets[..i], n);
      RowStep(tables.docs, states, targets[..i], docs, n);
      var st := states[n];
      if !st.dirty { continue; }
      if st.exists_ {
        if StoreFields(st.fields).None? { return None; }
        docs := docs[n := Upsert(Lookup(docs, n), st)];
        collections := collections + {CollectionOf(n)};
      } else {
        docs := docs - {n};
      }
    }
    assert targets[..|targets|] == targets;
    AllDone(tables.docs, states, targets, docs);
    return Some(Tables(docs, collections));
  }

  // After the first targets the table has their new rows, and the old ones elsewhere.
  ghost predicate DoneTo(before: Docs, states: map<Str, DocState>, names: seq<Str>, docs: Docs) {
    forall n :: Lookup(docs, n) == Lookup(if n in names then Persist(before, states) else before, n)
  }

  ghost predicate StorableTo(states: map<Str, DocState>, names: seq<Str>) {
    forall n :: n in names && Written(states, n) && states[n].exists_ ==> StoreFields(states[n].fields).Some?
  }

  lemma NothingWritten(states: map<Str, DocState>)
    ensures Collections(Only(states, [])) == {}
  {}

  lemma RowStep(before: Docs, states: map<Str, DocState>, names: seq<Str>, docs: Docs, n: Str)
    requires DoneTo(before, states, names, docs) && n in states && n !in names
    ensures DoneTo(before, states, names + [n],
                   if !states[n].dirty then docs
                   else if states[n].exists_ then docs[n := Upsert(Lookup(docs, n), states[n])] else docs - {n})
  {
    hide Persist, Upsert;
    PersistAt(before, states, n);
    assert Lookup(docs, n) == Lookup(before, n);
  }

  lemma AllDone(before: Docs, states: map<Str, DocState>, targets: seq<Str>, docs: Docs)
    requires DoneTo(before, states, targets, docs) && forall n :: n in states <==> n in targets
    ensures docs == Persist(before, states) && Only(states, targets) == states
    ensures StorableTo(states, targets) <==> AllStorable(states)
  {
    hide Persist;
    forall n ensures Lookup(docs, n) == Lookup(Persist(before, states), n) { PersistAt(before, states, n); }
    SameDocs(docs, Persist(before, states));
  }

  function PersistAll(tables: Tables, states: map<Str, DocState>): Tables {
    Tables(Persist(tables.docs, states), tables.collections + Collections(states))
  }

  ghost function Only(states: map<Str, DocState>, names: seq<Str>): map<Str, DocState> {
    map n | n in states && n in names :: states[n]
  }

  lemma OneMore(states: map<Str, DocState>, names: seq<Str>, n: Str)
    requires n in states
    ensures Collections(Only(states, names + [n])) ==
      Collections(Only(states, names)) + if Written(states, n) && states[n].exists_ then {CollectionOf(n)} else {}
  {
    hide CollectionOf;
    var a, b := Only(states, names), Only(states, names + [n]);
    assert b == a[n := states[n]];
    forall m | m in Collections(b) ensures m in Collections(a) || (Written(states, n) && states[n].exists_ && m == CollectionOf(n)) {
      var k :| k in b && Written(b, k) && b[k].exists_ && m == CollectionOf(k);
      if k != n { assert k in a; }
    }
    forall m | m in Collections(a) ensures m in Collections(b) {
      var k :| k in a && Written(a, k) && a[k].exists_ && m == CollectionOf(k);
      assert k in b;
    }
    if Written(states, n) && states[n].exists_ { assert n in b && Written(b, n); }
  }

  lemma SameDocs(a: Docs, b: Docs)
    requires forall n :: Lookup(a, n) == Lookup(b, n)
    ensures a == b
  {
    forall n ensures (n in a <==> n in b) && (n in a ==> a[n] == b[n]) {
      assert Lookup(a, n) == Lookup(b, n);
    }
  }

  method VerifyLoop(docs: Docs, verify: map<Str, nat>) returns (ok: bool)
    ensures ok == Verified(docs, verify)
  {
    var todo := verify.Keys;
    while todo != {}
      invariant todo <= verify.Keys
      invariant forall n :: n in verify && n !in todo ==> VersionOf(Lookup(docs, n)) == verify[n]
      decreases |todo|
    {
      var n :| n in todo;
      todo := todo - {n};
      if VersionOf(Lookup(docs, n)) != verify[n] { return false; }
    }
    return true;
  }

  // applyCommit with the database to itself: the version check, the writes and the
  // rows are one atomic action; None is a bad name, ABORTED or a failed write.
  method ApplyCommit(tables: Tables, job: Job) returns (r: Option<Tables>)
    ensures AllParse(job.writes) && Serial(tables.docs, job).Some? ==>
      r == Some(PersistAll(tables, Prepare(tables.docs, job).value)) && r.value.docs == Serial(tables.docs, job).value
    ensures !AllParse(job.writes) || Serial(tables.docs, job).None? ==> r == None
  {
    hide ApplyAll, Persist, SortedKeys, AllStorable, Collections, AllParse;
    var targets, lockSet, ok := CollectLocks(job.writes, job.verify.Keys);
    if !ok { return None; }
    var current := VerifyLoop(tables.docs, job.verify);
    if !current { return None; }
    var states := RunWrites(LoadAll(tables.docs, Targets(job.writes)), job.writes, job.time);
    if states.None? { return None; }
    ApplyAllKeys(LoadAll(tables.docs, Targets(job.writes)), job.writes, job.time);
    DistinctSorted(targets);
    r := PersistLoop(tables, targets, states.value);
  }

  lemma DistinctSorted(names: seq<Str>)
    requires Increasing(names)
    ensures forall i, j :: 0 <= i < j < |names| ==> names[i] != names[j]
  {
    forall i, j | 0 <= i < j < |names| ensures names[i] != names[j] {
      assert Less(names[i], names[j]);
      CompareRefl(names[i]);
    }
  }
}
