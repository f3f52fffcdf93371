// What writes do to documents and what a commit does to rows: preconditions, effects
// and transforms told from the rows and the writes alone (internal/writes/writes.go,
// applyCommit in internal/store/store.go).
module WriteLaws {
  import opened Bytes
  import opened Values
  import opened FieldPaths
  import opened Writes
  import opened Transforms
  import opened Storage
  import opened Conversions
  import opened Orders
  import opened Transactions

  // ------------------------------------------------------- the state before a write

  // The last of the first n writes that names the document, -1 when none does.
  function LastWrite(ws: seq<Write>, n: nat, name: Str): (j: int)
    requires n <= |ws|
    ensures -1 <= j < n
    ensures j >= 0 ==> ws[j].name == name
    ensures forall k :: j < k < n ==> ws[k].name != name
  {
    if n == 0 then -1 else if ws[n - 1].name == name then n - 1 else LastWrite(ws, n - 1, name)
  }

  // Whether the document is there after the first n writes, and its update time then.
  predicate There(docs: Docs, ws: seq<Write>, n: nat, name: Str)
    requires n <= |ws|
  {
    var j := LastWrite(ws, n, name);
    if j < 0 then name in docs else !ws[j].Delete?
  }

  function TimeOf(docs: Docs, ws: seq<Write>, n: nat, name: Str, time: Instant): nat
    requires n <= |ws|
  {
    if LastWrite(ws, n, name) >= 0 then time else if name in docs then docs[name].updateTime else ZERO_TIME
  }

  // What a precondition asks of a document that is there or not, of this update time.
  predicate Asks(pre: Precondition, there: bool, time: nat) {
    match pre
    case Always => true
    case Exists(wanted) => if wanted then there else !there
    case UpdatedAt(t) => there && time == t
  }

  // The precondition of the i-th write holds of the row as it is by then.
  predicate Met(docs: Docs, job: Job, i: nat)
    requires i < |job.writes|
  {
    var w := job.writes[i];
    Asks(w.pre, There(docs, job.writes, i, w.name), TimeOf(docs, job.writes, i, w.name, job.time))
  }

  // A transform that can be carried out on any document.
  predicate CanTransform(tr: Transform) {
    Parse(tr.path).Some? && !tr.Unsupported? && (tr.ServerValue? ==> tr.requestTime)
  }

  predicate CanTransformAll(trs: seq<Transform>) { forall i :: 0 <= i < |trs| ==> CanTransform(trs[i]) }

  // A write that can be carried out on any document.
  predicate CanWrite(w: Write) {
    match w
    case Update(_, _, mask, _, trs) =>
      CanTransformAll(trs) && (mask.Some? ==> forall i :: 0 <= i < |mask.value| ==> Parse(mask.value[i]).Some?)
    case Delete(_, _, trs) => trs == []
    case TransformDoc(_, own, _, trs) => CanTransformAll(own) && CanTransformAll(trs)
  }

  // ------------------------------------------------------------ when writes succeed

  lemma {:induction false} TransformsExact(fields: Fields, trs: seq<Transform>, time: Instant)
    ensures TransformAll(fields, trs, time).Some? <==> CanTransformAll(trs)
    decreases |trs|
  {
    hide Incremented, Extremum, UnionOf, Without, SetField, Parse;
    if trs != [] {
      var r := Transformed(fields, trs[0], time);
      if r.Some? { TransformsExact(r.value, trs[1..], time); }
      assert CanTransformAll(trs) <==> CanTransform(trs[0]) && CanTransformAll(trs[1..]) by {
        assert forall i :: 0 < i < |trs| ==> trs[i] == trs[1..][i - 1];
        if CanTransformAll(trs) { forall i | 0 <= i < |trs[1..]| ensures CanTransform(trs[1..][i]) { assert trs[1..][i] == trs[i + 1]; } }
      }
    }
  }

  lemma {:induction false} MaskParses(f: Fields, u: Fields, mask: seq<Str>)
    ensures ApplyStrings(f, u, mask).Some? <==> forall i :: 0 <= i < |mask| ==> Parse(mask[i]).Some?
    decreases |mask|
  {
    hide Parse, CopyPath;
    if mask != [] {
      if Parse(mask[0]).Some? { MaskParses(CopyPath(f, u, Parse(mask[0]).value), u, mask[1..]); }
      assert forall i :: 0 < i < |mask| ==> mask[i] == mask[1..][i - 1];
      assert (forall i :: 0 <= i < |mask| ==> Parse(mask[i]).Some?) ==> forall i :: 0 <= i < |mask[1..]| ==> Parse(mask[1..][i]).Some? by {
        forall i | 0 <= i < |mask[1..]| ensures mask[1..][i] == mask[i + 1] {}
      }
    }
  }

  // One write succeeds exactly when its precondition holds and it can be carried out.
  lemma WriteExact(st: DocState, w: Write, time: Instant)
    ensures ApplyWrite(st, w, time).Some? <==> CanWrite(w) && Asks(w.pre, st.exists_, st.updateTime)
  {
    hide TransformAll, CanTransformAll, ApplyStrings;
    if w.Update? {
      if w.mask.Some? { MaskParses(FieldsOf(st), w.fields, w.mask.value); }
      var r := ApplyUpdate(FieldsOf(st), w.fields, w.mask);
      if r.Some? { TransformsExact(r.value, w.transforms, time); }
    }
    if w.TransformDoc? {
      TransformsExact(FieldsOf(st), w.own, time);
      var r := TransformAll(FieldsOf(st), w.own, time);
      if r.Some? { TransformsExact(r.value, w.transforms, time); }
    }
  }

  // What an update leaves of a document as an earlier write of the commit left it: a
  // full set its own fields; a mask its paths as the update has them and the others as
  // they were, from nothing when the document is not there.
  lemma UpdateLeaves(st: DocState, w: Write, paths: seq<Path>, time: Instant, q: Path)
    requires w.Update? && w.transforms == [] && ApplyWrite(st, w, time).Some?
    requires w.mask.Some? ==> |paths| == |w.mask.value| && forall i :: 0 <= i < |paths| ==> Parse(w.mask.value[i]) == Some(paths[i])
    ensures var left := ApplyWrite(st, w, time).value.fields;
      && (w.mask.None? ==> left == w.fields)
      && (w.mask.Some? && q in paths ==> GetField(left, q) == GetField(w.fields, q))
      && (w.mask.Some? && (forall i :: 0 <= i < |paths| ==> Incomparable(paths[i], q)) ==>
            GetField(left, q) == if st.exists_ then GetField(st.fields, q) else GetField(map[], q))
  {
    hide CopyMask, Parse, GetField, Incomparable;
    if w.mask.Some? {
      var before := if st.exists_ then st.fields else map[];
      StringsAreMask(before, w.fields, w.mask.value, paths);
      if q in paths { MaskPathsRead(before, w.fields, paths, q); }
      if forall i :: 0 <= i < |paths| ==> Incomparable(paths[i], q) { MaskFrame(before, w.fields, paths, q); }
    }
  }

  // The states after n writes, as far as rows and writes tell.
  ghost predicate Tracks(docs: Docs, job: Job, n: nat, states: map<Str, DocState>)
    requires n <= |job.writes|
  {
    (forall m :: m in states <==> m in Targets(job.writes)) && forall m :: m in states ==> TrackedAt(docs, job, n, m, states[m])
  }

  ghost predicate TrackedAt(docs: Docs, job: Job, n: nat, m: Str, st: DocState)
    requires n <= |job.writes|
  {
    && (st.exists_ <==> There(docs, job.writes, n, m))
    && (st.exists_ ==> st.updateTime == TimeOf(docs, job.writes, n, m, job.time))
    && (st.exists_ ==> st.createTime == if m in docs && KeptBefore(docs, job.writes, n, m) then docs[m].createTime else job.time)
    && (st.dirty <==> LastWrite(job.writes, n, m) >= 0)
    && (!st.dirty ==> st == Load(Lookup(docs, m)))
    && (LastWrite(job.writes, n, m) >= 0 && IsSet(job.writes[LastWrite(job.writes, n, m)]) ==>
          st.fields == job.writes[LastWrite(job.writes, n, m)].fields)
  }

  // A full set: no mask, no transforms.
  predicate IsSet(w: Write) { w.Update? && w.mask.None? && w.transforms == [] }

  // None of the first n writes deletes it.
  predicate KeptBefore(docs: Docs, ws: seq<Write>, n: nat, name: Str)
    requires n <= |ws|
  {
    forall i :: 0 <= i < n && ws[i].name == name ==> !ws[i].Delete?
  }

  lemma StartTracks(docs: Docs, job: Job)
    ensures Tracks(docs, job, 0, LoadAll(docs, Targets(job.writes)))
  {}

  lemma StepTracks(docs: Docs, job: Job, n: nat, states: map<Str, DocState>)
    requires n < |job.writes| && Tracks(docs, job, n, states)
    ensures job.writes[n].name in states
    ensures ApplyWrite(states[job.writes[n].name], job.writes[n], job.time).Some? <==> CanWrite(job.writes[n]) && Met(docs, job, n)
    ensures var st := ApplyWrite(states[job.writes[n].name], job.writes[n], job.time);
      st.Some? ==> Tracks(docs, job, n + 1, states[job.writes[n].name := st.value])
  {
    hide ApplyWrite, CanWrite, Asks, TrackedAt, There, TimeOf;
    var w := job.writes[n];
    assert w.name in Targets(job.writes);
    assert TrackedAt(docs, job, n, w.name, states[w.name]);
    OwnStep(docs, job, n, states[w.name]);
    var st := ApplyWrite(states[w.name], w, job.time);
    if st.Some? {
      var next := states[w.name := st.value];
      forall m | m in next ensures TrackedAt(docs, job, n + 1, m, next[m]) {
        if m != w.name { OtherStep(docs, job, n, m, states[m]); }
      }
    }
  }

  lemma OwnStep(docs: Docs, job: Job, n: nat, st: DocState)
    requires n < |job.writes| && TrackedAt(docs, job, n, job.writes[n].name, st)
    ensures ApplyWrite(st, job.writes[n], job.time).Some? <==> CanWrite(job.writes[n]) && Met(docs, job, n)
    ensures var r := ApplyWrite(st, job.writes[n], job.time);
      r.Some? ==> TrackedAt(docs, job, n + 1, job.writes[n].name, r.value)
  {
    hide WriteFields, CanWrite;
    WriteExact(st, job.writes[n], job.time);
    if IsSet(job.writes[n]) { SetLeaves(st, job.writes[n], job.time); }
    assert LastWrite(job.writes, n + 1, job.writes[n].name) == n;
  }

  lemma SetLeaves(st: DocState, w: Write, time: Instant)
    requires IsSet(w)
    ensures WriteFields(st, w, time) == Some(w.fields)
  {}

  lemma OtherStep(docs: Docs, job: Job, n: nat, m: Str, st: DocState)
    requires n < |job.writes| && m != job.writes[n].name && TrackedAt(docs, job, n, m, st)
    ensures TrackedAt(docs, job, n + 1, m, st)
  {
    assert LastWrite(job.writes, n + 1, m) == LastWrite(job.writes, n, m);
  }

  // The writes succeed one after the other exactly when each one can be carried out and
  // finds its precondition met.
  lemma {:induction false} WritesExact(docs: Docs, job: Job, n: nat, states: map<Str, DocState>)
    requires n <= |job.writes| && Tracks(docs, job, n, states)
    ensures ApplyAll(states, job.writes[n..], job.time).Some? <==>
      forall i :: n <= i < |job.writes| ==> CanWrite(job.writes[i]) && Met(docs, job, i)
    ensures ApplyAll(states, job.writes[n..], job.time).Some? ==>
      Tracks(docs, job, |job.writes|, ApplyAll(states, job.writes[n..], job.time).value)
    decreases |job.writes| - n
  {
    hide ApplyWrite, CanWrite, Met, Tracks;
    if n < |job.writes| {
      var w, rest := job.writes[n], job.writes[n..];
      assert rest[0] == w && rest[1..] == job.writes[n + 1..];
      StepTracks(docs, job, n, states);
      var st := ApplyWrite(states[w.name], w, job.time);
      if st.Some? { WritesExact(docs, job, n + 1, states[w.name := st.value]); }
    }
  }

  // ------------------------------------------------------------------- a commit

  // A commit succeeds exactly when its reads are current, each write can be carried out
  // and finds its precondition met, and what they leave can be stored.
  lemma CommitExact(docs: Docs, job: Job)
    ensures Serial(docs, job).Some? <==>
      && (forall n :: n in job.verify ==> VersionOf(Lookup(docs, n)) == job.verify[n])
      && (forall i :: 0 <= i < |job.writes| ==> CanWrite(job.writes[i]) && Met(docs, job, i))
      && (forall states :: Some(states) == ApplyAll(LoadAll(docs, Targets(job.writes)), job.writes, job.time) ==> AllStorable(states))
  {
    hide ApplyAll, Persist, AllStorable, CanWrite, Met, Tracks;
    StartTracks(docs, job);
    assert job.writes[0..] == job.writes;
    WritesExact(docs, job, 0, LoadAll(docs, Targets(job.writes)));
  }

  // The first write of a document finds it as the row has it: a create finds none, an
  // update that demands one finds it, and a version demanded is the row's.
  lemma FirstPreconditions(docs: Docs, job: Job, i: nat)
    requires Serial(docs, job).Some? && i < |job.writes|
    requires forall j :: 0 <= j < i ==> job.writes[j].name != job.writes[i].name
    ensures var n := job.writes[i].name;
      match job.writes[i].pre {
        case Always => true
        case Exists(wanted) => if wanted then n in docs else n !in docs
        case UpdatedAt(t) => n in docs && docs[n].updateTime == t
      }
  {
    hide ApplyAll, Persist, AllStorable, CanWrite;
    CommitExact(docs, job);
    assert Met(docs, job, i);
    assert LastWrite(job.writes, i, job.writes[i].name) == -1;
  }

  // What a commit leaves of a document: the row as it was when no write names it, none
  // after a delete, and otherwise one of this update time, as old as the row it found,
  // or new; with the fields of the last write when that sets them all.
  lemma RowExact(docs: Docs, job: Job, n: Str)
    requires Serial(docs, job).Some?
    ensures var j, after := LastWrite(job.writes, |job.writes|, n), Serial(docs, job).value;
      && (j < 0 ==> Lookup(after, n) == Lookup(docs, n))
      && (j >= 0 ==> (n in after <==> !job.writes[j].Delete?))
      && (j >= 0 && n in after ==>
            after[n].updateTime == job.time && after[n].createTime == if n in docs then docs[n].createTime else job.time)
      && (j >= 0 && IsSet(job.writes[j]) ==> n in after && StoreFields(job.writes[j].fields) == Some(after[n].fields))
  {
    hide ApplyAll, AllStorable, CanWrite, Met;
    StartTracks(docs, job);
    assert job.writes[0..] == job.writes;
    WritesExact(docs, job, 0, LoadAll(docs, Targets(job.writes)));
    var states := Prepare(docs, job).value;
    PersistAt(docs, states, n);
    if LastWrite(job.writes, |job.writes|, n) >= 0 {
      assert n in Targets(job.writes);
      assert TrackedAt(docs, job, |job.writes|, n, states[n]);
      PreparedStorable(docs, job);
      if states[n].exists_ { StoredWhenWritten(states, n); }
    }
  }

  lemma PreparedStorable(docs: Docs, job: Job)
    requires Prepare(docs, job).Some?
    ensures AllStorable(Prepare(docs, job).value)
  {
    hide ApplyAll, AllStorable;
  }

  lemma StoredWhenWritten(states: map<Str, DocState>, n: Str)
    requires AllStorable(states) && Written(states, n) && states[n].exists_
    ensures StoreFields(states[n].fields) == Some(Data(states[n].fields))
  {
    hide StoreFields;
  }

  // ------------------------------------------------------------- a single write

  function One(w: Write, time: Instant): Job { Job(map[], map[], [w], time) }

  // What a precondition asks of the row.
  predicate Demanded(docs: Docs, pre: Precondition, n: Str) {
    Asks(pre, n in docs, if n in docs then docs[n].updateTime else ZERO_TIME)
  }

  lemma OneWrite(docs: Docs, w: Write, time: Instant)
    ensures var st := ApplyWrite(Load(Lookup(docs, w.name)), w, time);
      Prepare(docs, One(w, time)) == if st.Some? && Storable(st.value) then Some(map[w.name := st.value]) else None
  {
    hide ApplyWrite, StoreFields;
    var job := One(w, time);
    assert job.writes[0] == w && job.writes[1..] == [];
    assert Targets(job.writes) == {w.name};
    var loaded := LoadAll(docs, {w.name});
    assert loaded == map[w.name := Load(Lookup(docs, w.name))];
    var st := ApplyWrite(loaded[w.name], w, time);
    assert ApplyAll(loaded, [w], time) == if st.None? then None else ApplyAll(loaded[w.name := st.value], [], time);
    if st.Some? {
      assert loaded[w.name := st.value] == map[w.name := st.value];
      OneStorable(w.name, st.value);
    }
  }

  predicate Storable(st: DocState) { st.exists_ && st.dirty ==> StoreFields(st.fields).Some? }

  lemma OneStorable(n: Str, st: DocState)
    ensures AllStorable(map[n := st]) <==> Storable(st)
  {
    hide StoreFields;
    var states := map[n := st];
    assert states[n] == st;
  }

  // A delete succeeds exactly when its precondition holds, and leaves no row.
  lemma DeleteExact(docs: Docs, n: Str, pre: Precondition, time: Instant)
    ensures Serial(docs, One(Delete(n, pre, []), time)) == if Demanded(docs, pre, n) then Some(docs - {n}) else None
  {
    hide StoreFields;
    var w := Delete(n, pre, []);
    OneWrite(docs, w, time);
    var after := Serial(docs, One(w, time));
    if after.Some? {
      forall m ensures Lookup(after.value, m) == Lookup(docs - {n}, m) { PersistAt(docs, Prepare(docs, One(w, time)).value, m); }
      SameDocs(after.value, docs - {n});
    }
  }

  // The row of a document that is written, as old as the one it replaces.
  function NewRow(docs: Docs, n: Str, fields: Fields, time: Instant): Stored {
    Stored(fields, if n in docs then docs[n].createTime else time, time)
  }

  // An update without a mask leaves exactly its fields, as they read back.
  lemma SetExact(docs: Docs, n: Str, fields: Fields, pre: Precondition, time: Instant)
    ensures Serial(docs, One(Update(n, fields, None, pre, []), time)) ==
      if Demanded(docs, pre, n) && StoreFields(fields).Some? then Some(docs[n := NewRow(docs, n, StoreFields(fields).value, time)]) else None
  {
    hide StoreFields;
    OneWrite(docs, Update(n, fields, None, pre, []), time);
    var after := Serial(docs, One(Update(n, fields, None, pre, []), time));
    if after.Some? {
      forall m ensures Lookup(after.value, m) == Lookup(docs[n := NewRow(docs, n, StoreFields(fields).value, time)], m) {
        PersistAt(docs, Prepare(docs, One(Update(n, fields, None, pre, []), time)).value, m);
      }
      SameDocs(after.value, docs[n := NewRow(docs, n, StoreFields(fields).value, time)]);
    }
  }

  function OldFields(docs: Docs, n: Str): Fields { if n in docs then docs[n].fields else map[] }

  // An update with a mask leaves the mask's paths as the update has them, present or
  // absent, and the others as they were, all as they read back.
  lemma MaskedExact(docs: Docs, n: Str, fields: Fields, mask: seq<Str>, paths: seq<Path>, pre: Precondition, time: Instant)
    returns (left: Fields)
    requires |paths| == |mask| && forall i :: 0 <= i < |mask| ==> Parse(mask[i]) == Some(paths[i])
    ensures forall i :: 0 <= i < |paths| ==> GetField(left, paths[i]) == GetField(fields, paths[i])
    ensures forall q :: (forall i :: 0 <= i < |paths| ==> Incomparable(paths[i], q)) ==>
      GetField(left, q) == GetField(OldFields(docs, n), q)
    ensures Serial(docs, One(Update(n, fields, Some(mask), pre, []), time)) ==
      if Demanded(docs, pre, n) && StoreFields(left).Some? then Some(docs[n := NewRow(docs, n, StoreFields(left).value, time)]) else None
  {
    hide StoreFields, CopyMask, Parse, GetField, Incomparable;
    StringsAreMask(OldFields(docs, n), fields, mask, paths);
    left := CopyMask(OldFields(docs, n), fields, paths);
    forall i | 0 <= i < |paths| ensures GetField(left, paths[i]) == GetField(fields, paths[i]) {
      MaskPathsRead(OldFields(docs, n), fields, paths, paths[i]);
    }
    forall q | forall i :: 0 <= i < |paths| ==> Incomparable(paths[i], q)
      ensures GetField(left, q) == GetField(OldFields(docs, n), q)
    {
      MaskFrame(OldFields(docs, n), fields, paths, q);
    }
    var w := Update(n, fields, Some(mask), pre, []);
    OneWrite(docs, w, time);
    var after := Serial(docs, One(w, time));
    if after.Some? {
      forall m ensures Lookup(after.value, m) == Lookup(docs[n := NewRow(docs, n, StoreFields(left).value, time)], m) {
        PersistAt(docs, Prepare(docs, One(w, time)).value, m);
      }
      SameDocs(after.value, docs[n := NewRow(docs, n, StoreFields(left).value, time)]);
    }
  }
}
