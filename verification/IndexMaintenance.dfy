// Index maintenance (internal/store/index.go): when a commit keeps every ready index
// in agreement with the documents, and along which runs they stay so.
module IndexMaintenance {
  import opened Bytes
  import opened Values
  import opened FieldPaths
  import opened Queries
  import opened Indexes
  import opened Merge
  import opened General
  import opened Refinement
  import opened Layouts
  import opened SortKeys
  import opened Spans
  import opened Storage

  // A row of index_entries. The definition stands for its id, the hash of its spec.
  datatype IndexRow = IndexRow(def: Def, key: seq<byte>, name: Str)

  function EntriesOf(rows: set<IndexRow>, d: Def): set<Entry> {
    set r | r in rows && r.def == d :: Entry(r.key, r.name)
  }

  lemma EntryOf(rows: set<IndexRow>, d: Def, e: Entry)
    ensures e in EntriesOf(rows, d) <==> IndexRow(d, e.key, e.name) in rows
  {}

  // The rows one document contributes to a list of definitions.
  function RowsOf(defs: seq<Def>, name: Str, fields: Fields): set<IndexRow> {
    set i, j | 0 <= i < |defs| && 0 <= j < |Keys(defs[i], name, fields)| :: IndexRow(defs[i], Keys(defs[i], name, fields)[j], name)
  }

  lemma RowsHave(defs: seq<Def>, name: Str, fields: Fields, r: IndexRow)
    ensures r in RowsOf(defs, name, fields) <==> r.def in defs && r.name == name && r.key in Keys(r.def, name, fields)
  {
    hide Keys;
    if r.def in defs && r.name == name && r.key in Keys(r.def, name, fields) {
      var i :| 0 <= i < |defs| && defs[i] == r.def;
      var j :| 0 <= j < |Keys(defs[i], name, fields)| && Keys(defs[i], name, fields)[j] == r.key;
    }
  }

  function WithoutDoc(rows: set<IndexRow>, name: Str): set<IndexRow> { set r | r in rows && r.name != name }

  function WithoutDef(rows: set<IndexRow>, d: Def): set<IndexRow> { set r | r in rows && r.def != d }

  // refreshIndexEntries: nothing without definitions, else the document's rows
  // rewritten; fields is None when the document is deleted.
  function Refreshed(rows: set<IndexRow>, defs: seq<Def>, name: Str, fields: Option<Fields>): set<IndexRow> {
    if defs == [] then rows
    else WithoutDoc(rows, name) + if fields.None? then {} else RowsOf(defs, name, fields.value)
  }

  // The rows of a collection's documents for one definition.
  ghost predicate AreRowsOf(d: Def, table: Table, rows: set<IndexRow>) {
    forall r :: r in rows <==>
      r.def == d && r.name in table && table[r.name].collectionId == d.collectionId && r.key in Keys(d, r.name, table[r.name].fields)
  }

  // A change a commit makes to one document, with the fields as they were sent.
  datatype Change = Put(doc: Doc) | Remove(name: Str, collectionId: Str)

  function NameOf(c: Change): Str { if c.Put? then c.doc.name else c.name }

  function CollectionOf(c: Change): Str { if c.Put? then c.doc.collectionId else c.collectionId }

  function FieldsOf(c: Change): Option<Fields> { if c.Put? then Some(c.doc.fields) else None }

  predicate Storable(c: Change) { c.Put? ==> StoreFields(c.doc.fields).Some? }

  // The row: its data column is the encoding of the fields, not the fields.
  function RowFor(doc: Doc): Doc
    requires StoreFields(doc.fields).Some?
  {
    doc.(fields := StoreFields(doc.fields).value)
  }

  function Changed(table: Table, c: Change): Table
    requires Storable(c)
  {
    if c.Put? then table[c.doc.name := RowFor(c.doc)] else table - {c.name}
  }

  predicate AllStorable(cs: seq<Change>) { forall i :: 0 <= i < |cs| ==> Storable(cs[i]) }

  function AllChanged(table: Table, cs: seq<Change>): Table
    requires AllStorable(cs)
    decreases |cs|
  {
    if cs == [] then table else AllChanged(Changed(table, cs[0]), cs[1..])
  }

  // A document keeps its collection: both come from its name.
  ghost predicate SameCollection(table: Table, c: Change) {
    NameOf(c) in table ==> table[NameOf(c)].collectionId == CollectionOf(c)
  }

  // The collection a name belongs to, for every name.
  ghost predicate ByName(collection: Str -> Str, table: Table) {
    forall n :: n in table ==> table[n].name == n && table[n].collectionId == collection(n)
  }

  // The keys of the fields as sent are those of the fields as stored.
  ghost predicate SameFieldKeys(d: Def, name: Str, sent: Fields, stored: Fields) {
    forall k :: k in Keys(d, name, sent) <==> k in Keys(d, name, stored)
  }

  ghost predicate KeepsKeys(d: Def, c: Change) {
    c.Put? && StoreFields(c.doc.fields).Some? && d.collectionId == c.doc.collectionId ==>
      SameFieldKeys(d, c.doc.name, c.doc.fields, StoreFields(c.doc.fields).value)
  }

  // ------------------------------------------------------------ one document

  lemma RefreshedHas(rows: set<IndexRow>, defs: seq<Def>, name: Str, fields: Option<Fields>, r: IndexRow)
    requires defs != []
    ensures r in Refreshed(rows, defs, name, fields) <==>
      if r.name != name then r in rows
      else r.def in defs && fields.Some? && r.key in Keys(r.def, name, fields.value)
  {
    hide Keys;
    if fields.Some? { RowsHave(defs, name, fields.value, r); }
  }

  // An index agrees with the table on one name.
  ghost predicate AgreesAt(d: Def, table: Table, rows: set<IndexRow>, n: Str) {
    forall k :: IndexRow(d, k, n) in rows <==> HasKey(d, table, n, k)
  }

  lemma AgreesEverywhere(d: Def, table: Table, rows: set<IndexRow>)
    ensures IndexRows(d, table, EntriesOf(rows, d)) <==> forall n :: AgreesAt(d, table, rows, n)
  {
    hide Keys;
    if IndexRows(d, table, EntriesOf(rows, d)) {
      forall n, k ensures IndexRow(d, k, n) in rows <==> HasKey(d, table, n, k) { EntryOf(rows, d, Entry(k, n)); }
    }
    if forall n :: AgreesAt(d, table, rows, n) {
      forall e ensures e in EntriesOf(rows, d) <==> HasKey(d, table, e.name, e.key) {
        EntryOf(rows, d, e);
        assert AgreesAt(d, table, rows, e.name);
      }
    }
  }

  // The refresh after a change leaves a registered index in agreement on the
  // document exactly when the change keeps its keys,
  lemma RefreshAgreesAt(d: Def, defs: seq<Def>, table: Table, rows: set<IndexRow>, c: Change)
    requires Storable(c) && SameCollection(table, c) && AgreesAt(d, table, rows, NameOf(c))
    requires (d.collectionId == CollectionOf(c) ==> d in defs) && (forall i :: 0 <= i < |defs| ==> defs[i].collectionId == CollectionOf(c))
    ensures AgreesAt(d, Changed(table, c), Refreshed(rows, defs, NameOf(c), FieldsOf(c)), NameOf(c)) <==> KeepsKeys(d, c)
  {
    hide Keys, Refreshed, StoreFields;
    var n, t', r' := NameOf(c), Changed(table, c), Refreshed(rows, defs, NameOf(c), FieldsOf(c));
    forall k ensures IndexRow(d, k, n) in r' <==> c.Put? && d.collectionId == CollectionOf(c) && k in Keys(d, n, c.doc.fields) {
      if defs == [] {
        RefreshedNone(rows, n, FieldsOf(c));
        assert IndexRow(d, k, n) in rows <==> HasKey(d, table, n, k);
      } else {
        RefreshedHas(rows, defs, n, FieldsOf(c), IndexRow(d, k, n));
      }
    }
    if c.Put? { assert t'[n] == RowFor(c.doc); }
    if AgreesAt(d, t', r', n) && c.Put? && d.collectionId == CollectionOf(c) {
      forall k ensures k in Keys(d, n, c.doc.fields) <==> k in Keys(d, n, RowFor(c.doc).fields) {
        assert IndexRow(d, k, n) in r' <==> HasKey(d, t', n, k);
      }
    }
  }

  // ... and on the others as it was.
  lemma RefreshElsewhere(d: Def, defs: seq<Def>, table: Table, rows: set<IndexRow>, c: Change, n: Str)
    requires Storable(c) && n != NameOf(c)
    ensures AgreesAt(d, Changed(table, c), Refreshed(rows, defs, NameOf(c), FieldsOf(c)), n) <==> AgreesAt(d, table, rows, n)
  {
    hide Keys, Refreshed, StoreFields;
    var t', r' := Changed(table, c), Refreshed(rows, defs, NameOf(c), FieldsOf(c));
    forall k ensures (IndexRow(d, k, n) in r' <==> IndexRow(d, k, n) in rows) && (HasKey(d, t', n, k) <==> HasKey(d, table, n, k)) {
      if defs == [] { RefreshedNone(rows, NameOf(c), FieldsOf(c)); }
      else { RefreshedHas(rows, defs, NameOf(c), FieldsOf(c), IndexRow(d, k, n)); }
    }
  }

  // A registered index that agreed still does exactly when the change keeps its keys.
  lemma RefreshAgrees(d: Def, defs: seq<Def>, table: Table, rows: set<IndexRow>, c: Change)
    requires IndexRows(d, table, EntriesOf(rows, d)) && SameCollection(table, c) && Storable(c)
    requires (d.collectionId == CollectionOf(c) ==> d in defs) && (forall i :: 0 <= i < |defs| ==> defs[i].collectionId == CollectionOf(c))
    ensures IndexRows(d, Changed(table, c), EntriesOf(Refreshed(rows, defs, NameOf(c), FieldsOf(c)), d)) <==> KeepsKeys(d, c)
  {
    hide Keys, Refreshed, IndexRows, EntriesOf, AgreesAt, KeepsKeys;
    AgreesEverywhere(d, table, rows);
    AgreesEverywhere(d, Changed(table, c), Refreshed(rows, defs, NameOf(c), FieldsOf(c)));
    RefreshAgreesAt(d, defs, table, rows, c);
    forall n | n != NameOf(c) ensures AgreesAt(d, Changed(table, c), Refreshed(rows, defs, NameOf(c), FieldsOf(c)), n) {
      RefreshElsewhere(d, defs, table, rows, c, n);
    }
  }

  lemma RefreshedNone(rows: set<IndexRow>, name: Str, fields: Option<Fields>)
    ensures Refreshed(rows, [], name, fields) == rows
  {}

  // An index of the collection that is not registered agrees afterwards exactly when
  // the stored document has no key in it.
  lemma UnregisteredDrifts(d: Def, defs: seq<Def>, table: Table, rows: set<IndexRow>, c: Change)
    requires IndexRows(d, table, EntriesOf(rows, d)) && SameCollection(table, c) && d.collectionId == CollectionOf(c)
    requires Storable(c) && d !in defs && defs != []
    ensures IndexRows(d, Changed(table, c), EntriesOf(Refreshed(rows, defs, NameOf(c), FieldsOf(c)), d)) <==>
      (c.Put? ==> Keys(d, c.doc.name, RowFor(c.doc).fields) == [])
  {
    hide Keys, Refreshed, StoreFields;
    var table', rows', n := Changed(table, c), Refreshed(rows, defs, NameOf(c), FieldsOf(c)), NameOf(c);
    forall e ensures e in EntriesOf(rows', d) <==> e.name != n && e in EntriesOf(rows, d) {
      EntryOf(rows, d, e);
      EntryOf(rows', d, e);
      RefreshedHas(rows, defs, n, FieldsOf(c), IndexRow(d, e.key, e.name));
    }
    if c.Put? && Keys(d, c.doc.name, RowFor(c.doc).fields) != [] {
      var e := Entry(Keys(d, c.doc.name, RowFor(c.doc).fields)[0], n);
      assert e !in EntriesOf(rows', d) && e.key in Keys(d, n, table'[n].fields);
    }
  }

  // A backfill agrees with the table at its rewrite exactly when every key its scan
  // saw is still there and no other one is.
  lemma BackfillExact(d: Def, scanned: Table, table: Table, rows: set<IndexRow>, added: set<IndexRow>)
    requires AreRowsOf(d, scanned, added)
    ensures IndexRows(d, table, EntriesOf(WithoutDef(rows, d) + added, d)) <==> SameKeys(d, scanned, table)
  {
    hide Keys;
    forall e ensures e in EntriesOf(WithoutDef(rows, d) + added, d) <==> HasKey(d, scanned, e.name, e.key) {
      EntryOf(WithoutDef(rows, d) + added, d, e);
    }
    if IndexRows(d, table, EntriesOf(WithoutDef(rows, d) + added, d)) {
      forall n, k ensures HasKey(d, scanned, n, k) <==> HasKey(d, table, n, k) {
        assert Entry(k, n) in EntriesOf(WithoutDef(rows, d) + added, d) <==> HasKey(d, scanned, n, k);
      }
    }
  }

  ghost predicate HasKey(d: Def, table: Table, n: Str, k: seq<byte>) {
    n in table && table[n].collectionId == d.collectionId && k in Keys(d, n, table[n].fields)
  }

  ghost predicate SameKeys(d: Def, a: Table, b: Table) {
    forall n, k :: HasKey(d, a, n, k) <==> HasKey(d, b, n, k)
  }

  // -------------------------------------------------------------- the store

  datatype Operation = Commits(changes: seq<Change>) | Backfills(def: Def)

  // A commit with a document that does not encode changes nothing.
  function Effective(op: Operation): seq<Change> {
    if op.Commits? && AllStorable(op.changes) then op.changes else []
  }

  function ChangesOf(ops: seq<Operation>): (cs: seq<Change>)
    ensures AllStorable(cs)
  {
    if ops == [] then [] else Effective(ops[0]) + ChangesOf(ops[1..])
  }

  function Backfilled(ops: seq<Operation>): set<Def> {
    if ops == [] then {} else (if ops[0].Backfills? then {ops[0].def} else {}) + Backfilled(ops[1..])
  }

  lemma FirstOperation(ops: seq<Operation>)
    requires ops != []
    ensures ChangesOf(ops) == Effective(ops[0]) + ChangesOf(ops[1..])
    ensures ops[0].Commits? ==> Backfilled(ops) == Backfilled(ops[1..])
    ensures ops[0].Backfills? ==> Backfilled(ops) == {ops[0].def} + Backfilled(ops[1..])
  {}

  lemma NoOperations(table: Table)
    ensures AllChanged(table, ChangesOf([])) == table && Backfilled([]) == {}
  {}

  lemma {:induction false} ChangedTwice(table: Table, a: seq<Change>, b: seq<Change>)
    requires AllStorable(a) && AllStorable(b)
    ensures AllChanged(table, a + b) == AllChanged(AllChanged(table, a), b)
    decreases |a|
  {
    if a == [] {
      assert a + b == b;
    } else {
      assert (a + b)[0] == a[0] && (a + b)[1..] == a[1..] + b;
      ChangedTwice(Changed(table, a[0]), a[1..], b);
    }
  }

  ghost predicate OncePerDocument(cs: seq<Change>) {
    forall i, j :: 0 <= i < j < |cs| ==> NameOf(cs[i]) != NameOf(cs[j])
  }

  // The first n changes keep the keys of this document.
  ghost predicate KeptAt(d: Def, cs: seq<Change>, n: nat, name: Str)
    requires n <= |cs|
  {
    forall i :: 0 <= i < n && NameOf(cs[i]) == name ==> KeepsKeys(d, cs[i])
  }

  ghost predicate AllKept(d: Def, cs: seq<Change>) { forall i :: 0 <= i < |cs| ==> KeepsKeys(d, cs[i]) }

  // One more change of a commit.
  lemma KeptNext(d: Def, defs: seq<Def>, table: Table, rows: set<IndexRow>, cs: seq<Change>, i: nat, name: Str)
    requires i < |cs| && OncePerDocument(cs) && Storable(cs[i]) && SameCollection(table, cs[i])
    requires (d.collectionId == CollectionOf(cs[i]) ==> d in defs)
             && (forall j :: 0 <= j < |defs| ==> defs[j].collectionId == CollectionOf(cs[i]))
    requires AgreesAt(d, table, rows, name) <==> KeptAt(d, cs, i, name)
    ensures AgreesAt(d, Changed(table, cs[i]), Refreshed(rows, defs, NameOf(cs[i]), FieldsOf(cs[i])), name) <==> KeptAt(d, cs, i + 1, name)
  {
    hide AgreesAt, KeepsKeys, Refreshed, SameCollection, Storable;
    if name == NameOf(cs[i]) {
      RefreshAgreesAt(d, defs, table, rows, cs[i]);
    } else {
      RefreshElsewhere(d, defs, table, rows, cs[i], name);
    }
  }

  class IndexStore {
    // The collection of a name, as ParseDocumentName gives it.
    const collection: Str -> Str
    var table: Table
    var rows: set<IndexRow>
    var byColl: map<Str, seq<Def>>
    var ready: set<Def>

    ghost predicate Registered(d: Def)
      reads this`byColl
    {
      d.collectionId in byColl && d in byColl[d.collectionId]
    }

    ghost predicate Agrees(d: Def)
      reads this`table, this`rows
    {
      IndexRows(d, table, EntriesOf(rows, d))
    }

    // Documents stand under their names, definitions under their collections.
    ghost predicate Valid()
      reads this
    {
      && ByName(collection, table)
      && (forall c :: c in byColl ==> forall i :: 0 <= i < |byColl[c]| ==> byColl[c][i].collectionId == c)
    }

    // The indexes that serve queries are those both registered and ready.
    ghost predicate AllAgree()
      reads this
    {
      forall d :: d in ready && Registered(d) ==> Agrees(d)
    }

    constructor (collection: Str -> Str)
      ensures Valid() && table == map[] && ready == {} && this.collection == collection
    {
      this.collection := collection;
      table, rows, byColl, ready := map[], {}, map[], {};
    }

    function ForCollection(c: Str): seq<Def>
      reads this`byColl
    {
      if c in byColl then byColl[c] else []
    }

    method InsertKeys(d: Def, name: Str, keys: seq<seq<byte>>)
      modifies this`rows
      ensures rows == old(rows) + set j | 0 <= j < |keys| :: IndexRow(d, keys[j], name)
    {
      for j := 0 to |keys|
        invariant rows == old(rows) + set k | 0 <= k < j :: IndexRow(d, keys[k], name)
      {
        rows := rows + {IndexRow(d, keys[j], name)};
      }
    }

    // refreshIndexEntries.
    method Refresh(name: Str, collectionId: Str, fields: Option<Fields>)
      modifies this`rows
      ensures rows == Refreshed(old(rows), ForCollection(collectionId), name, fields)
    {
      hide Keys;
      var defs := ForCollection(collectionId);
      if |defs| == 0 { return; }
      rows := WithoutDoc(rows, name);
      if fields.None? { return; }
      ghost var kept := rows;
      assert RowsOf(defs[..0], name, fields.value) == {};
      for i := 0 to |defs|
        invariant rows == kept + RowsOf(defs[..i], name, fields.value)
      {
        var keys := BuildKeys(defs[i], name, fields.value);
        RowsSnoc(defs, i, name, fields.value);
        InsertKeys(defs[i], name, keys);
      }
      assert defs[..|defs|] == defs;
    }

    // A commit's share: its documents and their index rows, in one transaction. The
    // row is encoded from the fields, the keys are built from them as sent. An index
    // that agreed still does exactly when every change keeps its keys.
    method Commit(cs: seq<Change>) returns (ok: bool)
      requires Valid() && OncePerDocument(cs) && forall i :: 0 <= i < |cs| ==> CollectionOf(cs[i]) == collection(NameOf(cs[i]))
      modifies this`table, this`rows
      ensures Valid() && ok == AllStorable(cs)
      ensures !ok ==> table == old(table) && rows == old(rows)
      ensures ok ==> table == AllChanged(old(table), cs)
      ensures ok ==> forall d :: Registered(d) && old(Agrees(d)) ==> (Agrees(d) <==> AllKept(d, cs))
    {
      hide KeptAt, AgreesAt, IndexRows, EntriesOf, KeepsKeys, Storable, ByName;
      var table0, rows0 := table, rows;
      forall d, n | Registered(d) && old(Agrees(d)) ensures AgreesAt(d, table, rows, n) <==> KeptAt(d, cs, 0, n) {
        AgreesEverywhere(d, table, rows);
        NoneKept(d, cs, n);
      }
      for i := 0 to |cs|
        invariant Valid() && byColl == old(byColl) && ready == old(ready) && AllStorable(cs[..i])
        invariant AllStorable(cs) ==> AllChanged(old(table), cs) == AllChanged(table, cs[i..])
        invariant forall d, n :: Registered(d) && old(Agrees(d)) ==> (AgreesAt(d, table, rows, n) <==> KeptAt(d, cs, i, n))
      {
        assert cs[i..][0] == cs[i] && cs[i..][1..] == cs[i + 1..] && cs[..i + 1] == cs[..i] + [cs[i]];
        ghost var t0, r0 := table, rows;
        var stored := ApplyChange(cs[i]);
        if !stored {
          table, rows := table0, rows0;
          return false;
        }
        forall d, n | Registered(d) && old(Agrees(d)) ensures AgreesAt(d, table, rows, n) <==> KeptAt(d, cs, i + 1, n) {
          KeptNext(d, ForCollection(CollectionOf(cs[i])), t0, r0, cs, i, n);
        }
      }
      assert cs[..|cs|] == cs;
      forall d | Registered(d) && old(Agrees(d)) ensures Agrees(d) <==> AllKept(d, cs) {
        AgreesEverywhere(d, table, rows);
        KeptEverywhere(d, cs);
      }
      return true;
    }

    // One document: its row, or its removal, and its keys. False when it does not
    // encode.
    method ApplyChange(c: Change) returns (ok: bool)
      requires Valid() && CollectionOf(c) == collection(NameOf(c))
      modifies this`table, this`rows
      ensures Valid() && ok == Storable(c) && SameCollection(old(table), c)
      ensures !ok ==> table == old(table) && rows == old(rows)
      ensures ok ==> table == Changed(old(table), c)
      ensures ok ==> rows == Refreshed(old(rows), ForCollection(CollectionOf(c)), NameOf(c), FieldsOf(c))
    {
      hide Keys, IndexRows, Refreshed, StoreFields;
      if c.Put? && StoreFields(c.doc.fields).None? { return false; }
      table := Changed(table, c);
      Refresh(NameOf(c), CollectionOf(c), FieldsOf(c));
      return true;
    }

    // BackfillIndex: the rows of every document of the collection, in place of the
    // index's old ones; then it is ready. The other indexes are left as they were.
    method Backfill(d: Def)
      requires Valid()
      modifies this`rows, this`ready
      ensures Valid() && ready == old(ready) + {d} && Agrees(d)
      ensures forall x :: x != d ==> (Agrees(x) <==> old(Agrees(x)))
    {
      hide Keys, SortedKeys;
      var names := SortedKeys(set n | n in table && table[n].collectionId == d.collectionId);
      assert forall n :: n in names <==> n in table && table[n].collectionId == d.collectionId;
      var batch: set<IndexRow> := {};
      for i := 0 to |names|
        invariant rows == old(rows) && ready == old(ready)
        invariant forall r :: r in batch <==>
          r.def == d && r.name in names[..i] && r.name in table && r.key in Keys(d, r.name, table[r.name].fields)
      {
        var n := names[i];
        assert n in names;
        var keys := BuildKeys(d, n, table[n].fields);
        assert names[..i + 1] == names[..i] + [n];
        batch := batch + set j | 0 <= j < |keys| :: IndexRow(d, keys[j], n);
      }
      assert names[..|names|] == names;
      assert AreRowsOf(d, table, batch);
      BackfillExact(d, table, table, rows, batch);
      rows := WithoutDef(rows, d) + batch;
      ready := ready + {d};
      forall x | x != d ensures Agrees(x) <==> old(Agrees(x)) {
        OtherDef(old(rows), d, batch, x);
      }
    }

    // Any run of commits and backfills: while every change keeps the keys of the
    // registered indexes, every ready index agrees with the documents throughout.
    method RunAll(ops: seq<Operation>)
      requires Valid() && AllAgree() && forall i :: 0 <= i < |ops| ==> Allowed(ops[i])
      modifies this
      ensures Valid() && byColl == old(byColl)
      ensures table == AllChanged(old(table), ChangesOf(ops)) && ready == old(ready) + Backfilled(ops)
      ensures (forall i :: 0 <= i < |ops| ==> old(Keeping(ops[i]))) ==> AllAgree()
    {
      hide AllChanged, ChangesOf, Backfilled, AllKept, Agrees, ByName, AllStorable, OncePerDocument;
      for i := 0 to |ops|
        invariant Valid() && byColl == old(byColl)
        invariant AllChanged(old(table), ChangesOf(ops)) == AllChanged(table, ChangesOf(ops[i..]))
        invariant ready + Backfilled(ops[i..]) == old(ready) + Backfilled(ops)
        invariant (forall j :: 0 <= j < |ops| ==> old(Keeping(ops[j]))) ==> AllAgree()
      {
        FirstOperation(ops[i..]);
        assert ops[i..][0] == ops[i] && ops[i..][1..] == ops[i + 1..];
        EffectiveChanges(table, ops[i], ChangesOf(ops[i + 1..]));
        if ops[i].Commits? {
          var ok := Commit(ops[i].changes);
        } else {
          Backfill(ops[i].def);
        }
      }
      NoOperations(table);
      assert ops[|ops|..] == [];
    }

    ghost predicate Allowed(op: Operation)
      reads this`byColl
    {
      match op
      case Commits(cs) => OncePerDocument(cs) && forall i :: 0 <= i < |cs| ==> CollectionOf(cs[i]) == collection(NameOf(cs[i]))
      case Backfills(_) => true
    }

    ghost predicate Keeping(op: Operation)
      reads this`byColl
    {
      op.Commits? ==> forall d :: Registered(d) ==> AllKept(d, op.changes)
    }

    // SetIndexes: the registry replaced, with readiness as the database has it; false
    // for a definition without fields. No index row changes.
    method SetIndexes(defs: seq<Def>, stored: set<Def>) returns (ok: bool)
      requires Valid()
      modifies this`byColl, this`ready
      ensures Valid() && ok == forall d :: d in defs ==> d.fields != []
      ensures ok ==> ready == stored && forall d :: d in defs <==> Registered(d)
      ensures !ok ==> ready == old(ready) && byColl == old(byColl)
      ensures ok ==> (AllAgree() <==> forall d :: d in stored && d in defs ==> Agrees(d))
    {
      hide IndexRows, EntriesOf, ByName;
      var next: map<Str, seq<Def>> := map[];
      for i := 0 to |defs|
        invariant forall c :: c in next ==> forall j :: 0 <= j < |next[c]| ==> next[c][j].collectionId == c
        invariant forall d :: d in defs[..i] <==> d.collectionId in next && d in next[d.collectionId]
        invariant forall d :: d in defs[..i] ==> d.fields != []
      {
        var d := defs[i];
        assert defs[..i + 1] == defs[..i] + [d] && d in defs;
        if |d.fields| == 0 { return false; }
        var c := d.collectionId;
        next := next[c := (if c in next then next[c] else []) + [d]];
      }
      assert defs[..|defs|] == defs;
      byColl := next;
      ready := stored;
      return true;
    }
  }

  lemma NoneKept(d: Def, cs: seq<Change>, n: Str)
    ensures KeptAt(d, cs, 0, n)
  {}

  lemma KeptEverywhere(d: Def, cs: seq<Change>)
    ensures (forall n :: KeptAt(d, cs, |cs|, n)) <==> AllKept(d, cs)
  {
    hide KeepsKeys;
    if forall n :: KeptAt(d, cs, |cs|, n) {
      forall i | 0 <= i < |cs| ensures KeepsKeys(d, cs[i]) { assert KeptAt(d, cs, |cs|, NameOf(cs[i])); }
    }
  }

  lemma EffectiveChanges(table: Table, op: Operation, rest: seq<Change>)
    requires AllStorable(rest)
    ensures AllChanged(table, Effective(op) + rest) ==
      AllChanged(if op.Commits? && AllStorable(op.changes) then AllChanged(table, op.changes) else table, rest)
  {
    if op.Commits? && AllStorable(op.changes) {
      ChangedTwice(table, op.changes, rest);
    } else {
      assert Effective(op) + rest == rest;
    }
  }

  lemma RowsSnoc(defs: seq<Def>, i: nat, name: Str, fields: Fields)
    requires i < |defs|
    ensures RowsOf(defs[..i + 1], name, fields) == RowsOf(defs[..i], name, fields)
      + set j | 0 <= j < |Keys(defs[i], name, fields)| :: IndexRow(defs[i], Keys(defs[i], name, fields)[j], name)
  {
    hide Keys, RowsOf;
    assert defs[..i + 1] == defs[..i] + [defs[i]];
    forall r ensures r in RowsOf(defs[..i + 1], name, fields) <==>
      r in RowsOf(defs[..i], name, fields) || (r.def == defs[i] && r.name == name && r.key in Keys(defs[i], name, fields))
    {
      RowsHave(defs[..i + 1], name, fields, r);
      RowsHave(defs[..i], name, fields, r);
    }
  }

  lemma OtherDef(rows: set<IndexRow>, d: Def, added: set<IndexRow>, x: Def)
    requires x != d && forall r :: r in added ==> r.def == d
    ensures EntriesOf(WithoutDef(rows, d) + added, x) == EntriesOf(rows, x)
  {
    forall e ensures e in EntriesOf(WithoutDef(rows, d) + added, x) <==> e in EntriesOf(rows, x) {
      EntryOf(WithoutDef(rows, d) + added, x, e);
      EntryOf(rows, x, e);
    }
  }
}
