// RunQuery (internal/store/query.go): an index when one serves the query, else a
// name-ordered scan, else the general path. Whichever is taken, the answer is the
// general one.
module Engine {
  import opened Bytes
  import opened Values
  import opened FieldPaths
  import opened Queries
  import opened Indexes
  import opened Plans
  import opened Spans
  import opened Planning
  import opened Merge
  import opened General
  import opened NamePath
  import opened Encoding
  import opened Containment
  import opened Refinement

  // What the database answers to the three kinds of SQL: a range of one index, the
  // narrowed rows in any order, and in name order.
  datatype Database = Database(range: (Def, Span, bool) -> seq<Entry>, rows: seq<Doc>, byName: seq<Doc>)

  predicate InWhere(f: Formats, q: Query, table: Table, d: Doc) {
    d.name in table && table[d.name] == d && InBase(q, d) && SqlNarrowed(f, q, d)
  }

  // The answers are those of this table and these index rows.
  ghost predicate Answers(f: Formats, q: Query, table: Table, entries: map<Def, set<Entry>>, db: Database) {
    && (forall d, span, reversed :: d in entries ==> IsScan(entries[d], span, reversed, db.range(d, span, reversed)))
    && (forall i, j :: 0 <= i < j < |db.rows| ==> db.rows[i] != db.rows[j])
    && (forall d :: d in db.rows <==> InWhere(f, q, table, d))
    && (NameOnly(q) ==> InByteOrder(q.order[0].desc, db.byName)
                        && forall d :: d in db.byName <==> InWhere(f, q, table, d) && SqlCursors(q, d.name))
  }

  // Every ready index holds the keys of the documents.
  ghost predicate IndexesAgree(table: Table, ready: set<Def>, entries: map<Def, set<Entry>>) {
    forall d :: d in ready ==> d in entries && IndexRows(d, table, entries[d])
  }

  // What the query asks of the indexes that would serve it; when none does, of
  // narrowing and of the name scan.
  ghost predicate Sound(f: Formats, q: Query, defs: seq<Def>, ready: set<Def>, table: Table) {
    && HasName(q.order) && q.offset >= 0
    && (forall d :: d in defs && Candidate(d, q, ready) && PlanOf(d, q).Some? ==>
          Servable(d, q) && SoundPaging(q) && UnderParent(q, table))
    && (NonePlans(defs, q, ready) ==> NarrowingServed(f, q) && (NameOnly(q) ==> NameServable(q, table)))
  }

  method FetchScans(plan: Plan, db: Database) returns (scans: seq<seq<Entry>>)
    ensures |scans| == |plan.ranges|
    ensures forall i :: 0 <= i < |scans| ==> scans[i] == db.range(plan.def, plan.ranges[i].span, plan.reversed)
  {
    scans := [];
    for i := 0 to |plan.ranges|
      invariant |scans| == i
      invariant forall j :: 0 <= j < i ==> scans[j] == db.range(plan.def, plan.ranges[j].span, plan.reversed)
    {
      scans := scans + [db.range(plan.def, plan.ranges[i].span, plan.reversed)];
    }
  }

  method RunQuery(f: Formats, q: Query, defs: seq<Def>, ready: set<Def>, table: Table, db: Database,
                  ghost entries: map<Def, set<Entry>>)
    returns (r: Outcome)
    requires SoundTable(table) && Encoded(f, table) && IndexesAgree(table, ready, entries)
    requires Sound(f, q, defs, ready, table) && Answers(f, q, table, entries, db)
    ensures r == Ok(Result(q, table))
  {
    hide PlanOf, Servable, SoundPaging, UnderParent, IndexRows, IsScan, NameServable, InBase, SqlNarrowed,
         SqlCursors, NarrowingServed, Result, SoundTable, Encoded;
    var plan := For(q, defs, ready);
    if plan.Some? {
      var scans := FetchScans(plan.value, db);
      ghost var x := MakeRun(q, plan.value, table, entries[plan.value.def], scans);
      r := RunIndexed(q, plan.value, scans, table, x);
      return;
    }
    if NameOnly(q) {
      var rows := SqlLimit(q, db.byName);
      NarrowedScan(f, q, table, db.byName);
      var out := RunNameOrdered(q, rows, db.byName, table);
      return Ok(out);
    }
    NarrowedCandidates(f, q, table, db.rows);
    var page := RunGeneral(q, db.rows, table);
    return Ok(page.value);
  }

  lemma MakeRun(q: Query, plan: Plan, table: Table, entries: set<Entry>, scans: seq<seq<Entry>>) returns (x: Run)
    requires PlanOf(plan.def, q) == Some(plan) && plan.def.collectionId == q.collectionId
    requires Servable(plan.def, q) && SoundTable(table) && UnderParent(q, table)
    requires IndexRows(plan.def, table, entries) && |scans| == |plan.ranges|
    requires forall i :: 0 <= i < |scans| ==> IsScan(entries, plan.ranges[i].span, plan.reversed, scans[i])
    ensures IsRun(x) && x.q == q && x.plan == plan && x.scans == scans && x.table == table
  {
    hide PlanOf, Servable, UnderParent, IndexRows, IsScan, SoundTable, SplitFilters;
    var choices := PlanIs(plan.def, q);
    x := Run(plan.def, q, SplitFilters(q).value, choices, plan, table, entries, scans);
  }
}
