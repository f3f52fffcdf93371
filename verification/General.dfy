// The reference execution (runGeneral in internal/store/query.go): filter, sort,
// page. Every faster path must return this list.
module General {
  import opened Bytes
  import opened Values
  import opened SortKeys
  import opened FieldPaths
  import opened Queries
  import opened Indexes
  import opened Plans
  import opened Spans
  import opened Layouts
  import opened Merge

  // The documents table, by primary key.
  type Table = map<Str, Doc>

  ghost predicate SoundTable(table: Table) {
    forall n :: n in table ==> table[n].name == n && SoundFields(table[n].fields)
  }

  // baseConditions: one collection, or every collection of that id below the
  // parent, as a range of names.
  predicate InBase(q: Query, d: Doc) {
    if q.allDescendants then
      d.collectionId == q.collectionId && !Less(d.name, q.parent + [SLASH]) && Less(d.name, q.parent + [0x30])
    else d.parentPath == q.parent && d.collectionId == q.collectionId
  }

  // The name range of a collection group is exactly the names below the parent.
  lemma GroupRange(q: Query, d: Doc)
    requires q.allDescendants
    ensures InBase(q, d) <==> d.collectionId == q.collectionId && q.parent + [SLASH] <= d.name
  {
    var p := q.parent + [SLASH];
    PrefixEndAt(p, |q.parent|);
    assert p[..|q.parent|] == q.parent;
    assert PrefixEnd(p) == Some(q.parent + [0x30]);
    PrefixSpan(d.name, p);
    CompareSwap(p, d.name);
  }

  function KeyOf(q: Query, d: Doc): (key: seq<Value>)
    ensures |key| == |q.order|
  {
    OrderKey(q.order, d.name, d.fields)
  }

  predicate Passes(q: Query, d: Doc) {
    Matches(q, d.name, d.fields) && InCursorRange(q, KeyOf(q, d))
  }

  function Selection(q: Query, table: Table): set<Doc> {
    set n | n in table && InBase(q, table[n]) && Passes(q, table[n]) :: table[n]
  }

  // --------------------------------------------------------- the order of documents

  function CompareDocs(q: Query, a: Doc, b: Doc): int {
    CompareKeys(q.order, KeyOf(q, a), KeyOf(q, b))
  }

  ghost predicate InQueryOrder(q: Query, s: seq<Doc>) {
    forall i, j :: 0 <= i < j < |s| ==> CompareDocs(q, s[i], s[j]) < 0
  }

  // A tuple's terms, encoded one after the other in the query's directions.
  function TupleComps(order: seq<OrderSpec>, key: seq<Value>): (r: seq<seq<byte>>)
    requires |key| == |order|
    ensures |r| == |order| && forall i :: 0 <= i < |order| ==> r[i] == DirKey(key[i], order[i].desc)
  {
    seq(|order|, i requires 0 <= i < |order| => DirKey(key[i], order[i].desc))
  }

  lemma TupleCoded(order: seq<OrderSpec>, a: seq<Value>, b: seq<Value>)
    requires |a| == |b| == |order|
    requires forall i :: 0 <= i < |order| ==> WellFormed(a[i]) && WellFormed(b[i])
    ensures CompareBytes(Concat(TupleComps(order, a)), Concat(TupleComps(order, b))) == CompareKeys(order, a, b)
  {
    var ca, cb, n := TupleComps(order, a), TupleComps(order, b), |order|;
    forall i | 0 <= i < n ensures Coded(ca[i], cb[i], Flip(false, DirCompare(order[i].desc, a[i], b[i]))) {
      DirKeyCoded(a[i], b[i], order[i].desc);
    }
    TermsCoded(order, a, b, ca, cb, false, n);
    assert ca[..n] == ca && cb[..n] == cb;
    CodedCompare(Concat(ca), Concat(cb), CompareKeys(order, a, b));
  }

  lemma KeyWellFormed(q: Query, d: Doc)
    requires SoundFields(d.fields)
    ensures forall i :: 0 <= i < |q.order| ==> WellFormed(KeyOf(q, d)[i])
  {}

  // The query's order is a total preorder on documents.
  lemma DocOrder(q: Query, a: Doc, b: Doc, c: Doc)
    requires SoundFields(a.fields) && SoundFields(b.fields) && SoundFields(c.fields)
    ensures CompareDocs(q, b, a) == -CompareDocs(q, a, b)
    ensures CompareDocs(q, a, b) < 0 && CompareDocs(q, b, c) < 0 ==> CompareDocs(q, a, c) < 0
  {
    hide WellFormed, CompareTerms;
    var ka, kb, kc := KeyOf(q, a), KeyOf(q, b), KeyOf(q, c);
    KeyWellFormed(q, a);
    KeyWellFormed(q, b);
    KeyWellFormed(q, c);
    TupleCoded(q.order, ka, kb);
    TupleCoded(q.order, kb, ka);
    TupleCoded(q.order, kb, kc);
    TupleCoded(q.order, ka, kc);
    var x, y, z := Concat(TupleComps(q.order, ka)), Concat(TupleComps(q.order, kb)), Concat(TupleComps(q.order, kc));
    CompareSwap(x, y);
    if CompareBytes(x, y) < 0 && CompareBytes(y, z) < 0 { CompareTrans(x, y, z); }
  }

  // With the name among its terms it never ties two documents.
  lemma NoTies(q: Query, a: Doc, b: Doc)
    requires HasName(q.order) && CompareDocs(q, a, b) == 0
    ensures a.name == b.name
  {
    var i :| 0 <= i < |q.order| && q.order[i].isName;
    TermTies(q.order, KeyOf(q, a), KeyOf(q, b), |q.order|, i);
    NamesEqual(a.name, b.name);
  }

  lemma {:induction false} TermTies(order: seq<OrderSpec>, a: seq<Value>, b: seq<Value>, n: nat, i: nat)
    requires i < n <= |order| && n <= |a| && n <= |b| && CompareTerms(order, a, b, n) == 0
    ensures Compare(a[i], b[i]) == 0
    decreases n
  {
    if i < n - 1 { TermTies(order, a, b, n - 1, i); }
  }

  // ------------------------------------------------------------------ the answer

  ghost predicate SoundDocs(docs: set<Doc>) {
    && (forall d :: d in docs ==> SoundFields(d.fields))
    && forall a, b :: a in docs && b in docs && a.name == b.name ==> a == b
  }

  lemma SelectionSound(q: Query, table: Table)
    requires SoundTable(table)
    ensures SoundDocs(Selection(q, table))
    ensures forall d :: d in Selection(q, table) <==> d.name in table && table[d.name] == d && InBase(q, d) && Passes(q, d)
  {}

  // d, placed after everything it does not precede.
  function Insert(q: Query, s: seq<Doc>, d: Doc): seq<Doc> {
    if s == [] || CompareDocs(q, d, s[|s| - 1]) >= 0 then s + [d]
    else Insert(q, s[..|s| - 1], d) + [s[|s| - 1]]
  }

  // A finite set of documents in query order.
  ghost function Answer(q: Query, docs: set<Doc>): seq<Doc> {
    if docs == {} then [] else var d :| d in docs; Insert(q, Answer(q, docs - {d}), d)
  }

  ghost predicate Enumerates(q: Query, s: seq<Doc>, docs: set<Doc>) {
    InQueryOrder(q, s) && forall d :: d in s <==> d in docs
  }

  lemma {:induction false} InsertIs(q: Query, s: seq<Doc>, d: Doc, docs: set<Doc>)
    requires HasName(q.order) && SoundDocs(docs + {d}) && d !in docs && Enumerates(q, s, docs)
    ensures Enumerates(q, Insert(q, s, d), docs + {d})
    decreases |s|
  {
    hide CompareDocs, SoundFields, HasName;
    if s != [] {
      var last, init := s[|s| - 1], s[..|s| - 1];
      assert last in s;
      if CompareDocs(q, d, last) >= 0 {
        InsertLast(q, s, d, docs);
      } else {
        LastOut(q, s, docs);
        assert docs - {last} + {d} + {last} == docs + {d};
        InsertIs(q, init, d, docs - {last});
        LastIn(q, Insert(q, init, d), last, docs - {last} + {d});
      }
    }
  }

  lemma InsertLast(q: Query, s: seq<Doc>, d: Doc, docs: set<Doc>)
    requires HasName(q.order) && SoundDocs(docs + {d}) && d !in docs && Enumerates(q, s, docs)
    requires s != [] && CompareDocs(q, d, s[|s| - 1]) >= 0
    ensures Enumerates(q, s + [d], docs + {d})
  {
    hide CompareDocs, HasName;
    var last := s[|s| - 1];
    assert last in s;
    NotTied(q, d, last, docs + {d});
    DocOrder(q, d, last, last);
    forall x | x in docs ensures CompareDocs(q, x, d) < 0 {
      var i :| 0 <= i < |s| && s[i] == x;
      DocOrder(q, x, last, d);
    }
    LastIn(q, s, d, docs);
  }

  lemma NotTied(q: Query, a: Doc, b: Doc, docs: set<Doc>)
    requires HasName(q.order) && SoundDocs(docs) && a in docs && b in docs && a != b
    ensures CompareDocs(q, a, b) != 0
  {
    hide CompareDocs;
    if CompareDocs(q, a, b) == 0 { NoTies(q, a, b); }
  }

  // Removing and appending the last document of an enumeration.
  lemma LastOut(q: Query, s: seq<Doc>, docs: set<Doc>)
    requires s != [] && Enumerates(q, s, docs) && SoundDocs(docs)
    ensures var last := s[|s| - 1];
      && last in docs && Enumerates(q, s[..|s| - 1], docs - {last})
      && forall d :: d in docs && d != last ==> CompareDocs(q, d, last) < 0
  {
    hide CompareDocs, SoundFields;
    var last := s[|s| - 1];
    assert last in s;
    DocOrder(q, last, last, last);
    InitOrdered(q, s);
    InitMembers(q, s);
  }

  lemma InitOrdered(q: Query, s: seq<Doc>)
    requires s != [] && InQueryOrder(q, s)
    ensures InQueryOrder(q, s[..|s| - 1])
  {
    hide CompareDocs;
  }

  lemma InitMembers(q: Query, s: seq<Doc>)
    requires s != [] && InQueryOrder(q, s) && CompareDocs(q, s[|s| - 1], s[|s| - 1]) == 0
    ensures forall d :: d in s[..|s| - 1] <==> d in s && d != s[|s| - 1]
    ensures forall d :: d in s && d != s[|s| - 1] ==> CompareDocs(q, d, s[|s| - 1]) < 0
  {
    hide CompareDocs;
    var n := |s| - 1;
    forall d | d in s && d != s[n] ensures d in s[..n] && CompareDocs(q, d, s[n]) < 0 {
      var i :| 0 <= i < |s| && s[i] == d;
      assert s[..n][i] == d;
    }
    forall d | d in s[..n] ensures d != s[n] {
      var i :| 0 <= i < n && s[..n][i] == d;
      assert CompareDocs(q, s[i], s[n]) < 0;
    }
  }

  lemma LastIn(q: Query, s: seq<Doc>, last: Doc, docs: set<Doc>)
    requires Enumerates(q, s, docs) && forall d :: d in docs ==> CompareDocs(q, d, last) < 0
    ensures Enumerates(q, s + [last], docs + {last})
  {
    hide CompareDocs;
    forall i | 0 <= i < |s| ensures CompareDocs(q, s[i], last) < 0 { assert s[i] in s; }
  }

  lemma {:induction false} AnswerIs(q: Query, docs: set<Doc>)
    requires HasName(q.order) && SoundDocs(docs)
    ensures Enumerates(q, Answer(q, docs), docs)
    decreases docs
  {
    hide CompareDocs, SoundFields, HasName, Insert, InQueryOrder;
    if docs == {} {
      NothingOrdered(q);
    } else {
      var d :| d in docs && Answer(q, docs) == Insert(q, Answer(q, docs - {d}), d);
      AnswerIs(q, docs - {d});
      InsertIs(q, Answer(q, docs - {d}), d, docs - {d});
      assert docs - {d} + {d} == docs;
    }
  }

  lemma NothingOrdered(q: Query)
    ensures InQueryOrder(q, [])
  {}

  lemma HeadIn(s: seq<Doc>)
    ensures s == [] || s[0] in s
  {}

  // Only one list enumerates a set of documents in query order.
  lemma {:induction false} AnswerUnique(q: Query, s: seq<Doc>, t: seq<Doc>, docs: set<Doc>)
    requires HasName(q.order) && SoundDocs(docs) && Enumerates(q, s, docs) && Enumerates(q, t, docs)
    ensures s == t
    decreases |s|
  {
    hide InQueryOrder, SoundFields, HasName;
    HeadIn(t);
    if s != [] {
      HeadIn(s);
      SameLast(q, s, t, docs);
      LastOut(q, s, docs);
      LastOut(q, t, docs);
      AnswerUnique(q, s[..|s| - 1], t[..|t| - 1], docs - {s[|s| - 1]});
      assert s == s[..|s| - 1] + [s[|s| - 1]] && t == t[..|t| - 1] + [t[|t| - 1]];
    }
  }

  lemma SameLast(q: Query, s: seq<Doc>, t: seq<Doc>, docs: set<Doc>)
    requires SoundDocs(docs) && Enumerates(q, s, docs) && Enumerates(q, t, docs) && s != []
    ensures t != [] && s[|s| - 1] == t[|t| - 1]
  {
    hide CompareDocs, InQueryOrder, SoundFields;
    HeadIn(s);
    HeadIn(t);
    LastOut(q, s, docs);
    LastOut(q, t, docs);
    DocOrder(q, s[|s| - 1], t[|t| - 1], s[|s| - 1]);
  }

  // The page a query is answered with.
  ghost function Result(q: Query, table: Table): seq<Doc>
    requires q.offset >= 0
  {
    Page(Answer(q, Selection(q, table)), q.offset, q.limit)
  }

  // --------------------------------------------------------------- runGeneral

  // A scan of the table returns every row of the base once, in any order; SQL
  // narrowing may leave rows out that do not pass.
  ghost predicate Candidates(q: Query, table: Table, rows: seq<Doc>) {
    && (forall i, j :: 0 <= i < j < |rows| ==> rows[i] != rows[j])
    && (forall d :: d in rows ==> d.name in table && table[d.name] == d && InBase(q, d))
    && (forall d :: d in Selection(q, table) ==> d in rows)
  }

  function DocSet(s: seq<Doc>): set<Doc> { set d | d in s }

  // sort.SliceStable, as insertion: equal keys keep their order.
  method SortStable(q: Query, entries: seq<Doc>) returns (s: seq<Doc>)
    requires HasName(q.order) && SoundDocs(DocSet(entries))
    requires forall i, j :: 0 <= i < j < |entries| ==> entries[i] != entries[j]
    ensures Enumerates(q, s, DocSet(entries))
  {
    s := [];
    for i := 0 to |entries|
      invariant Enumerates(q, s, DocSet(entries[..i]))
    {
      ghost var done := DocSet(entries[..i]);
      assert entries[i] !in done;
      assert DocSet(entries[..i + 1]) == done + {entries[i]};
      InsertIs(q, s, entries[i], done);
      s := InsertLoop(q, s, entries[i]);
    }
    assert entries[..|entries|] == entries;
  }

  method InsertLoop(q: Query, s: seq<Doc>, d: Doc) returns (r: seq<Doc>)
    ensures r == Insert(q, s, d)
  {
    hide CompareDocs;
    var i := |s|;
    ghost var tail: seq<Doc> := [];
    assert s[..i] == s && Insert(q, s, d) + [] == Insert(q, s, d);
    while i > 0 && CompareDocs(q, d, s[i - 1]) < 0
      invariant 0 <= i <= |s| && tail == s[i..]
      invariant Insert(q, s, d) == Insert(q, s[..i], d) + tail
    {
      assert s[..i][..i - 1] == s[..i - 1] && s[i - 1..] == [s[i - 1]] + s[i..];
      assert (Insert(q, s[..i - 1], d) + [s[i - 1]]) + tail == Insert(q, s[..i - 1], d) + ([s[i - 1]] + tail);
      i := i - 1;
      tail := s[i..];
    }
    r := s[..i] + [d] + s[i..];
  }

  method FilterRows(q: Query, rows: seq<Doc>) returns (entries: seq<Doc>)
    requires forall i, j :: 0 <= i < j < |rows| ==> rows[i] != rows[j]
    ensures forall d :: d in entries <==> d in rows && Passes(q, d)
    ensures forall i, j :: 0 <= i < j < |entries| ==> entries[i] != entries[j]
  {
    hide Passes;
    entries := [];
    for i := 0 to |rows|
      invariant forall d :: d in entries <==> d in rows[..i] && Passes(q, d)
      invariant forall j, k :: 0 <= j < k < |entries| ==> entries[j] != entries[k]
    {
      var d := rows[i];
      assert rows[..i + 1] == rows[..i] + [d] && d !in rows[..i];
      if !Passes(q, d) { continue; }
      entries := entries + [d];
    }
    assert rows[..|rows|] == rows;
  }

  // A Go slice expression: None is the run-time panic.
  function Slice<T>(s: seq<T>, low: int, high: int): Option<seq<T>> {
    if 0 <= low <= high <= |s| then Some(s[low..high]) else None
  }

  // runGeneral. The slice expression entries[start:end] panics on every negative
  // offset and on no other query.
  method RunGeneral(q: Query, rows: seq<Doc>, ghost table: Table) returns (r: Option<seq<Doc>>)
    requires HasName(q.order) && SoundTable(table) && Candidates(q, table, rows)
    ensures r == if q.offset < 0 then None else Some(Result(q, table))
  {
    hide Passes, InBase, CompareDocs, SoundFields;
    SelectionSound(q, table);
    ghost var docs := Selection(q, table);
    var entries := FilterRows(q, rows);
    assert DocSet(entries) == docs;
    entries := SortStable(q, entries);
    AnswerIs(q, docs);
    AnswerUnique(q, entries, Answer(q, docs), docs);
    var start := q.offset;
    if start > |entries| { start := |entries|; }
    var end := |entries|;
    if q.limit >= 0 && start + q.limit < end { end := start + q.limit; }
    r := Slice(entries, start, end);
    if q.offset >= 0 { assert r.value == Page(Answer(q, docs), q.offset, q.limit); }
  }
}
