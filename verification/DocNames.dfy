// Document names (ParseDocumentName in internal/store/store.go) and the collections
// they belong to.
module DocNames {
  import opened Bytes
  import opened Values
  import opened FieldPaths

  predicate NoSlash(s: Str) { forall i :: 0 <= i < |s| ==> s[i] != SLASH }

  datatype DocPath = DocPath(parent: Str, collectionId: Str, docId: Str)

  const PROJECTS: Str := [0x70, 0x72, 0x6F, 0x6A, 0x65, 0x63, 0x74, 0x73]
  const DATABASES: Str := [0x64, 0x61, 0x74, 0x61, 0x62, 0x61, 0x73, 0x65, 0x73]
  const DOCUMENTS: Str := [0x64, 0x6F, 0x63, 0x75, 0x6D, 0x65, 0x6E, 0x74, 0x73]

  // ParseDocumentName; None is InvalidArgument.
  function ParseName(name: Str): Option<DocPath> {
    var segs := Segments(name);
    var n := |segs|;
    if n < 7 || segs[0] != PROJECTS || segs[2] != DATABASES || segs[4] != DOCUMENTS then None
    else if (n - 5) % 2 != 0 || exists i :: 5 <= i < n && segs[i] == [] then None
    else Some(DocPath(Join(segs[..n - 2]), segs[n - 2], segs[n - 1]))
  }

  lemma {:induction false} SegmentsBare(s: Str, i: nat)
    requires i < |Segments(s)|
    ensures NoSlash(Segments(s)[i])
    decreases |s|
  {
    var k := FirstSlash(s);
    if k < |s| && i > 0 { SegmentsBare(s[k + 1..], i - 1); }
  }

  lemma {:induction false} JoinLast(segs: seq<Str>, last: Str)
    requires segs != []
    ensures Join(segs + [last]) == Join(segs) + [SLASH] + last
    decreases |segs|
  {
    var all := segs + [last];
    if |segs| == 1 {
      assert all[1..] == [last];
    } else {
      JoinLast(segs[1..], last);
      assert all[1..] == segs[1..] + [last];
      Assoc(segs[0] + [SLASH], Join(segs[1..]), [SLASH]);
      Assoc(segs[0] + [SLASH], Join(segs[1..]) + [SLASH], last);
    }
  }

  // A parsed name is its parent, collection and id again, and the id is one segment.
  lemma NameParts(name: Str)
    requires ParseName(name).Some?
    ensures var p := ParseName(name).value;
      name == p.parent + [SLASH] + p.collectionId + [SLASH] + p.docId && NoSlash(p.docId) && NoSlash(p.collectionId)
  {
    hide Segments;
    var segs := Segments(name);
    var n := |segs|;
    JoinSplit(name);
    SegmentsBare(name, n - 1);
    SegmentsBare(name, n - 2);
    assert segs == segs[..n - 1] + [segs[n - 1]];
    assert segs[..n - 1] == segs[..n - 2] + [segs[n - 2]];
    JoinLast(segs[..n - 1], segs[n - 1]);
    JoinLast(segs[..n - 2], segs[n - 2]);
  }

  function LastSegment(name: Str): Str { Segments(name)[|Segments(name)| - 1] }

  // The name up to and including its last slash: what all names of one collection
  // share, and no others.
  function CollectionOf(name: Str): Str {
    if name == [] || name[|name| - 1] == SLASH then name else CollectionOf(name[..|name| - 1])
  }

  lemma {:induction false} CollectionPrefix(p: Str, id: Str)
    requires NoSlash(id) && (p == [] || p[|p| - 1] == SLASH)
    ensures CollectionOf(p + id) == p
    decreases |id|
  {
    if id == [] {
      assert p + id == p;
    } else {
      var n := p + id;
      assert n[|n| - 1] == id[|id| - 1] != SLASH;
      assert n[..|n| - 1] == p + id[..|id| - 1];
      CollectionPrefix(p, id[..|id| - 1]);
    }
  }

  // It stands for the pair of parent and collection id.
  lemma CollectionParts(name: Str)
    requires ParseName(name).Some?
    ensures var p := ParseName(name).value; CollectionOf(name) == p.parent + [SLASH] + p.collectionId + [SLASH]
  {
    NameParts(name);
    var p := ParseName(name).value;
    CollectionPrefix(p.parent + [SLASH] + p.collectionId + [SLASH], p.docId);
  }

  lemma SameCollectionParts(a: Str, b: Str)
    requires ParseName(a).Some? && ParseName(b).Some?
    ensures CollectionOf(a) == CollectionOf(b) <==>
      ParseName(a).value.parent == ParseName(b).value.parent && ParseName(a).value.collectionId == ParseName(b).value.collectionId
  {
    CollectionParts(a);
    CollectionParts(b);
    NameParts(a);
    NameParts(b);
    var p, q := ParseName(a).value, ParseName(b).value;
    if CollectionOf(a) == CollectionOf(b) {
      assert p.parent + [SLASH] + p.collectionId + [SLASH] == (p.parent + [SLASH] + p.collectionId) + [SLASH];
      var x, y := p.parent + [SLASH] + p.collectionId, q.parent + [SLASH] + q.collectionId;
      assert (x + [SLASH])[..|x|] == x && (y + [SLASH])[..|y|] == y;
      LastSlash(p.parent, p.collectionId, q.parent, q.collectionId);
    }
  }

  lemma LastSlash(p: Str, c: Str, q: Str, d: Str)
    requires NoSlash(c) && NoSlash(d) && p + [SLASH] + c == q + [SLASH] + d
    ensures p == q && c == d
  {
    var s := p + [SLASH] + c;
    CollectionPrefix(p + [SLASH], c);
    CollectionPrefix(q + [SLASH], d);
    assert (p + [SLASH])[..|p|] == p && (q + [SLASH])[..|q|] == q;
    assert s[|p| + 1..] == c;
  }

  // -------------------------------------------------------------- which names parse

  // A document of a project's database: collections and ids in turn, at least one of
  // each, none empty.
  predicate IsDocument(project: Str, database: Str, rel: seq<Str>) {
    && NoSlash(project) && NoSlash(database) && |rel| >= 2 && |rel| % 2 == 0
    && forall i :: 0 <= i < |rel| ==> rel[i] != [] && NoSlash(rel[i])
  }

  function NameOf(project: Str, database: Str, rel: seq<Str>): Str {
    Join([PROJECTS, project, DATABASES, database, DOCUMENTS] + rel)
  }

  lemma {:induction false} SplitJoin(segs: seq<Str>)
    requires segs != [] && forall i :: 0 <= i < |segs| ==> NoSlash(segs[i])
    ensures Segments(Join(segs)) == segs
    decreases |segs|
  {
    if |segs| == 1 {
      SlashAt(segs[0], []);
    } else {
      var rest := segs[1..];
      SplitJoin(rest);
      SlashAt(segs[0], [SLASH] + Join(rest));
      var n := Join(segs);
      Assoc(segs[0], [SLASH], Join(rest));
      assert n == segs[0] + ([SLASH] + Join(rest));
      assert n[|segs[0]| + 1..] == Join(rest) && n[..|segs[0]|] == segs[0];
    }
  }

  lemma {:induction false} SlashAt(a: Str, b: Str)
    requires NoSlash(a) && (b == [] || b[0] == SLASH)
    ensures FirstSlash(a + b) == |a|
    ensures b == [] ==> Segments(a + b) == [a]
    decreases |a|
  {
    if a == [] {
      assert a + b == b;
    } else {
      assert (a + b)[1..] == a[1..] + b;
      SlashAt(a[1..], b);
      if b == [] { assert a + b == a; }
    }
  }

  // Exactly the names of documents parse, into the last collection and id and what is
  // above them.
  lemma NameExact(name: Str)
    ensures ParseName(name).Some? <==> exists project, database, rel :: IsDocument(project, database, rel) && name == NameOf(project, database, rel)
  {
    hide Segments, Join;
    if ParseName(name).Some? { var project, database, rel := ParsedParts(name); }
    if project, database, rel :| IsDocument(project, database, rel) && name == NameOf(project, database, rel) {
      NameParses(project, database, rel);
    }
  }

  lemma ParsedParts(name: Str) returns (project: Str, database: Str, rel: seq<Str>)
    requires ParseName(name).Some?
    ensures IsDocument(project, database, rel) && name == NameOf(project, database, rel)
  {
    hide Segments, Join;
    var segs := Segments(name);
    JoinSplit(name);
    forall i | 0 <= i < |segs| ensures NoSlash(segs[i]) { SegmentsBare(name, i); }
    project, database, rel := segs[1], segs[3], segs[5..];
    assert segs == [PROJECTS, project, DATABASES, database, DOCUMENTS] + rel;
  }

  lemma NameParses(project: Str, database: Str, rel: seq<Str>)
    requires IsDocument(project, database, rel)
    ensures var p := ParseName(NameOf(project, database, rel));
      p.Some? && p.value.collectionId == rel[|rel| - 2] && p.value.docId == rel[|rel| - 1]
  {
    hide Segments, Join;
    var segs := [PROJECTS, project, DATABASES, database, DOCUMENTS] + rel;
    forall i | 0 <= i < |segs| ensures NoSlash(segs[i]) {
      if i >= 5 { assert segs[i] == rel[i - 5]; } else { FixedBare(); }
    }
    SplitJoin(segs);
    forall i | 5 <= i < |segs| ensures segs[i] != [] { assert segs[i] == rel[i - 5]; }
  }

  lemma FixedBare()
    ensures NoSlash(PROJECTS) && NoSlash(DATABASES) && NoSlash(DOCUMENTS)
  {}
}
