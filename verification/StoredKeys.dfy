// Index keys are built from the fields a write leaves, the row from their encoding:
// when the two have the same keys (applyCommit in internal/store/store.go).
module StoredKeys {
  import opened Bytes
  import opened Numbers
  import opened Values
  import opened SortKeys
  import opened FieldPaths
  import opened Queries
  import opened Indexes
  import opened Plans
  import opened Spans
  import opened Layouts
  import opened Storage
  import opened IndexMaintenance

  // What a document needs to have a key: every effective field contributes.
  predicate Contributes(f: Field, name: Str, fields: Fields) {
    f.path == NAME ||
    var v := FieldAt(fields, f.path);
    v.Some? && (f.contains ==> v.value.Array? && v.value.elems != [])
  }

  // A document has a key exactly when every field contributes.
  lemma KeyedExact(d: Def, name: Str, fields: Fields)
    ensures Keys(d, name, fields) != [] <==>
      forall i :: 0 <= i < |EffectiveFields(d)| ==> Contributes(EffectiveFields(d)[i], name, fields)
  {
    hide Keys;
    var fs := EffectiveFields(d);
    if Keys(d, name, fields) != [] {
      var comps := KeyMember(d, name, fields, Keys(d, name, fields)[0]);
      forall i | 0 <= i < |fs| ensures Contributes(fs[i], name, fields) { assert IsComp(fs[i], name, fields, comps[i]); }
    }
    if forall i :: 0 <= i < |fs| ==> Contributes(fs[i], name, fields) {
      var comps := seq(|fs|, i requires 0 <= i < |fs| => FirstComp(fs[i], name, fields));
      forall i | 0 <= i < |fs| ensures IsComp(fs[i], name, fields, comps[i]) { FirstIsComp(fs[i], name, fields); }
      KeyHas(d, name, fields, comps);
    }
  }

  function FirstComp(f: Field, name: Str, fields: Fields): seq<byte>
    requires Contributes(f, name, fields)
  {
    if f.path == NAME then DirNameKey(name, f.desc)
    else
      var v := FieldAt(fields, f.path).value;
      if f.contains then SortKey(v.elems[0]) else DirKey(v, f.desc)
  }

  lemma FirstIsComp(f: Field, name: Str, fields: Fields)
    requires Contributes(f, name, fields)
    ensures IsComp(f, name, fields, FirstComp(f, name, fields))
  {}

  // -------------------------------------------------------------- one field

  // Nothing below the microsecond in what the field contributes.
  predicate WholeField(f: Field, fields: Fields) {
    f.path == NAME ||
    var v := FieldAt(fields, f.path);
    v.Some? ==> if f.contains then v.value.Array? ==> AllWhole(v.value.elems) else Whole(v.value)
  }

  lemma StoredFieldAt(fields: Fields, path: Str)
    requires StoreFields(fields).Some?
    ensures var v, w := FieldAt(fields, path), FieldAt(StoreFields(fields).value, path);
      (v.None? <==> w.None?) && (v.Some? ==> Store(v.value) == w)
  {
    hide Store, StoreFields;
    if Parse(path).Some? { StoredField(fields, Parse(path).value); }
  }

  lemma StoredContributes(f: Field, name: Str, fields: Fields)
    requires StoreFields(fields).Some?
    ensures Contributes(f, name, fields) <==> Contributes(f, name, StoreFields(fields).value)
  {
    hide Store, StoreFields;
    if f.path != NAME {
      StoredFieldAt(fields, f.path);
      if FieldAt(fields, f.path).Some? { StoreElems(FieldAt(fields, f.path).value); }
    }
  }

  lemma SameKey(v: Value)
    requires WellFormed(v) && Store(v).Some?
    ensures SortKey(v) == SortKey(Store(v).value) <==> Whole(v)
  {
    hide Store, SortKey, Compare;
    StoreKeeps(v);
    OrderIsomorphism(v, Store(v).value);
  }

  // A whole field contributes the same before and after it is stored.
  lemma SameComps(f: Field, name: Str, fields: Fields, c: seq<byte>)
    requires StoreFields(fields).Some? && SoundFields(fields) && WholeField(f, fields)
    ensures IsComp(f, name, fields, c) <==> IsComp(f, name, StoreFields(fields).value, c)
  {
    hide Store, StoreFields, SortKey;
    if f.path != NAME {
      StoredFieldAt(fields, f.path);
      if FieldAt(fields, f.path).Some? {
        var v := FieldAt(fields, f.path).value;
        FieldWellFormed(fields, f.path);
        StoreElems(v);
        if f.contains { if v.Array? { SameElems(v, c); } } else { SameKey(v); }
      }
    }
  }

  lemma FieldWellFormed(fields: Fields, path: Str)
    requires SoundFields(fields) && FieldAt(fields, path).Some?
    ensures WellFormed(FieldAt(fields, path).value)
  {}

  lemma SameElems(v: Value, c: seq<byte>)
    requires v.Array? && WellFormed(v) && Store(v).Some? && AllWhole(v.elems)
    ensures Store(v).value.Array?
    ensures (exists i :: 0 <= i < |v.elems| && c == SortKey(v.elems[i]))
       <==> exists i :: 0 <= i < |Store(v).value.elems| && c == SortKey(Store(v).value.elems[i])
  {
    hide Store, SortKey, Whole;
    StoreElems(v);
    forall i | 0 <= i < |v.elems| ensures SortKey(v.elems[i]) == SortKey(Store(v).value.elems[i]) { SameKey(v.elems[i]); }
  }

  // ------------------------------------------------------------ whole documents

  // The fields as sent and as stored have the same keys exactly when the document has
  // no key, or every indexed timestamp is a whole number of microseconds: what a
  // caller can look at before the write.
  lemma SameFieldKeysExact(d: Def, name: Str, fields: Fields)
    requires StoreFields(fields).Some? && SoundFields(fields)
    ensures SameFieldKeys(d, name, fields, StoreFields(fields).value) <==>
      Keys(d, name, fields) == [] || forall i :: 0 <= i < |EffectiveFields(d)| ==> WholeField(EffectiveFields(d)[i], fields)
  {
    hide Keys, StoreFields, WholeField;
    var fs, stored := EffectiveFields(d), StoreFields(fields).value;
    if Keys(d, name, fields) == [] {
      NoStoredKey(d, name, fields);
    } else if forall i :: 0 <= i < |fs| ==> WholeField(fs[i], fields) {
      WholeKeys(d, name, fields);
    } else {
      var i :| 0 <= i < |fs| && !WholeField(fs[i], fields);
      LostKey(d, name, fields, i);
    }
  }

  lemma NoStoredKey(d: Def, name: Str, fields: Fields)
    requires StoreFields(fields).Some? && Keys(d, name, fields) == []
    ensures Keys(d, name, StoreFields(fields).value) == []
  {
    hide Keys, StoreFields, Contributes;
    KeyedExact(d, name, fields);
    KeyedExact(d, name, StoreFields(fields).value);
    forall i | 0 <= i < |EffectiveFields(d)|
      ensures Contributes(EffectiveFields(d)[i], name, fields) <==> Contributes(EffectiveFields(d)[i], name, StoreFields(fields).value)
    {
      StoredContributes(EffectiveFields(d)[i], name, fields);
    }
  }

  lemma WholeKeys(d: Def, name: Str, fields: Fields)
    requires StoreFields(fields).Some? && SoundFields(fields)
    requires forall i :: 0 <= i < |EffectiveFields(d)| ==> WholeField(EffectiveFields(d)[i], fields)
    ensures SameFieldKeys(d, name, fields, StoreFields(fields).value)
  {
    hide Keys, StoreFields, WholeField, IsComp;
    var fs, stored := EffectiveFields(d), StoreFields(fields).value;
    forall k ensures k in Keys(d, name, fields) <==> k in Keys(d, name, stored) {
      if k in Keys(d, name, fields) {
        var comps := KeyMember(d, name, fields, k);
        forall i | 0 <= i < |fs| ensures IsComp(fs[i], name, stored, comps[i]) { SameComps(fs[i], name, fields, comps[i]); }
        KeyHas(d, name, stored, comps);
      }
      if k in Keys(d, name, stored) {
        var comps := KeyMember(d, name, stored, k);
        forall i | 0 <= i < |fs| ensures IsComp(fs[i], name, fields, comps[i]) { SameComps(fs[i], name, fields, comps[i]); }
        KeyHas(d, name, fields, comps);
      }
    }
  }

  // A component of the sent document that no stored one has.
  lemma OwnComp(f: Field, name: Str, fields: Fields) returns (c: seq<byte>)
    requires StoreFields(fields).Some? && SoundFields(fields) && Contributes(f, name, fields) && !WholeField(f, fields)
    ensures IsComp(f, name, fields, c) && !IsComp(f, name, StoreFields(fields).value, c)
  {
    hide Store, StoreFields, SortKey, Whole, Compare;
    StoredFieldAt(fields, f.path);
    FieldWellFormed(fields, f.path);
    var v := FieldAt(fields, f.path).value;
    StoreElems(v);
    if f.contains {
      var i :| 0 <= i < |v.elems| && !Whole(v.elems[i]);
      c := SortKey(v.elems[i]);
      forall j | 0 <= j < |v.elems| ensures SortKey(Store(v).value.elems[j]) != c { OwnElem(v.elems[i], v.elems[j]); }
    } else {
      c := DirKey(v, f.desc);
      SameKey(v);
      if f.desc { ComplementInjective(SortKey(v), SortKey(Store(v).value)); }
    }
  }

  lemma OwnElem(e: Value, g: Value)
    requires WellFormed(e) && WellFormed(g) && !Whole(e) && Store(g).Some?
    ensures SortKey(Store(g).value) != SortKey(e)
  {
    hide Store, SortKey, Whole, Compare;
    StoreKeeps(g);
    OrderIsomorphism(e, Store(g).value);
    if Compare(e, Store(g).value) == 0 {
      SameOrder(e, Store(g).value);
      WholeTogether(e, Store(g).value);
    }
  }

  lemma ComplementInjective(a: seq<byte>, b: seq<byte>)
    ensures Complement(a) == Complement(b) <==> a == b
  {
    ComplementInvolutive(a);
    ComplementInvolutive(b);
  }

  lemma LostKey(d: Def, name: Str, fields: Fields, i: nat)
    requires StoreFields(fields).Some? && SoundFields(fields) && Keys(d, name, fields) != []
    requires i < |EffectiveFields(d)| && !WholeField(EffectiveFields(d)[i], fields)
    ensures !SameFieldKeys(d, name, fields, StoreFields(fields).value)
  {
    hide Keys, StoreFields, WholeField, IsComp, Contributes, SoundFields;
    var fs, stored := EffectiveFields(d), StoreFields(fields).value;
    KeyedExact(d, name, fields);
    var c := OwnComp(fs[i], name, fields);
    var comps := seq(|fs|, j requires 0 <= j < |fs| => if j == i then c else FirstComp(fs[j], name, fields));
    forall j | 0 <= j < |fs| ensures IsComp(fs[j], name, fields, comps[j]) { if j != i { FirstIsComp(fs[j], name, fields); } }
    KeyHas(d, name, fields, comps);
    var k := Concat(comps);
    if k in Keys(d, name, stored) {
      var other := KeyMember(d, name, stored, k);
      forall j | 0 <= j < |fs| ensures comps[j] == other[j] || FirstDiff(comps[j], other[j]) != 0 {
        CompsApart(fs[j], name, fields, comps[j], other[j]);
      }
      ListsDecide(comps, other);
      SameNoDiff(k);
      assert false;
    }
  }

  // Components of one field are equal or diverge.
  lemma CompsApart(f: Field, name: Str, fields: Fields, a: seq<byte>, b: seq<byte>)
    requires StoreFields(fields).Some? && SoundFields(fields)
    requires IsComp(f, name, fields, a) && IsComp(f, name, StoreFields(fields).value, b)
    ensures a == b || FirstDiff(a, b) != 0
  {
    hide Store, StoreFields, SortKey, Compare, WellFormed;
    if f.path != NAME {
      StoredFieldAt(fields, f.path);
      FieldWellFormed(fields, f.path);
      var v := FieldAt(fields, f.path).value;
      StoreElems(v);
      if f.contains {
        var w := Store(v).value;
        var i :| 0 <= i < |v.elems| && a == SortKey(v.elems[i]);
        var j :| 0 <= j < |w.elems| && b == SortKey(w.elems[j]);
        ElemWellFormed(v, i);
        ElemWellFormed(v, j);
        StoreKeeps(v.elems[j]);
        DirKeyCoded(v.elems[i], w.elems[j], false);
      } else {
        StoreKeeps(v);
        DirKeyCoded(v, Store(v).value, f.desc);
      }
    }
  }

  lemma ElemWellFormed(v: Value, i: nat)
    requires v.Array? && WellFormed(v) && i < |v.elems|
    ensures WellFormed(v.elems[i])
  {}

  // ------------------------------------------------------------- below a microsecond

  // "t"
  const T: Str := [0x74]

  lemma TheField(fields: Fields)
    ensures Parse(T) == Some([T]) && T != NAME
    ensures FieldAt(fields, T) == if T in fields then Some(fields[T]) else None
  {
    assert IsSimple(T);
    assert Print([T]) == T;
    RoundTrip([T]);
  }

  const BY_T: Def := Def([], [Field(T, false, false)], false)

  // A time sent with 1500 nanoseconds is stored with 1000: no key of the one is a key
  // of the other, and the equality prefix for 1500 leads to a document that the
  // filter refuses, while the one for 1000 misses it.
  lemma SubMicrosecond(name: Str, s: Int64, sent: Fields, stored: Fields, k: seq<byte>)
    requires 0 <= s <= MAX_SECONDS && sent == map[T := Timestamp(s, 1500)] && k in Keys(BY_T, name, sent)
    requires stored == map[T := Timestamp(s, 1000)]
    ensures StoreFields(sent) == Some(stored)
    ensures k !in Keys(BY_T, name, stored)
    ensures PrefixKey(BY_T, [Timestamp(s, 1500)]) <= k && !EvalField(T, Eq, Timestamp(s, 1500), name, stored)
    ensures !(PrefixKey(BY_T, [Timestamp(s, 1000)]) <= k) && EvalField(T, Eq, Timestamp(s, 1000), name, stored)
  {
    hide Keys, SortKey, Parse, GetField;
    TimeStored(s, sent, stored);
    TheField(sent);
    TheField(stored);
    var u, v := Timestamp(s, 1500), Timestamp(s, 1000);
    OnlyKey(name, u, sent, k);
    PrefixIs(u);
    PrefixIs(v);
    OrderIsomorphism(u, v);
    Apart(v, u, NameKey(name));
    if k in Keys(BY_T, name, stored) {
      OnlyKey(name, v, stored, k);
      assert false;
    }
  }

  lemma TimeStored(s: Int64, sent: Fields, stored: Fields)
    requires 0 <= s <= MAX_SECONDS && sent == map[T := Timestamp(s, 1500)] && stored == map[T := Timestamp(s, 1000)]
    ensures StoreFields(sent) == Some(stored)
  {
    TimeRounds(s);
    OneStores(sent);
    var w := StoreFields(sent).value;
    forall k ensures k in w <==> k in sent { StoreFieldsAt(sent, k); }
    StoreFieldsAt(sent, T);
    assert w == stored;
  }

  lemma OneStores(sent: Fields)
    requires sent.Keys == {T} && Store(sent[T]).Some?
    ensures StoreFields(sent).Some?
  {
    hide Store;
    assert !HasNul(T);
    AllStore(Map(sent));
  }

  lemma AllStore(v: Value)
    requires v.Map? && forall k :: k in v.fields ==> !HasNul(k) && Store(v.fields[k]).Some?
    ensures Store(v).Some? && Store(v).value.Map?
  {}

  lemma TimeRounds(s: Int64)
    requires 0 <= s <= MAX_SECONDS
    ensures Store(Timestamp(s, 1500)) == Some(Timestamp(s, 1000))
  {
    var t := Nanoseconds(s, 1500);
    Normal(Nanoseconds(s, 1000), s, 1000);
    assert t % 1000 == 500 by { assert t == 1000 * (s * 1_000_000 + 1) + 500; }
  }

  lemma OnlyKey(name: Str, v: Value, fields: Fields, k: seq<byte>)
    requires fields == map[T := v] && k in Keys(BY_T, name, fields)
    ensures k == SortKey(v) + NameKey(name)
  {
    hide Keys, SortKey, NameKey;
    TheField(fields);
    var fs := EffectiveFields(BY_T);
    assert fs == [Field(T, false, false), Field(NAME, false, false)];
    var comps := KeyMember(BY_T, name, fields, k);
    assert IsComp(fs[0], name, fields, comps[0]) && IsComp(fs[1], name, fields, comps[1]);
    assert comps == [SortKey(v), NameKey(name)];
    var rest: seq<seq<byte>> := comps[1..];
    assert rest == [NameKey(name)];
    assert Concat(rest) == NameKey(name) + Concat(rest[1..]) == NameKey(name);
  }

  lemma PrefixIs(v: Value)
    ensures PrefixKey(BY_T, [v]) == SortKey(v)
  {
    hide SortKey;
    assert [v][..1] == [v];
    assert PrefixComps(BY_T.fields, [v]) == [SortKey(v)];
    assert Concat([SortKey(v)]) == SortKey(v) + Concat([SortKey(v)][1..]) == SortKey(v);
  }

  // A key neither of which is a prefix of the other leads no continuation of it.
  lemma Apart(a: Value, b: Value, rest: seq<byte>)
    requires WellFormed(a) && WellFormed(b) && Compare(a, b) != 0
    ensures !(SortKey(a) <= SortKey(b) + rest)
  {
    hide SortKey, Compare;
    SortKeyCoded(a, b);
    FirstDiffConcat(SortKey(a), SortKey(b), [], rest);
    assert SortKey(a) + [] == SortKey(a);
    DiffNoPrefix(SortKey(a), SortKey(b) + rest);
  }
}
