/** The manifest passes as they run, table by table and entry by entry. */
module ManifestOps {
  import opened Prelude
  import opened Lex
  import opened Sorting
  import opened Unicode
  import opened Hex
  import opened CanonicalJson
  import opened FilesMerkle
  import opened FilesMerkleForm
  import opened FilesMerkleOps
  import opened Bundle
  import opened BundleAssign
  import opened Manifest
  import opened ManifestProofs
  import opened ManifestFields
  import ManifestReads

  // ---- writing ----

  method StampEntry(path: Path, entry: Json, root: Digest, a: BundleResult) returns (r: Json)
    requires WellFormed(a) && entry.Obj?
    ensures forall roots: map<Path, Digest> :: path in roots && roots[path] == root ==> r == Stamped(path, entry, roots, a)
  {
    hide B3Key, BundleKey, OffKey, HexText;
    var e := entry.fields[B3Key() := Str(HexText(root))];
    if path in a.members {
      var place := a.members[path];
      e := e[BundleKey() := Str(HexText(a.bundles[place.idx].id))];
      e := e[OffKey() := Int(place.off)];
    } else {
      e := e - {BundleKey()};
      e := e - {OffKey()};
      assert e == entry.fields[B3Key() := Str(HexText(root))] - {BundleKey(), OffKey()};
    }
    r := Obj(e);
  }

  /** The entries of `done` are stamped, the others as they were. */
  ghost predicate StampedUpTo(t: map<Path, Json>, r: map<Path, Json>, roots: map<Path, Digest>, a: BundleResult, done: seq<Path>)
    requires WellFormed(a)
  {
    r.Keys == t.Keys && forall p :: p in t ==> r[p] == if p in done then Stamped(p, t[p], roots, a) else t[p]
  }

  lemma StampOne(t: map<Path, Json>, r: map<Path, Json>, roots: map<Path, Digest>, a: BundleResult, done: seq<Path>, path: Path)
    requires WellFormed(a) && StampedUpTo(t, r, roots, a, done) && path in t && path !in done
    ensures StampedUpTo(t, r[path := Stamped(path, t[path], roots, a)], roots, a, done + [path])
    ensures path in r && r[path] == t[path]
  {
    hide Stamped;
  }

  lemma StampAll(t: map<Path, Json>, r: map<Path, Json>, roots: map<Path, Digest>, a: BundleResult, done: seq<Path>)
    requires WellFormed(a) && StampedUpTo(t, r, roots, a, done) && forall p :: p in t ==> p in done
    ensures r == StampedTable(t, roots, a) && Processed(t, roots, done) == TableRefs(t, roots)
  {
    hide Stamped, EntrySize;
  }

  lemma StampNone(t: map<Path, Json>, roots: map<Path, Digest>, a: BundleResult)
    requires WellFormed(a)
    ensures StampedUpTo(t, t, roots, a, []) && Processed(t, roots, []) == map[]
  {
    hide Stamped;
  }

  lemma ProcessOne(t: map<Path, Json>, roots: map<Path, Digest>, done: seq<Path>, path: Path)
    requires path in t && path !in done
    ensures Processed(t, roots, done + [path]) ==
            if t[path].Obj? && path in roots then Processed(t, roots, done)[path := FileRef(roots[path], EntrySize(t[path]))]
            else Processed(t, roots, done)
  {
    hide EntrySize;
  }

  /** One table: its entries are stamped in place, its references added to the Merkle entries. */
  method StampTable(t: map<Path, Json>, roots: map<Path, Digest>, a: BundleResult, before: map<Path, FileRef>)
    returns (r: map<Path, Json>, merkle: map<Path, FileRef>)
    requires WellFormed(a)
    ensures r == StampedTable(t, roots, a) && merkle == before + TableRefs(t, roots)
  {
    hide Stamped, InOrder, EntrySize, StampedUpTo, Processed, StampedTable, TableRefs, WellFormed;
    var paths := PathsInOrder(t.Keys);
    AlongKeys(t.Keys);
    r := t;
    merkle := before;
    StampNone(t, roots, a);
    assert before + map[] == before;
    for i := 0 to |paths|
      invariant StampedUpTo(t, r, roots, a, paths[..i])
      invariant merkle == before + Processed(t, roots, paths[..i])
    {
      var path := paths[i];
      var entry := t[path];
      assert paths[..i + 1] == paths[..i] + [path];
      OnlyOnce(t.Keys, i);
      StampOne(t, r, roots, a, paths[..i], path);
      ProcessOne(t, roots, paths[..i], path);
      if entry.Obj? && path in roots {
        var stamped := StampEntry(path, entry, roots[path], a);
        r := r[path := stamped];
        merkle := merkle[path := FileRef(roots[path], EntrySize(entry))];
      } else {
        LeftAlone(path, entry, roots, a);
        SameMap(r, path);
      }
    }
    assert paths[..|paths|] == paths;
    StampAll(t, r, roots, a, paths);
  }

  lemma SameMap(r: map<Path, Json>, path: Path)
    ensures path in r ==> r[path := r[path]] == r
  {
  }

  lemma AlongKeys(keys: set<Path>)
    ensures forall i :: 0 <= i < |InOrder(keys)| ==> InOrder(keys)[i] in keys
    ensures forall p :: p in InOrder(keys) <==> p in keys
  {
    hide Increasing;
    assert forall i :: 0 <= i < |InOrder(keys)| ==> InOrder(keys)[i] in InOrder(keys);
  }

  lemma OnlyOnce(keys: set<Path>, i: nat)
    requires i < |InOrder(keys)|
    ensures InOrder(keys)[i] !in InOrder(keys)[..i]
  {
    hide Less;
    IncreasingIsDistinct(InOrder(keys));
  }

  lemma LeftAlone(path: Path, entry: Json, roots: map<Path, Digest>, a: BundleResult)
    requires WellFormed(a) && !(entry.Obj? && path in roots)
    ensures Stamped(path, entry, roots, a) == entry
  {
  }

  ghost function Processed(t: map<Path, Json>, roots: map<Path, Digest>, paths: seq<Path>): map<Path, FileRef>
  {
    map p | p in t && t[p].Obj? && p in roots && p in paths :: FileRef(roots[p], EntrySize(t[p]))
  }

  /** Stamp the table under `key`, if there is one. */
  method StampField(obj: map<seq<scalar>, Json>, key: seq<scalar>, roots: map<Path, Digest>, a: BundleResult,
                    before: map<Path, FileRef>) returns (r: map<seq<scalar>, Json>, merkle: map<Path, FileRef>)
    requires WellFormed(a)
    ensures r == WithTable(obj, key, roots, a) && merkle == before + TableRefs(Table(Obj(obj), key), roots)
  {
    hide StampedTable, TableRefs, WellFormed;
    r, merkle := obj, before;
    if key in obj && obj[key].Obj? {
      var t;
      t, merkle := StampTable(obj[key].fields, roots, a, before);
      r := obj[key := Obj(t)];
    } else {
      NoRefs(roots);
    }
  }

  /** Write the fields of an assignment into a manifest. A manifest that is no object is left alone. */
  method ApplyEdx(content: Json, roots: map<Path, Digest>, a: BundleResult, h: Hash)
    returns (after: Json, root: Option<Digest>)
    requires WellFormed(a)
    ensures !content.Obj? ==> after == content && root == None
    ensures content.Obj? ==> after == Applied(content, roots, a, h) && root == Some(MerkleRoot(MerkleEntries(content, roots), h))
    ensures content.Obj? ==>
              && IsApplied(content, after, roots, a, root.value)
              && exists entries :: IsCommitted(content, roots, entries) && IsFilesRoot(entries, h, root.value)
  {
    if !content.Obj? {
      return content, None;
    }
    AppliedIs(content, roots, a, h);
    EntriesAre(content, roots);
    hide IsApplied, IsCommitted, IsFilesRoot;
    hide FilesKey, OptionalKey, BundlesKey, MerkleKey, EdxKey, BundlesJson, BundleEntry, StampedTable, TableRefs, MerkleRoot,
         HexText, WellFormed, WithTable, Table;
    var obj, merkle := StampField(content.fields, FilesKey(), roots, a, map[]);
    OtherTable(content, roots, a);
    obj, merkle := StampField(obj, OptionalKey(), roots, a, merkle);
    assert merkle == MerkleEntries(content, roots);
    var bundlesJson := DeclareBundles(a.bundles);
    DeclaredSome(a.bundles);
    if bundlesJson == map[] {
      obj := obj - {BundlesKey()};
    } else {
      obj := obj[BundlesKey() := Obj(bundlesJson)];
    }
    var digest := FilesMerkleRoot(merkle, h);
    obj := obj[MerkleKey() := Str(HexText(digest))];
    obj := obj[EdxKey() := Int(EDX_VERSION)];
    after := Obj(obj);
    root := Some(digest);
  }

  lemma OtherTable(content: Json, roots: map<Path, Digest>, a: BundleResult)
    requires content.Obj? && WellFormed(a)
    ensures Table(Obj(WithTable(content.fields, FilesKey(), roots, a)), OptionalKey()) == Table(content, OptionalKey())
    ensures map[] + TableRefs(Table(content, FilesKey()), roots) == TableRefs(Table(content, FilesKey()), roots)
    ensures Obj(content.fields) == content
  {
    KeysDiffer();
    hide FilesKey, OptionalKey, StampedTable, TableRefs;
  }

  lemma NoRefs(roots: map<Path, Digest>)
    ensures TableRefs(map[], roots) == map[]
  {
  }

  lemma DeclaredSome(bundles: seq<BundleObject>)
    ensures BundlesJson(bundles) == map[] <==> bundles == []
  {
    hide HexText, BundleEntry;
    if bundles != [] {
      assert HexText(bundles[|bundles| - 1].id) in BundlesJson(bundles);
    }
  }

  method DeclareBundles(bundles: seq<BundleObject>) returns (r: map<seq<scalar>, Json>)
    ensures r == BundlesJson(bundles)
  {
    hide BundleEntry, HexText;
    r := map[];
    for i := 0 to |bundles|
      invariant r == BundlesJson(bundles[..i])
    {
      assert bundles[..i + 1][..i] == bundles[..i];
      r := r[HexText(bundles[i].id) := BundleEntry(|bundles[i].bytes|, i)];
    }
    assert bundles[..|bundles|] == bundles;
  }

  // ---- reading back ----

  /** References grouped by bundle. */
  ghost predicate Grouped(groups: map<seq<scalar>, seq<Ref>>, refs: seq<Ref>)
  {
    forall hex :: RefsTo(refs, hex) == if hex in groups then groups[hex] else []
  }

  ghost predicate NoneEmptyIn(groups: map<seq<scalar>, seq<Ref>>)
  {
    forall hex :: hex in groups ==> groups[hex] != []
  }

  lemma GroupStep(groups: map<seq<scalar>, seq<Ref>>, refs: seq<Ref>, ref: Ref)
    requires Grouped(groups, refs)
    ensures Grouped(groups[ref.bundle := (if ref.bundle in groups then groups[ref.bundle] else []) + [ref]], refs + [ref])
  {
    forall hex
      ensures RefsTo(refs + [ref], hex) == RefsTo(refs, hex) + if ref.bundle == hex then [ref] else []
    {
      assert (refs + [ref])[..|refs|] == refs;
    }
  }

  /** Group one table's references behind those already grouped. */
  method GroupTable(t: map<Path, Json>, before: map<seq<scalar>, seq<Ref>>, ghost refs: seq<Ref>)
    returns (groups: map<seq<scalar>, seq<Ref>>)
    requires Grouped(before, refs) && NoneEmptyIn(before)
    requires forall i :: 0 <= i < |InOrder(t.Keys)| ==> InOrder(t.Keys)[i] in t
    ensures Grouped(groups, refs + RefsAlong(t, InOrder(t.Keys))) && NoneEmptyIn(groups)
  {
    hide Grouped, InOrder, RefOf, RefsAlong;
    var paths := PathsInOrder(t.Keys);
    groups := before;
    assert refs + RefsAlong(t, paths[..0]) == refs by { NoneAlong(t); }
    for i := 0 to |paths|
      invariant Grouped(groups, refs + RefsAlong(t, paths[..i])) && NoneEmptyIn(groups)
    {
      AlongStep(t, paths, i);
      var ref := RefOf(paths[i], t[paths[i]]);
      if ref.Some? {
        GroupStep(groups, refs + RefsAlong(t, paths[..i]), ref.value);
        assert refs + RefsAlong(t, paths[..i]) + [ref.value] == refs + RefsAlong(t, paths[..i + 1]);
        var so := if ref.value.bundle in groups then groups[ref.value.bundle] else [];
        groups := groups[ref.value.bundle := so + [ref.value]];
      } else {
        assert refs + RefsAlong(t, paths[..i]) == refs + RefsAlong(t, paths[..i + 1]);
      }
    }
    assert paths[..|paths|] == paths;
  }

  lemma NoneAlong(t: map<Path, Json>)
    ensures RefsAlong(t, []) == []
  {
  }

  lemma AlongStep(t: map<Path, Json>, paths: seq<Path>, i: nat)
    requires i < |paths| && forall k :: 0 <= k < |paths| ==> paths[k] in t
    ensures RefsAlong(t, paths[..i + 1]) ==
            RefsAlong(t, paths[..i]) + (var ref := RefOf(paths[i], t[paths[i]]); if ref.Some? then [ref.value] else [])
  {
    hide RefOf;
    assert paths[..i + 1][..i] == paths[..i];
  }

  lemma HexesDistinct(t: map<seq<scalar>, Json>)
    requires |t| <= U64_MAX
    ensures Distinct(BundleOrder(t))
  {
    hide RankOf, RankKey, Increasing, SortBy, InOrder;
    var keys := InOrder(t.Keys);
    AlongKeys(t.Keys);
    assert Distinct(keys) by { IncreasingIsDistinct(keys); }
    var ranks := Ranks(t, keys);
    var sorted := SortBy(ranks, RankKey());
    RanksDistinct(t, keys);
    SortElements(ranks, RankKey());
    forall i, j | 0 <= i < j < |sorted|
      ensures sorted[i].hex != sorted[j].hex
    {
      assert sorted[i] in ranks && sorted[j] in ranks;
      var k :| 0 <= k < |ranks| && ranks[k] == sorted[i];
      var l :| 0 <= l < |ranks| && ranks[l] == sorted[j];
      RankHex(t, keys, k);
      RankHex(t, keys, l);
      assert k != l;
    }
  }

  lemma RankHex(t: map<seq<scalar>, Json>, keys: seq<seq<scalar>>, k: nat)
    requires (forall i :: 0 <= i < |keys| ==> keys[i] in t) && k < |keys| <= U64_MAX
    ensures Ranks(t, keys)[k].hex == keys[k]
  {
  }

  method BundlesInOrder(t: map<seq<scalar>, Json>) returns (order: seq<seq<scalar>>)
    requires |t| <= U64_MAX
    ensures order == BundleOrder(t)
  {
    hide SortBy, RankKey, RankOf;
    var keys := PathsInOrder(t.Keys);
    AlongKeys(t.Keys);
    order := Hexes(SortBy(Ranks(t, keys), RankKey()));
  }

  /** The previous memberships a manifest records: bundles in creation order, members by offset. */
  method PrevMemberships(content: Json) returns (r: seq<seq<Path>>)
    requires |Table(content, BundlesKey())| <= U64_MAX
    ensures r == PrevMembershipsOf(content) && ManifestReads.IsRecorded(content, r)
  {
    hide FilesKey, OptionalKey, BundlesKey, Grouped, RefsAlong, InOrder, BundleOrder, SortBy, RefKey, Collected, RefsTo, Distinct,
         Table;
    var order := BundlesInOrder(Table(content, BundlesKey()));
    HexesDistinct(Table(content, BundlesKey()));
    var files, optional := Table(content, FilesKey()), Table(content, OptionalKey());
    AlongKeys(files.Keys);
    AlongKeys(optional.Keys);
    assert Grouped(map[], []) by { NothingGrouped(); }
    var groups := GroupTable(files, map[], []);
    assert [] + RefsAlong(files, InOrder(files.Keys)) == RefsAlong(files, InOrder(files.Keys));
    groups := GroupTable(optional, groups, RefsAlong(files, InOrder(files.Keys)));
    ghost var refs := Refs(content);
    r := Collect(groups, order, refs);
    ManifestReads.MembershipsAre(content);
  }

  /** Each declared bundle takes its group; what nobody declared stays behind. */
  method Collect(grouped: map<seq<scalar>, seq<Ref>>, order: seq<seq<scalar>>, ghost refs: seq<Ref>) returns (r: seq<seq<Path>>)
    requires Grouped(grouped, refs) && NoneEmptyIn(grouped) && Distinct(order)
    ensures r == Collected(refs, order)
  {
    hide Grouped, NoneEmptyIn, SortBy, RefKey, Collected, Distinct;
    var groups := grouped;
    r := [];
    NothingCollected(refs);
    for i := 0 to |order|
      invariant r == Collected(refs, order[..i])
      invariant forall hex :: hex !in order[..i] ==>
                  (hex in groups <==> hex in grouped) && (hex in groups ==> groups[hex] == grouped[hex])
    {
      CollectStep(grouped, refs, order, i);
      NotBefore(order, i);
      assert order[..i + 1] == order[..i] + [order[i]];
      if order[i] in groups {
        var members := groups[order[i]];
        groups := groups - {order[i]};
        r := r + [PathsOf(SortBy(members, RefKey()))];
      }
    }
    assert order[..|order|] == order;
  }

  lemma NotBefore(order: seq<seq<scalar>>, i: nat)
    requires Distinct(order) && i < |order|
    ensures order[i] !in order[..i]
  {
  }

  lemma NothingGrouped()
    ensures Grouped(map[], [])
  {
  }

  lemma NothingCollected(refs: seq<Ref>)
    ensures Collected(refs, []) == []
  {
  }

  lemma CollectStep(groups: map<seq<scalar>, seq<Ref>>, refs: seq<Ref>, order: seq<seq<scalar>>, i: nat)
    requires Grouped(groups, refs) && NoneEmptyIn(groups) && i < |order|
    ensures Collected(refs, order[..i + 1]) ==
            Collected(refs, order[..i]) + if order[i] in groups then [PathsOf(SortBy(groups[order[i]], RefKey()))] else []
  {
    hide SortBy, RefsTo;
    assert order[..i + 1][..i] == order[..i];
  }
}
