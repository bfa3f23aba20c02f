/** Memberships survive the trip through the manifest exactly when ids differ and members are in offset order. */
module ManifestProofs {
  import opened Prelude
  import opened Lex
  import opened Sorting
  import opened Unicode
  import opened Hex
  import opened CanonicalJson
  import opened FilesMerkle
  import opened Bundle
  import opened BundleProofs
  import opened Manifest

  // ---- the setting ----

  /** Every entry has a root, and each assigned file is an entry of exactly one table. */
  ghost predicate Covered(content: Json, files: Files, roots: map<Path, Digest>)
  {
    var first, second := Table(content, FilesKey()), Table(content, OptionalKey());
    && (forall p :: p in first || p in second ==> p in roots)
    && (forall p :: p in files ==>
          (p in first && first[p].Obj? && p !in second) || (p in second && second[p].Obj? && p !in first))
  }

  /** Offsets, sizes and counts are 64-bit numbers. */
  ghost predicate Fits(files: Files, ms: seq<seq<Path>>)
  {
    |ms| <= U64_MAX && forall i :: 0 <= i < |ms| ==> BundleSize(files, ms[i]) <= U64_MAX
  }

  ghost predicate NoneEmpty(ms: seq<seq<Path>>) { forall i :: 0 <= i < |ms| ==> ms[i] != [] }

  ghost predicate IdsDiffer(a: BundleResult)
  {
    forall i, j :: 0 <= i < j < |a.bundles| ==> a.bundles[i].id != a.bundles[j].id
  }

  /** Sorting members by offset, then path, keeps their order. */
  ghost predicate InOffsetOrder(files: Files, b: seq<Path>)
  {
    forall j :: 0 <= j < |b| - 1 ==> Bytes(files, b[j]) != [] || Less(b[j], b[j + 1])
  }

  // ---- what the pass leaves in the tables ----

  lemma KeysDiffer()
    ensures FilesKey() != OptionalKey() && FilesKey() != BundlesKey() && OptionalKey() != BundlesKey()
    ensures MerkleKey() != FilesKey() && MerkleKey() != OptionalKey() && MerkleKey() != BundlesKey()
    ensures EdxKey() != FilesKey() && EdxKey() != OptionalKey() && EdxKey() != BundlesKey()
    ensures B3Key() != BundleKey() && B3Key() != OffKey() && BundleKey() != OffKey() && SizeKey() != SeqKey()
    ensures |FilesKey()| == 5 && |OptionalKey()| == 14 && |BundlesKey()| == 7
  {
  }

  /** Stamping one table leaves the others. */
  lemma StampedAt(content: map<seq<scalar>, Json>, key: seq<scalar>, other: seq<scalar>, roots: map<Path, Digest>, a: BundleResult)
    requires WellFormed(a)
    ensures Table(Obj(WithTable(content, key, roots, a)), key) == StampedTable(Table(Obj(content), key), roots, a)
    ensures other != key ==> Table(Obj(WithTable(content, key, roots, a)), other) == Table(Obj(content), other)
  {
    hide Stamped, WellFormed;
  }

  /** The fields written after the tables. */
  lemma FinishedAt(f: map<seq<scalar>, Json>, bundles: seq<BundleObject>, merkle: Json, edx: Json, key: seq<scalar>)
    ensures var g := if bundles == [] then f - {BundlesKey()} else f[BundlesKey() := Obj(BundlesJson(bundles))];
            var after := Obj(g[MerkleKey() := merkle][EdxKey() := edx]);
            && (key != BundlesKey() && key != MerkleKey() && key != EdxKey() ==> Table(after, key) == Table(Obj(f), key))
            && Table(after, BundlesKey()) == BundlesJson(bundles)
  {
    KeysDiffer();
    NoBundles();
    hide BundlesKey, MerkleKey, EdxKey, BundlesJson;
  }

  lemma AppliedTables(content: Json, roots: map<Path, Digest>, a: BundleResult, h: Hash)
    requires content.Obj? && WellFormed(a)
    ensures var after := Applied(content, roots, a, h);
            && Table(after, FilesKey()) == StampedTable(Table(content, FilesKey()), roots, a)
            && Table(after, OptionalKey()) == StampedTable(Table(content, OptionalKey()), roots, a)
            && Table(after, BundlesKey()) == BundlesJson(a.bundles)
  {
    KeysDiffer();
    hide FilesKey, OptionalKey, BundlesKey, MerkleKey, EdxKey, BundlesJson, StampedTable, MerkleEntries, MerkleRoot, HexText,
         WellFormed, WithTable, Table;
    var f := WithTable(content.fields, FilesKey(), roots, a);
    var g := WithTable(f, OptionalKey(), roots, a);
    var merkle := Str(HexText(MerkleRoot(MerkleEntries(content, roots), h)));
    StampedAt(content.fields, FilesKey(), OptionalKey(), roots, a);
    StampedAt(f, OptionalKey(), FilesKey(), roots, a);
    FinishedAt(g, a.bundles, merkle, Int(EDX_VERSION), FilesKey());
    FinishedAt(g, a.bundles, merkle, Int(EDX_VERSION), OptionalKey());
    assert Obj(content.fields) == content;
  }

  lemma NoBundles()
    ensures BundlesJson([]) == map[]
  {
  }

  lemma StampedRef(path: Path, entry: Json, roots: map<Path, Digest>, a: BundleResult)
    requires WellFormed(a) && path in roots && (path in a.members ==> a.members[path].off <= U64_MAX)
    ensures RefOf(path, Stamped(path, entry, roots, a)) ==
            if entry.Obj? && path in a.members
            then Some(Ref(HexText(a.bundles[a.members[path].idx].id), a.members[path].off, path)) else None
  {
    KeysDiffer();
    hide BundleKey, OffKey, B3Key, HexText;
  }

  // ---- lists of references ----

  lemma {:induction false} RefsAlongElements(t: map<Path, Json>, paths: seq<Path>)
    requires forall i :: 0 <= i < |paths| ==> paths[i] in t
    ensures forall r :: r in RefsAlong(t, paths) <==> r.path in paths && r.path in t && RefOf(r.path, t[r.path]) == Some(r)
  {
    if paths != [] {
      hide RefOf;
      var front, last := paths[..|paths| - 1], paths[|paths| - 1];
      RefsAlongElements(t, front);
      RefPath(last, t[last]);
      assert paths == front + [last];
    }
  }

  lemma RefPath(path: Path, entry: Json)
    ensures RefOf(path, entry).Some? ==> RefOf(path, entry).value.path == path
  {
  }

  lemma {:induction false} RefsAlongDistinct(t: map<Path, Json>, paths: seq<Path>)
    requires (forall i :: 0 <= i < |paths| ==> paths[i] in t) && Distinct(paths)
    ensures Distinct(RefsAlong(t, paths))
  {
    if paths != [] {
      hide RefOf;
      var front, last := paths[..|paths| - 1], paths[|paths| - 1];
      RefsAlongDistinct(t, front);
      RefsAlongElements(t, front);
      RefPath(last, t[last]);
      var rest := RefsAlong(t, front);
      forall i | 0 <= i < |rest|
        ensures rest[i].path != last
      {
        assert rest[i] in rest;
      }
    }
  }

  lemma JoinDistinct<T>(s: seq<T>, t: seq<T>)
    requires Distinct(s) && Distinct(t) && forall i, j :: 0 <= i < |s| && 0 <= j < |t| ==> s[i] != t[j]
    ensures Distinct(s + t)
  {
  }

  /** The reference a placed file gets. */
  ghost function PlaceRef(a: BundleResult, p: Path): (r: Ref)
    requires WellFormed(a) && p in a.members && a.members[p].off <= U64_MAX
  {
    Ref(HexText(a.bundles[a.members[p].idx].id), a.members[p].off, p)
  }

  /** The assignment's places are its own and fit. */
  ghost predicate Placed(files: Files, a: BundleResult)
  {
    WellFormed(a) && a.members.Keys == files.Keys && forall p :: p in a.members ==> a.members[p].off <= U64_MAX
  }

  lemma TableRefsAre(t: map<Path, Json>, files: Files, roots: map<Path, Digest>, a: BundleResult)
    requires Placed(files, a) && forall p :: p in t ==> p in roots
    ensures var refs := RefsAlong(StampedTable(t, roots, a), InOrder(t.Keys));
            && Distinct(refs)
            && forall r :: r in refs <==> r.path in t && t[r.path].Obj? && r.path in files && r == PlaceRef(a, r.path)
  {
    hide RefOf, Stamped, RefsAlong, Increasing;
    var after := StampedTable(t, roots, a);
    var paths := InOrder(t.Keys);
    assert forall i :: 0 <= i < |paths| ==> paths[i] in t by {
      assert forall i :: 0 <= i < |paths| ==> paths[i] in paths;
    }
    assert Distinct(paths) by { IncreasingIsDistinct(paths); }
    RefsAlongElements(after, paths);
    RefsAlongDistinct(after, paths);
    forall p | p in t
      ensures RefOf(p, after[p]) == if t[p].Obj? && p in files then Some(PlaceRef(a, p)) else None
    {
      StampedRef(p, t[p], roots, a);
    }
  }

  lemma IncreasingIsDistinct(s: seq<Path>)
    requires Increasing(s)
    ensures Distinct(s)
  {
    hide Less;
    forall i, j | 0 <= i < j < |s|
      ensures s[i] != s[j]
    {
      LessIrreflexive(s[i]);
    }
  }

  /** After the pass the references are exactly those of the placed files, each once. */
  lemma AppliedRefs(content: Json, files: Files, roots: map<Path, Digest>, a: BundleResult, h: Hash)
    requires content.Obj? && Placed(files, a) && Covered(content, files, roots)
    ensures var refs := Refs(Applied(content, roots, a, h));
            && Distinct(refs)
            && forall r :: r in refs <==> r.path in files && r == PlaceRef(a, r.path)
  {
    hide RefsAlong, StampedTable, Applied, PlaceRef, FilesKey, OptionalKey, Table, InOrder, Distinct;
    var first, second := Table(content, FilesKey()), Table(content, OptionalKey());
    AppliedTables(content, roots, a, h);
    TableRefsAre(first, files, roots, a);
    TableRefsAre(second, files, roots, a);
    var s := RefsAlong(StampedTable(first, roots, a), InOrder(first.Keys));
    var t := RefsAlong(StampedTable(second, roots, a), InOrder(second.Keys));
    forall i, j | 0 <= i < |s| && 0 <= j < |t|
      ensures s[i] != t[j]
    {
      assert s[i] in s && t[j] in t;
    }
    JoinDistinct(s, t);
    assert Refs(Applied(content, roots, a, h)) == s + t;
  }

  lemma {:induction false} RefsToElements(refs: seq<Ref>, hex: seq<scalar>)
    ensures forall r :: r in RefsTo(refs, hex) <==> r in refs && r.bundle == hex
    ensures Distinct(refs) ==> Distinct(RefsTo(refs, hex))
  {
    if refs != [] {
      var front, last := refs[..|refs| - 1], refs[|refs| - 1];
      RefsToElements(front, hex);
      assert refs == front + [last];
      if Distinct(refs) && last.bundle == hex {
        var rest := RefsTo(front, hex);
        forall i | 0 <= i < |rest|
          ensures rest[i] != last
        {
          assert rest[i] in rest;
        }
      }
    }
  }

  // ---- one bundle's members ----

  lemma {:induction false} PrefixFits(files: Files, b: seq<Path>, j: nat)
    requires j <= |b|
    ensures BundleSize(files, b[..j]) <= BundleSize(files, b)
    decreases |b|
  {
    if j < |b| {
      PrefixFits(files, b[..|b| - 1], j);
      assert b[..|b| - 1][..j] == b[..j];
    } else {
      assert b[..j] == b;
    }
  }

  function RefAt(files: Files, b: seq<Path>, hex: seq<scalar>, j: nat): (r: Ref)
    requires j < |b| && BundleSize(files, b) <= U64_MAX
  {
    PrefixFits(files, b, j);
    Ref(hex, BundleSize(files, b[..j]), b[j])
  }

  /** The references of a bundle's members in member order. */
  function MemberRefs(files: Files, b: seq<Path>, hex: seq<scalar>): (r: seq<Ref>)
    requires BundleSize(files, b) <= U64_MAX
    ensures |r| == |b| && forall j :: 0 <= j < |r| ==> r[j] == RefAt(files, b, hex, j)
  {
    seq(|b|, j requires 0 <= j < |b| => RefAt(files, b, hex, j))
  }

  lemma MemberStep(files: Files, b: seq<Path>, j: nat)
    requires j + 1 < |b|
    ensures BundleSize(files, b[..j + 1]) == BundleSize(files, b[..j]) + |Bytes(files, b[j])|
  {
    assert b[..j + 1] == b[..j] + [b[j]];
    SizeSnoc(files, b[..j], b[j]);
  }

  /** Neighbouring references compare as the order condition says. */
  lemma NeighbourKeys(files: Files, b: seq<Path>, hex: seq<scalar>, j: nat)
    requires BundleSize(files, b) <= U64_MAX && j + 1 < |b|
    ensures var t := MemberRefs(files, b, hex);
            Less(RefKey()(t[j]), RefKey()(t[j + 1])) <==> Bytes(files, b[j]) != [] || Less(b[j], b[j + 1])
  {
    hide BundleSize, Bytes;
    var t := MemberRefs(files, b, hex);
    MemberStep(files, b, j);
    var k, l := RefKey()(t[j]), RefKey()(t[j + 1]);
    assert k[0] == t[j].off && k[1..] == b[j] && l[0] == t[j + 1].off && l[1..] == b[j + 1];
  }

  lemma OrderedMembers(files: Files, b: seq<Path>, hex: seq<scalar>)
    requires BundleSize(files, b) <= U64_MAX
    ensures IncreasingBy(MemberRefs(files, b, hex), RefKey()) <==> InOffsetOrder(files, b)
  {
    hide BundleSize, Bytes, MemberRefs, RefKey, Less;
    var t := MemberRefs(files, b, hex);
    forall j | 0 <= j < |t| - 1
      ensures Less(RefKey()(t[j]), RefKey()(t[j + 1])) <==> Bytes(files, b[j]) != [] || Less(b[j], b[j + 1])
    {
      NeighbourKeys(files, b, hex, j);
    }
    if InOffsetOrder(files, b) {
      NeighboursIncrease(t, RefKey());
    }
  }

  lemma RefKeysDiffer(r: Ref, s: Ref)
    requires r != s && r.bundle == s.bundle
    ensures RefKey()(r) != RefKey()(s)
  {
    var k, l := RefKey()(r), RefKey()(s);
    assert k[0] == r.off && l[0] == s.off && k[1..] == r.path && l[1..] == s.path;
  }

  /** Sorting a bundle's references gives its members back exactly when they are in offset order. */
  lemma MembersReadBack(files: Files, b: seq<Path>, hex: seq<scalar>, refs: seq<Ref>)
    requires BundleSize(files, b) <= U64_MAX && Distinct(refs) && Distinct(b)
    requires forall r :: r in refs <==> r in MemberRefs(files, b, hex)
    ensures PathsOf(SortBy(refs, RefKey())) == b <==> InOffsetOrder(files, b)
  {
    hide BundleSize, SortBy, RefKey, InOffsetOrder, MemberRefs, IncreasingBy, Distinct, Less;
    var t := MemberRefs(files, b, hex);
    OrderedMembers(files, b, hex);
    if InOffsetOrder(files, b) {
      SortIs(refs, t, RefKey());
      assert PathsOf(t) == b;
    }
    if PathsOf(SortBy(refs, RefKey())) == b {
      SortedMembers(files, b, hex, refs);
    }
  }

  lemma SortedMembers(files: Files, b: seq<Path>, hex: seq<scalar>, refs: seq<Ref>)
    requires BundleSize(files, b) <= U64_MAX && Distinct(refs) && Distinct(b)
    requires forall r :: r in refs <==> r in MemberRefs(files, b, hex)
    requires PathsOf(SortBy(refs, RefKey())) == b
    ensures IncreasingBy(MemberRefs(files, b, hex), RefKey())
  {
    hide BundleSize, SortBy, RefKey, InOffsetOrder, MemberRefs, IncreasingBy, Less, Distinct;
    var t := MemberRefs(files, b, hex);
    var r := SortBy(refs, RefKey());
    SortElements(refs, RefKey());
    forall j | 0 <= j < |b|
      ensures r[j] == t[j]
    {
      assert r[j] in refs && r[j] in t;
      var k :| 0 <= k < |t| && t[k] == r[j];
      assert b[k] == b[j];
      DistinctAt(b, k, j);
    }
    assert r == t;
    forall x, y | x in refs && y in refs && x != y
      ensures RefKey()(x) != RefKey()(y)
    {
      assert x in t && y in t;
      RefKeysDiffer(x, y);
    }
    SortStrict(refs, RefKey());
  }

  lemma DistinctAt<T>(s: seq<T>, i: nat, j: nat)
    requires Distinct(s) && i < |s| && j < |s| && s[i] == s[j]
    ensures i == j
  {
  }

  // ---- the declared bundles ----

  function HexAt(bundles: seq<BundleObject>, i: nat): (r: seq<scalar>)
    requires i < |bundles|
  {
    HexText(bundles[i].id)
  }

  /** No two bundles are declared under one key. */
  ghost predicate HexesDiffer(bundles: seq<BundleObject>)
  {
    forall i, j :: 0 <= i < j < |bundles| ==> HexAt(bundles, i) != HexAt(bundles, j)
  }

  lemma IdsAreHexes(a: BundleResult)
    ensures IdsDiffer(a) <==> HexesDiffer(a.bundles)
  {
    hide HexEncode;
    forall i, j | 0 <= i < j < |a.bundles|
      ensures a.bundles[i].id != a.bundles[j].id <==> HexAt(a.bundles, i) != HexAt(a.bundles, j)
    {
      if HexAt(a.bundles, i) == HexAt(a.bundles, j) {
        HexInjective(a.bundles[i].id, a.bundles[j].id);
      }
    }
  }

  lemma {:induction false} DeclaredKeys(bundles: seq<BundleObject>, i: nat)
    requires i < |bundles|
    ensures HexAt(bundles, i) in BundlesJson(bundles)
    ensures HexesDiffer(bundles) ==> BundlesJson(bundles)[HexAt(bundles, i)] == BundleEntry(|bundles[i].bytes|, i)
  {
    hide HexText, BundleEntry;
    var front := bundles[..|bundles| - 1];
    if i < |front| {
      DeclaredKeys(front, i);
      assert HexAt(front, i) == HexAt(bundles, i);
      if HexesDiffer(bundles) {
        assert HexAt(bundles, i) != HexAt(bundles, |front|);
        assert forall k, l :: 0 <= k < l < |front| ==> HexAt(front, k) == HexAt(bundles, k) && HexAt(front, l) == HexAt(bundles, l);
      }
    }
  }

  lemma {:induction false} DeclaredOnly(bundles: seq<BundleObject>, k: seq<scalar>) returns (i: nat)
    requires k in BundlesJson(bundles)
    ensures i < |bundles| && HexAt(bundles, i) == k
  {
    hide HexText, BundleEntry;
    var front := bundles[..|bundles| - 1];
    if k in BundlesJson(front) {
      i := DeclaredOnly(front, k);
    } else {
      i := |front|;
    }
  }

  /** Two bundles under one key leave fewer keys than bundles. */
  lemma {:induction false} DeclaredCount(bundles: seq<BundleObject>)
    ensures |BundlesJson(bundles)| <= |bundles|
    ensures !HexesDiffer(bundles) ==> |BundlesJson(bundles)| < |bundles|
  {
    if bundles != [] {
      hide HexText, BundleEntry;
      var front := bundles[..|bundles| - 1];
      var last := |front|;
      DeclaredCount(front);
      assert BundlesJson(bundles).Keys == BundlesJson(front).Keys + {HexAt(bundles, last)};
      if !HexesDiffer(bundles) && HexesDiffer(front) {
        var i := RepeatedLast(bundles);
        DeclaredKeys(front, i);
        assert HexAt(front, i) == HexAt(bundles, last);
        assert BundlesJson(bundles).Keys == BundlesJson(front).Keys;
      }
    }
  }

  lemma RepeatedLast(bundles: seq<BundleObject>) returns (i: nat)
    requires bundles != [] && !HexesDiffer(bundles) && HexesDiffer(bundles[..|bundles| - 1])
    ensures i < |bundles| - 1 && HexAt(bundles, i) == HexAt(bundles, |bundles| - 1)
  {
    hide HexText;
    var front := bundles[..|bundles| - 1];
    forall k, l | 0 <= k < l < |front|
      ensures HexAt(bundles, k) != HexAt(bundles, l)
    {
      assert HexAt(front, k) != HexAt(front, l);
    }
    var j: nat;
    i, j :| 0 <= i < j < |bundles| && HexAt(bundles, i) == HexAt(bundles, j);
  }

  function AllHexes(bundles: seq<BundleObject>): (r: seq<seq<scalar>>)
    ensures |r| == |bundles| && forall i :: 0 <= i < |r| ==> r[i] == HexAt(bundles, i)
  {
    seq(|bundles|, i requires 0 <= i < |bundles| => HexAt(bundles, i))
  }

  function IndexIn(s: seq<seq<scalar>>, k: seq<scalar>): (i: nat)
    requires k in s
    ensures i < |s| && s[i] == k
  {
    if s[0] == k then 0 else 1 + IndexIn(s[1..], k)
  }

  lemma EntryRank(entry: Json, size: nat, i: nat, hex: seq<scalar>, k: nat)
    requires entry == BundleEntry(size, i) && i <= U64_MAX && k <= U64_MAX
    ensures RankOf(map[hex := entry], hex, k) == Rank(i, k, hex)
  {
    KeysDiffer();
    hide SeqKey, SizeKey;
  }

  lemma RankIs(bundles: seq<BundleObject>, i: nat, k: nat)
    requires HexesDiffer(bundles) && i < |bundles| <= U64_MAX && k <= U64_MAX
    ensures HexAt(bundles, i) in BundlesJson(bundles)
    ensures RankOf(BundlesJson(bundles), HexAt(bundles, i), k) == Rank(i, k, HexAt(bundles, i))
  {
    hide SeqKey, SizeKey, BundlesJson, HexAt, HexesDiffer, BundleEntry;
    DeclaredKeys(bundles, i);
    EntryRank(BundlesJson(bundles)[HexAt(bundles, i)], |bundles[i].bytes|, i, HexAt(bundles, i), k);
  }

  function CreationRanks(bundles: seq<BundleObject>, keys: seq<seq<scalar>>): (r: seq<Rank>)
    requires |bundles| <= U64_MAX && forall i :: 0 <= i < |bundles| ==> HexAt(bundles, i) in keys
    ensures |r| == |bundles|
    ensures forall i :: 0 <= i < |r| ==> r[i] == Rank(i, IndexIn(keys, HexAt(bundles, i)), HexAt(bundles, i))
  {
    seq(|bundles|, i requires 0 <= i < |bundles| => Rank(i, IndexIn(keys, HexAt(bundles, i)), HexAt(bundles, i)))
  }

  lemma CreationRanksIncrease(bundles: seq<BundleObject>, keys: seq<seq<scalar>>)
    requires |bundles| <= U64_MAX && forall i :: 0 <= i < |bundles| ==> HexAt(bundles, i) in keys
    ensures IncreasingBy(CreationRanks(bundles, keys), RankKey())
  {
    var t := CreationRanks(bundles, keys);
    forall i, j | 0 <= i < j < |t|
      ensures Less(RankKey()(t[i]), RankKey()(t[j]))
    {
      assert RankKey()(t[i])[0] == i && RankKey()(t[j])[0] == j;
    }
  }

  /** Bundles under different keys are read back in creation order. */
  lemma OrderReadBack(bundles: seq<BundleObject>)
    requires HexesDiffer(bundles) && |bundles| <= U64_MAX
    ensures |BundlesJson(bundles)| <= U64_MAX
    ensures BundleOrder(BundlesJson(bundles)) == AllHexes(bundles)
  {
    hide HexesDiffer, BundlesJson, HexAt, RankOf, RankKey, Increasing, InOrder, SortBy, Distinct, IncreasingBy, IndexIn;
    DeclaredCount(bundles);
    var t := BundlesJson(bundles);
    var keys := InOrder(t.Keys);
    assert forall i :: 0 <= i < |keys| ==> keys[i] in t by {
      assert forall i :: 0 <= i < |keys| ==> keys[i] in keys;
    }
    forall i | 0 <= i < |bundles|
      ensures HexAt(bundles, i) in keys
    {
      DeclaredKeys(bundles, i);
    }
    var ranks := Ranks(t, keys);
    var want := CreationRanks(bundles, keys);
    assert Distinct(keys) by { IncreasingIsDistinct(keys); }
    assert Distinct(ranks) by { RanksDistinct(t, keys); }
    CreationRanksIncrease(bundles, keys);
    forall r
      ensures r in ranks <==> r in want
    {
      SameRanks(bundles, keys, r);
    }
    SortIs(ranks, want, RankKey());
    assert Hexes(want) == AllHexes(bundles);
  }

  lemma RanksDistinct(t: map<seq<scalar>, Json>, keys: seq<seq<scalar>>)
    requires (forall i :: 0 <= i < |keys| ==> keys[i] in t) && |keys| <= U64_MAX
    ensures Distinct(Ranks(t, keys))
  {
  }

  lemma SameRanks(bundles: seq<BundleObject>, keys: seq<seq<scalar>>, r: Rank)
    requires HexesDiffer(bundles) && |bundles| <= U64_MAX && |keys| <= U64_MAX && Distinct(keys)
    requires forall k :: k in keys <==> k in BundlesJson(bundles)
    requires forall i :: 0 <= i < |bundles| ==> HexAt(bundles, i) in keys
    requires forall i :: 0 <= i < |keys| ==> keys[i] in BundlesJson(bundles)
    ensures r in Ranks(BundlesJson(bundles), keys) <==> r in CreationRanks(bundles, keys)
  {
    hide HexesDiffer, BundlesJson, HexAt, RankOf, Distinct, IndexIn;
    var t := BundlesJson(bundles);
    if r in Ranks(t, keys) {
      var k :| 0 <= k < |keys| && Ranks(t, keys)[k] == r;
      assert keys[k] in keys;
      var i := DeclaredOnly(bundles, keys[k]);
      RankIs(bundles, i, k);
      DistinctAt(keys, k, IndexIn(keys, HexAt(bundles, i)));
      assert CreationRanks(bundles, keys)[i] == r;
    }
    if r in CreationRanks(bundles, keys) {
      var i :| 0 <= i < |bundles| && CreationRanks(bundles, keys)[i] == r;
      var k := IndexIn(keys, HexAt(bundles, i));
      RankIs(bundles, i, k);
      assert Ranks(t, keys)[k] == r;
    }
  }

  // ---- reading everything back ----

  lemma {:induction false} CollectedShort(refs: seq<Ref>, order: seq<seq<scalar>>)
    ensures |Collected(refs, order)| <= |order|
  {
    if order != [] {
      CollectedShort(refs, order[..|order| - 1]);
    }
  }

  lemma {:induction false} CollectedAll(refs: seq<Ref>, order: seq<seq<scalar>>)
    requires forall i :: 0 <= i < |order| ==> RefsTo(refs, order[i]) != []
    ensures |Collected(refs, order)| == |order|
    ensures forall i :: 0 <= i < |order| ==> Collected(refs, order)[i] == PathsOf(SortBy(RefsTo(refs, order[i]), RefKey()))
  {
    hide RefsTo, SortBy, Collected, RefKey;
    if order != [] {
      var front := order[..|order| - 1];
      CollectedAll(refs, front);
      CollectedSnoc(refs, order);
    } else {
      CollectedShort(refs, order);
    }
  }

  lemma CollectedSnoc(refs: seq<Ref>, order: seq<seq<scalar>>)
    requires order != [] && RefsTo(refs, order[|order| - 1]) != []
    ensures Collected(refs, order) ==
            Collected(refs, order[..|order| - 1]) + [PathsOf(SortBy(RefsTo(refs, order[|order| - 1]), RefKey()))]
  {
    hide RefsTo, SortBy;
  }

  lemma PlacedFits(files: Files, ms: seq<seq<Path>>, h: Hash)
    requires PlacedOnce(files, ms) && Fits(files, ms)
    ensures Placed(files, Built(files, ms, h))
  {
    hide PlacedOnce, Places, Concat, BundleSize;
    var a := Built(files, ms, h);
    OnceCovers(files, ms);
    EveryFilePlaced(files, ms, h);
    forall p | p in a.members
      ensures a.members[p].off <= U64_MAX
    {
      ConcatLength(files, ms[a.members[p].idx]);
    }
  }

  /** Among references to placed files, those to bundle `i` are its members'. */
  lemma RefsToBundle(files: Files, ms: seq<seq<Path>>, h: Hash, refs: seq<Ref>, i: nat)
    requires PlacedOnce(files, ms) && Fits(files, ms) && i < |ms|
    requires Placed(files, Built(files, ms, h)) && HexesDiffer(Built(files, ms, h).bundles)
    requires forall r :: r in refs <==> r.path in files && r == PlaceRef(Built(files, ms, h), r.path)
    ensures var hex := HexAt(Built(files, ms, h).bundles, i);
            forall r :: r in RefsTo(refs, hex) <==> r in MemberRefs(files, ms[i], hex)
  {
    hide RefsTo, PlacedOnce, Flat, Places, MintedAll, BundleSize, Concat, HexText, MemberRefs;
    var a := Built(files, ms, h);
    var hex := HexAt(a.bundles, i);
    RefsToElements(refs, hex);
    forall r
      ensures r in RefsTo(refs, hex) <==> r in MemberRefs(files, ms[i], hex)
    {
      if r in RefsTo(refs, hex) {
        MemberRefOf(files, ms, h, i, r);
      }
      if r in MemberRefs(files, ms[i], hex) {
        var j :| 0 <= j < |ms[i]| && RefAt(files, ms[i], hex, j) == r;
        PlacesRight(files, ms, h, i, j);
      }
    }
  }

  lemma MemberRefOf(files: Files, ms: seq<seq<Path>>, h: Hash, i: nat, r: Ref)
    requires PlacedOnce(files, ms) && Fits(files, ms) && i < |ms|
    requires Placed(files, Built(files, ms, h)) && HexesDiffer(Built(files, ms, h).bundles)
    requires r.path in files && r == PlaceRef(Built(files, ms, h), r.path) && r.bundle == HexAt(Built(files, ms, h).bundles, i)
    ensures r in MemberRefs(files, ms[i], r.bundle)
  {
    hide PlacedOnce, Flat, Places, MintedAll, BundleSize, Concat, HexText, MemberRefs;
    var a := Built(files, ms, h);
    OnceCovers(files, ms);
    var k, j := FlatFind(ms, r.path);
    PlacesRight(files, ms, h, k, j);
    assert HexAt(a.bundles, k) == HexAt(a.bundles, i);
    assert k == i;
    assert MemberRefs(files, ms[i], r.bundle)[j] == r;
  }

  lemma BundleDistinct(files: Files, ms: seq<seq<Path>>, i: nat)
    requires PlacedOnce(files, ms) && i < |ms|
    ensures Distinct(ms[i])
  {
    hide PlacedOnce, Flat;
    OnceNoDuplicates(files, ms);
    forall j, k | 0 <= j < k < |ms[i]|
      ensures ms[i][j] != ms[i][k]
    {
      if ms[i][j] == ms[i][k] {
        OnlyThere(ms, i, j, i, k);
      }
    }
  }

  /** One bundle, read back under distinct ids. */
  lemma BundleReadBack(files: Files, ms: seq<seq<Path>>, h: Hash, refs: seq<Ref>, i: nat)
    requires PlacedOnce(files, ms) && Fits(files, ms) && NoneEmpty(ms) && i < |ms|
    requires Placed(files, Built(files, ms, h)) && HexesDiffer(Built(files, ms, h).bundles) && Distinct(refs)
    requires forall r :: r in refs <==> r.path in files && r == PlaceRef(Built(files, ms, h), r.path)
    ensures var members := RefsTo(refs, HexAt(Built(files, ms, h).bundles, i));
            members != [] && (PathsOf(SortBy(members, RefKey())) == ms[i] <==> InOffsetOrder(files, ms[i]))
  {
    hide PlacedOnce, Placed, HexesDiffer, RefsTo, SortBy, MintedAll, Places, Distinct, MemberRefs, InOffsetOrder, PlaceRef, HexAt;
    var hex := HexAt(Built(files, ms, h).bundles, i);
    var members := RefsTo(refs, hex);
    RefsToBundle(files, ms, h, refs, i);
    assert Distinct(members) by { RefsToElements(refs, hex); }
    BundleDistinct(files, ms, i);
    MembersReadBack(files, ms[i], hex, members);
    assert members != [] by {
      var first := MemberRefs(files, ms[i], hex)[0];
      assert first in MemberRefs(files, ms[i], hex);
      assert first in members;
    }
  }

  /**
   * The memberships written into a manifest are read back from it, bundles in creation order and members in order,
   * if and only if the bundle ids differ and each bundle's neighbours are told apart by offset or path order.
   */
  lemma ReadBackIff(content: Json, files: Files, roots: map<Path, Digest>, ms: seq<seq<Path>>, h: Hash)
    requires content.Obj? && Covered(content, files, roots)
    requires PlacedOnce(files, ms) && NoneEmpty(ms) && Fits(files, ms)
    ensures WellFormed(Built(files, ms, h))
    ensures var after := Applied(content, roots, Built(files, ms, h), h);
            && |Table(after, BundlesKey())| <= U64_MAX
            && (PrevMembershipsOf(after) == ms <==>
                  IdsDiffer(Built(files, ms, h)) && forall i :: 0 <= i < |ms| ==> InOffsetOrder(files, ms[i]))
  {
    hide PlacedOnce, Covered, Fits, Applied, RefsTo, SortBy, Refs, BundleOrder, HexesDiffer, IdsDiffer, InOffsetOrder,
         Table, BundlesJson, Collected, Placed, Places, MintedAll, Distinct, HexAt, PlaceRef;
    var a := Built(files, ms, h);
    PlacedFits(files, ms, h);
    PlacedWellFormed(files, a);
    var after := Applied(content, roots, a, h);
    AppliedTables(content, roots, a, h);
    AppliedRefs(content, files, roots, a, h);
    IdsAreHexes(a);
    DeclaredCount(a.bundles);
    assert |ms| <= U64_MAX by { FewBundles(files, ms); }
    var refs := Refs(after);
    var t := BundlesJson(a.bundles);
    CollectedShort(refs, BundleOrder(t));
    assert |BundleOrder(t)| == |t| by { OrderLength(t); }
    if IdsDiffer(a) {
      OrderReadBack(a.bundles);
      forall i | 0 <= i < |ms|
        ensures var members := RefsTo(refs, HexAt(a.bundles, i));
                members != [] && (PathsOf(SortBy(members, RefKey())) == ms[i] <==> InOffsetOrder(files, ms[i]))
      {
        BundleReadBack(files, ms, h, refs, i);
      }
      CollectedAll(refs, AllHexes(a.bundles));
    }
  }

  lemma PlacedWellFormed(files: Files, a: BundleResult)
    requires Placed(files, a)
    ensures WellFormed(a)
  {
  }

  lemma FewBundles(files: Files, ms: seq<seq<Path>>)
    requires Fits(files, ms)
    ensures |ms| <= U64_MAX
  {
  }

  lemma OrderLength(t: map<seq<scalar>, Json>)
    requires |t| <= U64_MAX
    ensures |BundleOrder(t)| == |t|
  {
    hide RankOf, SortBy, RankKey, Increasing;
    var keys := InOrder(t.Keys);
    assert forall i :: 0 <= i < |keys| ==> keys[i] in t by {
      assert forall i :: 0 <= i < |keys| ==> keys[i] in keys;
    }
    SortKeeps(Ranks(t, keys), RankKey());
    assert |multiset(SortBy(Ranks(t, keys), RankKey()))| == |Ranks(t, keys)|;
  }

  /** With files that have bytes, distinct ids are all it takes. */
  lemma NonEmptyFilesInOrder(files: Files, b: seq<Path>)
    requires forall p :: p in b ==> p in files && files[p] != []
    ensures InOffsetOrder(files, b)
  {
    hide Less;
  }

  /**
   * Signing again is a fixpoint. Whatever the previous memberships were, those read back from the manifest just
   * written, assigned over the same files, give the same bundles, whether or not the first run repacked.
   */
  lemma ResigningFixpoint(content: Json, files: Files, roots: map<Path, Digest>, prev: seq<seq<Path>>, h: Hash)
    requires content.Obj? && Covered(content, files, roots)
    requires NoDuplicates(Flat(prev)) && Fits(files, Assigned(files, prev))
    requires forall p :: p in files ==> files[p] != []
    requires IdsDiffer(Built(files, Assigned(files, prev), h))
    ensures var first := Built(files, Assigned(files, prev), h);
            && WellFormed(first)
            && |Table(Applied(content, roots, first, h), BundlesKey())| <= U64_MAX
            && var again := PrevMembershipsOf(Applied(content, roots, first, h));
               again == Assigned(files, prev) && Built(files, Assigned(files, again), h) == first
  {
    hide PlacedOnce, Covered, Fits, Applied, PrevMembershipsOf, Table, IdsDiffer, InOffsetOrder, Assigned, Flat,
         NoDuplicates, Places, MintedAll, WellFormed;
    var ms := Assigned(files, prev);
    DuplicateFreePlacedOnce(files, prev);
    AssignedNonEmpty(files, prev);
    forall i | 0 <= i < |ms|
      ensures InOffsetOrder(files, ms[i])
    {
      forall p | p in ms[i]
        ensures p in files
      {
        var j :| 0 <= j < |ms[i]| && ms[i][j] == p;
        InFlat(ms, i, j);
        AssignedFlat(files, prev, p);
      }
      NonEmptyFilesInOrder(files, ms[i]);
    }
    ReadBackIff(content, files, roots, ms, h);
    AssignIdempotent(files, prev);
  }
}
