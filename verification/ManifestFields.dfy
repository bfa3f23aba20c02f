/** What the pass over a manifest leaves in it, field by field and by the names of the fields. */
module ManifestFields {
  import opened Prelude
  import opened Lex
  import opened Sorting
  import opened Unicode
  import opened Hex
  import opened CanonicalJson
  import opened FilesMerkle
  import opened Bundle
  import opened Manifest

  /** A name as it is written. */
  function Name(s: string): (r: seq<scalar>)
    ensures |r| == |s|
  {
    seq<scalar>(|s|, i requires 0 <= i < |s| => s[i] as int)
  }

  lemma NamesAre()
    ensures FilesKey() == Name("files") && OptionalKey() == Name("files_optional") && BundlesKey() == Name("bundles")
    ensures MerkleKey() == Name("files_merkle_root") && EdxKey() == Name("edx") && B3Key() == Name("b3")
    ensures BundleKey() == Name("bundle") && OffKey() == Name("off") && SizeKey() == Name("size") && SeqKey() == Name("seq")
  {
  }

  /** The fields named in `but` aside, the two objects have the same ones. */
  ghost predicate SameFields(f: map<seq<scalar>, Json>, g: map<seq<scalar>, Json>, but: set<seq<scalar>>)
  {
    forall k :: k !in but ==> (k in f <==> k in g) && (k in f ==> g[k] == f[k])
  }

  /**
   * A file's entry: its root is written, and its bundle and offset if it was assigned one or taken away if not; entries
   * that are no objects or whose file has no root stay as they are.
   */
  ghost predicate EntryStamped(path: Path, was: Json, now: Json, roots: map<Path, Digest>, a: BundleResult)
    requires WellFormed(a)
  {
    if !was.Obj? || path !in roots then now == was
    else
      && now.Obj? && SameFields(was.fields, now.fields, {Name("b3"), Name("bundle"), Name("off")})
      && Name("b3") in now.fields && now.fields[Name("b3")] == Str(HexText(roots[path]))
      && if path in a.members then
           && Name("bundle") in now.fields && now.fields[Name("bundle")] == Str(HexText(a.bundles[a.members[path].idx].id))
           && Name("off") in now.fields && now.fields[Name("off")] == Int(a.members[path].off)
         else Name("bundle") !in now.fields && Name("off") !in now.fields
  }

  ghost predicate TableStamped(key: seq<scalar>, was: map<seq<scalar>, Json>, now: map<seq<scalar>, Json>, roots: map<Path, Digest>, a: BundleResult)
    requires WellFormed(a)
  {
    && (key in now <==> key in was)
    && (key in was && !was[key].Obj? ==> now[key] == was[key])
    && (key in was && was[key].Obj? ==>
          && now[key].Obj? && now[key].fields.Keys == was[key].fields.Keys
          && forall p :: p in was[key].fields ==> EntryStamped(p, was[key].fields[p], now[key].fields[p], roots, a))
  }

  /** Under the text of each bundle's id its size and its place in the order; the last of several with one id counts. */
  ghost predicate BundlesDeclared(bundles: seq<BundleObject>, m: map<seq<scalar>, Json>)
  {
    && (forall i :: 0 <= i < |bundles| ==> HexText(bundles[i].id) in m)
    && (forall hex :: hex in m ==> exists i :: DeclaredAt(bundles, m, hex, i))
  }

  ghost predicate DeclaredAt(bundles: seq<BundleObject>, m: map<seq<scalar>, Json>, hex: seq<scalar>, i: int)
    requires hex in m
  {
    && 0 <= i < |bundles| && HexText(bundles[i].id) == hex && (forall j :: i < j < |bundles| ==> HexText(bundles[j].id) != hex)
    && m[hex] == Obj(map[Name("size") := Int(|bundles[i].bytes|), Name("seq") := Int(i)])
  }

  /** The declared size of an entry, zero if it is missing or no 64-bit number. */
  function SizeOf(entry: Json): (n: u64)
  {
    if entry.Obj? && Name("size") in entry.fields && entry.fields[Name("size")].Int? &&
       0 <= entry.fields[Name("size")].n <= U64_MAX then entry.fields[Name("size")].n else 0
  }

  /** The entry of a table that goes into the Merkle root, if any. */
  ghost predicate Committed(content: Json, key: seq<scalar>, path: Path, roots: map<Path, Digest>)
  {
    && content.Obj? && key in content.fields && content.fields[key].Obj?
    && path in content.fields[key].fields && content.fields[key].fields[path].Obj? && path in roots
  }

  /** What the root commits to: the root and size of every stamped file, a file in both tables with its optional size. */
  ghost predicate IsCommitted(content: Json, roots: map<Path, Digest>, entries: map<Path, FileRef>)
  {
    && (forall p :: p in entries <==> Committed(content, Name("files"), p, roots) || Committed(content, Name("files_optional"), p, roots))
    && (forall p :: Committed(content, Name("files_optional"), p, roots) ==>
          entries[p] == FileRef(roots[p], SizeOf(content.fields[Name("files_optional")].fields[p])))
    && (forall p :: Committed(content, Name("files"), p, roots) && !Committed(content, Name("files_optional"), p, roots) ==>
          entries[p] == FileRef(roots[p], SizeOf(content.fields[Name("files")].fields[p])))
  }

  /** The whole manifest after the pass. */
  ghost predicate IsApplied(content: Json, after: Json, roots: map<Path, Digest>, a: BundleResult, root: Digest)
    requires WellFormed(a)
  {
    && content.Obj? && after.Obj?
    && SameFields(content.fields, after.fields,
                  {Name("files"), Name("files_optional"), Name("bundles"), Name("files_merkle_root"), Name("edx")})
    && TableStamped(Name("files"), content.fields, after.fields, roots, a)
    && TableStamped(Name("files_optional"), content.fields, after.fields, roots, a)
    && (if a.bundles == [] then Name("bundles") !in after.fields
        else Name("bundles") in after.fields && after.fields[Name("bundles")].Obj? &&
             BundlesDeclared(a.bundles, after.fields[Name("bundles")].fields))
    && Name("files_merkle_root") in after.fields && after.fields[Name("files_merkle_root")] == Str(HexText(root))
    && Name("edx") in after.fields && after.fields[Name("edx")] == Int(1)
  }

  lemma NamesDiffer()
    ensures Name("files") != Name("files_optional") && Name("b3") != Name("bundle") && Name("b3") != Name("off") && Name("bundle") != Name("off")
    ensures Name("size") != Name("seq") && Name("edx") != Name("bundles")
    ensures forall k :: k in [Name("files"), Name("files_optional")] ==> k !in [Name("bundles"), Name("files_merkle_root"), Name("edx")]
    ensures Name("files_merkle_root") != Name("edx") && Name("files_merkle_root") != Name("bundles")
  {
    assert |Name("files")| == 5 && |Name("files_optional")| == 14 && |Name("bundles")| == 7 && |Name("files_merkle_root")| == 17;
    assert |Name("edx")| == 3 && |Name("b3")| == 2 && |Name("bundle")| == 6 && |Name("off")| == 3 && |Name("size")| == 4 && |Name("seq")| == 3;
  }

  lemma EntryIs(path: Path, entry: Json, roots: map<Path, Digest>, a: BundleResult)
    requires WellFormed(a)
    ensures EntryStamped(path, entry, Stamped(path, entry, roots, a), roots, a)
  {
    NamesAre();
    NamesDiffer();
    hide Name, B3Key, BundleKey, OffKey, HexText;
  }

  lemma TableIs(key: seq<scalar>, f: map<seq<scalar>, Json>, roots: map<Path, Digest>, a: BundleResult)
    requires WellFormed(a)
    ensures TableStamped(key, f, WithTable(f, key, roots, a), roots, a) && SameFields(f, WithTable(f, key, roots, a), {key})
  {
    hide Stamped, EntryStamped, WellFormed;
    if key in f && f[key].Obj? {
      forall p | p in f[key].fields
        ensures EntryStamped(p, f[key].fields[p], StampedTable(f[key].fields, roots, a)[p], roots, a)
      {
        EntryIs(p, f[key].fields[p], roots, a);
      }
    }
  }

  /** What is declared next goes over what was declared before it under the same id. */
  lemma DeclaredNext(bundles: seq<BundleObject>, m: map<seq<scalar>, Json>, b: BundleObject)
    requires BundlesDeclared(bundles, m)
    ensures BundlesDeclared(bundles + [b], m[HexText(b.id) := BundleEntry(|b.bytes|, |bundles|)])
  {
    hide HexText, DeclaredAt, Name, BundleEntry;
    var all, next := bundles + [b], m[HexText(b.id) := BundleEntry(|b.bytes|, |bundles|)];
    forall hex | hex in next
      ensures exists i :: DeclaredAt(all, next, hex, i)
    {
      if hex == HexText(b.id) {
        LastDeclared(bundles, next, b);
      } else {
        var i :| DeclaredAt(bundles, m, hex, i);
        DeclaredStill(bundles, m, next, b, hex, i);
      }
    }
    forall i | 0 <= i < |all|
      ensures HexText(all[i].id) in next
    {
      if i < |bundles| { assert HexText(bundles[i].id) in m; }
    }
  }

  lemma LastDeclared(bundles: seq<BundleObject>, next: map<seq<scalar>, Json>, b: BundleObject)
    requires HexText(b.id) in next && next[HexText(b.id)] == BundleEntry(|b.bytes|, |bundles|)
    ensures DeclaredAt(bundles + [b], next, HexText(b.id), |bundles|)
  {
    NamesAre();
    hide HexText, Name;
  }

  lemma DeclaredStill(bundles: seq<BundleObject>, m: map<seq<scalar>, Json>, next: map<seq<scalar>, Json>, b: BundleObject,
                      hex: seq<scalar>, i: int)
    requires hex in m && DeclaredAt(bundles, m, hex, i) && hex != HexText(b.id) && hex in next && next[hex] == m[hex]
    ensures DeclaredAt(bundles + [b], next, hex, i)
  {
    hide HexText, Name;
  }

  lemma {:induction false} BundlesAre(bundles: seq<BundleObject>)
    ensures BundlesDeclared(bundles, BundlesJson(bundles))
  {
    if bundles != [] {
      hide BundlesDeclared, HexText, BundleEntry;
      var k := |bundles| - 1;
      BundlesAre(bundles[..k]);
      DeclaredNext(bundles[..k], BundlesJson(bundles[..k]), bundles[k]);
      assert bundles == bundles[..k] + [bundles[k]];
    }
  }

  lemma SizeIs(entry: Json)
    ensures SizeOf(entry) == EntrySize(entry)
  {
    NamesAre();
    hide Name, SizeKey;
  }

  lemma EntriesAre(content: Json, roots: map<Path, Digest>)
    requires content.Obj?
    ensures IsCommitted(content, roots, MerkleEntries(content, roots))
  {
    NamesAre();
    hide Name, FilesKey, OptionalKey, EntrySize, SizeOf;
    forall entry
      ensures SizeOf(entry) == EntrySize(entry)
    {
      SizeIs(entry);
    }
  }

  /** Both tables after the pass. */
  lemma BothTables(f: map<seq<scalar>, Json>, one: seq<scalar>, two: seq<scalar>, roots: map<Path, Digest>, a: BundleResult)
    requires WellFormed(a) && one != two
    ensures var g := WithTable(WithTable(f, one, roots, a), two, roots, a);
            && TableStamped(one, f, g, roots, a) && TableStamped(two, f, g, roots, a) && SameFields(f, g, {one, two})
  {
    hide WithTable, WellFormed, EntryStamped, Name;
    var f1 := WithTable(f, one, roots, a);
    TableIs(one, f, roots, a);
    TableIs(two, f1, roots, a);
  }

  /** The three fields written behind the tables. */
  ghost function Closed(f: map<seq<scalar>, Json>, bundles: Option<Json>, root: Json): (g: map<seq<scalar>, Json>)
  {
    var g := if bundles.None? then f - {BundlesKey()} else f[BundlesKey() := bundles.value];
    g[MerkleKey() := root][EdxKey() := Int(EDX_VERSION)]
  }

  lemma ClosedIs(f: map<seq<scalar>, Json>, bundles: Option<Json>, root: Json)
    ensures var g := Closed(f, bundles, root);
            && SameFields(f, g, {Name("bundles"), Name("files_merkle_root"), Name("edx")})
            && (if bundles.None? then Name("bundles") !in g else Name("bundles") in g && g[Name("bundles")] == bundles.value)
            && Name("files_merkle_root") in g && g[Name("files_merkle_root")] == root
            && Name("edx") in g && g[Name("edx")] == Int(1)
  {
    NamesAre();
    NamesDiffer();
    hide Name, BundlesKey, MerkleKey, EdxKey;
  }

  lemma KeepsTable(key: seq<scalar>, f: map<seq<scalar>, Json>, g: map<seq<scalar>, Json>, g': map<seq<scalar>, Json>,
                   roots: map<Path, Digest>, a: BundleResult)
    requires WellFormed(a) && TableStamped(key, f, g, roots, a) && (key in g <==> key in g') && (key in g ==> g'[key] == g[key])
    ensures TableStamped(key, f, g', roots, a)
  {
    hide EntryStamped, WellFormed;
  }

  lemma SameThroughout(f: map<seq<scalar>, Json>, g: map<seq<scalar>, Json>, h: map<seq<scalar>, Json>, one: set<seq<scalar>>, two: set<seq<scalar>>)
    requires SameFields(f, g, one) && SameFields(g, h, two)
    ensures SameFields(f, h, one + two)
  {
  }

  /** The pass writes exactly these fields. */
  lemma AppliedIs(content: Json, roots: map<Path, Digest>, a: BundleResult, h: Hash)
    requires content.Obj? && WellFormed(a)
    ensures IsApplied(content, Applied(content, roots, a, h), roots, a, MerkleRoot(MerkleEntries(content, roots), h))
  {
    NamesAre();
    NamesDiffer();
    hide Name, FilesKey, OptionalKey, WithTable, WellFormed, EntryStamped, TableStamped, BundlesDeclared, BundlesJson, SameFields,
         MerkleRoot, MerkleEntries, HexText;
    var root := MerkleRoot(MerkleEntries(content, roots), h);
    var files, optional := Name("files"), Name("files_optional");
    var g := WithTable(WithTable(content.fields, files, roots, a), optional, roots, a);
    var bundles := if a.bundles == [] then None else Some(Obj(BundlesJson(a.bundles)));
    var g' := Closed(g, bundles, Str(HexText(root)));
    BothTables(content.fields, files, optional, roots, a);
    ClosedIs(g, bundles, Str(HexText(root)));
    BundlesAre(a.bundles);
    SameThroughout(content.fields, g, g', {files, optional}, {Name("bundles"), Name("files_merkle_root"), Name("edx")});
    assert {files, optional} + {Name("bundles"), Name("files_merkle_root"), Name("edx")} ==
           {files, optional, Name("bundles"), Name("files_merkle_root"), Name("edx")};
    SameAt(g, g', files);
    SameAt(g, g', optional);
    KeepsTable(files, content.fields, g, g', roots, a);
    KeepsTable(optional, content.fields, g, g', roots, a);
    assert Applied(content, roots, a, h) == Obj(g');
  }

  lemma SameAt(g: map<seq<scalar>, Json>, g': map<seq<scalar>, Json>, key: seq<scalar>)
    requires SameFields(g, g', {Name("bundles"), Name("files_merkle_root"), Name("edx")})
    requires key == Name("files") || key == Name("files_optional")
    ensures (key in g <==> key in g') && (key in g ==> g'[key] == g[key])
  {
    NamesDiffer();
    assert key in [Name("files"), Name("files_optional")];
    hide Name;
  }
}
