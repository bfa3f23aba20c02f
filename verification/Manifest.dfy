/** Writing an assignment into the manifest and reading the memberships back from it. */
module Manifest {
  import opened Prelude
  import opened Lex
  import opened Sorting
  import opened Unicode
  import opened Hex
  import opened CanonicalJson
  import opened FilesMerkle
  import opened Bundle

  // The names of the fields.
  function FilesKey(): seq<scalar> { [102, 105, 108, 101, 115] }
  function OptionalKey(): seq<scalar> { [102, 105, 108, 101, 115, 95, 111, 112, 116, 105, 111, 110, 97, 108] }
  function BundlesKey(): seq<scalar> { [98, 117, 110, 100, 108, 101, 115] }
  function MerkleKey(): seq<scalar>
  {
    [102, 105, 108, 101, 115, 95, 109, 101, 114, 107, 108, 101, 95, 114, 111, 111, 116]
  }
  function EdxKey(): seq<scalar> { [101, 100, 120] }
  function B3Key(): seq<scalar> { [98, 51] }
  function BundleKey(): seq<scalar> { [98, 117, 110, 100, 108, 101] }
  function OffKey(): seq<scalar> { [111, 102, 102] }
  function SizeKey(): seq<scalar> { [115, 105, 122, 101] }
  function SeqKey(): seq<scalar> { [115, 101, 113] }

  const EDX_VERSION: nat := 1

  /** The hexadecimal text of an id. */
  function HexText(d: Digest): (r: seq<scalar>) { HexEncode(d) }

  function Get(v: Json, key: seq<scalar>): (r: Option<Json>)
  {
    if v.Obj? && key in v.fields then Some(v.fields[key]) else None
  }

  function AsU64(v: Option<Json>): (r: Option<u64>)
  {
    if v.Some? && v.value.Int? && 0 <= v.value.n <= U64_MAX then Some(v.value.n) else None
  }

  function AsStr(v: Option<Json>): (r: Option<seq<scalar>>)
  {
    if v.Some? && v.value.Str? then Some(v.value.s) else None
  }

  // ---- writing ----

  /** The places of an assignment point at its bundles. */
  ghost predicate WellFormed(a: BundleResult)
  {
    forall p :: p in a.members ==> a.members[p].idx < |a.bundles|
  }

  /** One entry after the pass. Entries that are no objects or have no root are left alone. */
  ghost function Stamped(path: Path, entry: Json, roots: map<Path, Digest>, a: BundleResult): (r: Json)
    requires WellFormed(a)
  {
    if !entry.Obj? || path !in roots then entry
    else
      var e := entry.fields[B3Key() := Str(HexText(roots[path]))];
      if path in a.members then
        Obj(e[BundleKey() := Str(HexText(a.bundles[a.members[path].idx].id))][OffKey() := Int(a.members[path].off)])
      else Obj(e - {BundleKey(), OffKey()})
  }

  ghost function StampedTable(t: map<Path, Json>, roots: map<Path, Digest>, a: BundleResult): (r: map<Path, Json>)
    requires WellFormed(a)
    ensures r.Keys == t.Keys && forall p :: p in t ==> r[p] == Stamped(p, t[p], roots, a)
  {
    map p | p in t :: Stamped(p, t[p], roots, a)
  }

  /** What a table contributes to the Merkle root. */
  ghost function TableRefs(t: map<Path, Json>, roots: map<Path, Digest>): (r: map<Path, FileRef>)
  {
    map p | p in t && t[p].Obj? && p in roots :: FileRef(roots[p], EntrySize(t[p]))
  }

  function EntrySize(entry: Json): (n: u64)
  {
    var size := AsU64(Get(entry, SizeKey()));
    if size.Some? then size.value else 0
  }

  /** A table of the manifest, empty if it is missing or no object. */
  function Table(content: Json, key: seq<scalar>): (t: map<Path, Json>)
  {
    var t := Get(content, key);
    if t.Some? && t.value.Obj? then t.value.fields else map[]
  }

  function BundleEntry(size: nat, i: nat): (r: Json) { Obj(map[SizeKey() := Int(size), SeqKey() := Int(i)]) }

  function BundlesJson(bundles: seq<BundleObject>): (r: map<seq<scalar>, Json>)
  {
    if bundles == [] then map[]
    else
      var i := |bundles| - 1;
      BundlesJson(bundles[..i])[HexText(bundles[i].id) := BundleEntry(|bundles[i].bytes|, i)]
  }

  ghost function WithTable(content: map<seq<scalar>, Json>, key: seq<scalar>, roots: map<Path, Digest>,
                           a: BundleResult): (r: map<seq<scalar>, Json>)
    requires WellFormed(a)
  {
    if key in content && content[key].Obj? then content[key := Obj(StampedTable(content[key].fields, roots, a))] else content
  }

  ghost function MerkleEntries(content: Json, roots: map<Path, Digest>): (r: map<Path, FileRef>)
  {
    TableRefs(Table(content, FilesKey()), roots) + TableRefs(Table(content, OptionalKey()), roots)
  }

  /** The manifest after the pass. */
  ghost function Applied(content: Json, roots: map<Path, Digest>, a: BundleResult, h: Hash): (r: Json)
    requires content.Obj? && WellFormed(a)
  {
    var f := WithTable(WithTable(content.fields, FilesKey(), roots, a), OptionalKey(), roots, a);
    var g := if a.bundles == [] then f - {BundlesKey()} else f[BundlesKey() := Obj(BundlesJson(a.bundles))];
    Obj(g[MerkleKey() := Str(HexText(MerkleRoot(MerkleEntries(content, roots), h)))][EdxKey() := Int(EDX_VERSION)])
  }

  // ---- reading back ----

  /** A file's reference into a bundle. */
  datatype Ref = Ref(bundle: seq<scalar>, off: u64, path: Path)

  function RefOf(path: Path, entry: Json): (r: Option<Ref>)
  {
    var bundle, off := AsStr(Get(entry, BundleKey())), AsU64(Get(entry, OffKey()));
    if bundle.Some? && off.Some? then Some(Ref(bundle.value, off.value, path)) else None
  }

  function RefsAlong(t: map<Path, Json>, paths: seq<Path>): (r: seq<Ref>)
    requires forall i :: 0 <= i < |paths| ==> paths[i] in t
  {
    if paths == [] then []
    else
      var last := paths[|paths| - 1];
      var ref := RefOf(last, t[last]);
      RefsAlong(t, paths[..|paths| - 1]) + if ref.Some? then [ref.value] else []
  }

  ghost function Refs(content: Json): (r: seq<Ref>)
  {
    var files, optional := Table(content, FilesKey()), Table(content, OptionalKey());
    RefsAlong(files, InOrder(files.Keys)) + RefsAlong(optional, InOrder(optional.Keys))
  }

  function RefKey(): Ref -> seq<int> { (r: Ref) => [r.off as int] + r.path }

  /** A declared bundle with its persisted order; without one, its place in the map. */
  datatype Rank = Rank(order: u64, i: nat, hex: seq<scalar>)

  function RankKey(): Rank -> seq<int> { (r: Rank) => [r.order as int, r.i] + r.hex }

  function RankOf(t: map<seq<scalar>, Json>, hex: seq<scalar>, i: nat): (r: Rank)
    requires hex in t && i <= U64_MAX
  {
    var order := AsU64(Get(t[hex], SeqKey()));
    Rank(if order.Some? then order.value else i, i, hex)
  }

  function Ranks(t: map<seq<scalar>, Json>, keys: seq<seq<scalar>>): (r: seq<Rank>)
    requires (forall i :: 0 <= i < |keys| ==> keys[i] in t) && |keys| <= U64_MAX
    ensures |r| == |keys| && forall i :: 0 <= i < |r| ==> r[i] == RankOf(t, keys[i], i)
  {
    seq(|keys|, i requires 0 <= i < |keys| => RankOf(t, keys[i], i))
  }

  function Hexes(ranks: seq<Rank>): (r: seq<seq<scalar>>)
    ensures |r| == |ranks| && forall i :: 0 <= i < |r| ==> r[i] == ranks[i].hex
  {
    seq(|ranks|, i requires 0 <= i < |ranks| => ranks[i].hex)
  }

  function PathsOf(refs: seq<Ref>): (r: seq<Path>)
    ensures |r| == |refs| && forall i :: 0 <= i < |r| ==> r[i] == refs[i].path
  {
    seq(|refs|, i requires 0 <= i < |refs| => refs[i].path)
  }

  /** The declared bundles in creation order. */
  ghost function BundleOrder(t: map<seq<scalar>, Json>): (r: seq<seq<scalar>>)
    requires |t| <= U64_MAX
  {
    Hexes(SortBy(Ranks(t, InOrder(t.Keys)), RankKey()))
  }

  function RefsTo(refs: seq<Ref>, hex: seq<scalar>): (r: seq<Ref>)
  {
    if refs == [] then []
    else
      var i := |refs| - 1;
      RefsTo(refs[..i], hex) + if refs[i].bundle == hex then [refs[i]] else []
  }

  /** Each bundle's members by offset; bundles nobody refers to are dropped. */
  function Collected(refs: seq<Ref>, order: seq<seq<scalar>>): (r: seq<seq<Path>>)
  {
    if order == [] then []
    else
      var i := |order| - 1;
      var members := RefsTo(refs, order[i]);
      Collected(refs, order[..i]) + if members == [] then [] else [PathsOf(SortBy(members, RefKey()))]
  }

  ghost function PrevMembershipsOf(content: Json): (r: seq<seq<Path>>)
    requires |Table(content, BundlesKey())| <= U64_MAX
  {
    Collected(Refs(content), BundleOrder(Table(content, BundlesKey())))
  }
}
