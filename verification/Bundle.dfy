/** Stable assignment of small files to bundles. */
module Bundle {
  import opened Prelude
  import opened Lex
  import opened Sorting
  import opened Unicode
  import opened KeyOrder

  type Files = map<Path, seq<byte>>

  const BUNDLE_FILE_MAX: nat := 131072
  const BUNDLE_TARGET: nat := 262144

  predicate IsBundleable(size: nat) { size < BUNDLE_FILE_MAX }

  /** Bytes of one file; every path the program looks up is present. */
  function Bytes(files: Files, p: Path): seq<byte> { if p in files then files[p] else [] }

  function BundleSize(files: Files, b: seq<Path>): (n: nat)
  {
    if b == [] then 0 else BundleSize(files, b[..|b| - 1]) + |Bytes(files, b[|b| - 1])|
  }

  /** A bundle's members that still exist, in order. */
  function Survivors(files: Files, b: seq<Path>): (r: seq<Path>)
  {
    if b == [] then []
    else if b[0] in files then [b[0]] + Survivors(files, b[1..])
    else Survivors(files, b[1..])
  }

  /** The previous bundles with what survives of them, emptied ones dropped. */
  function Carried(files: Files, prev: seq<seq<Path>>): (r: seq<seq<Path>>)
  {
    if prev == [] then []
    else
      var b := Survivors(files, prev[0]);
      (if b == [] then [] else [b]) + Carried(files, prev[1..])
  }

  function Flat(ms: seq<seq<Path>>): (r: seq<Path>)
  {
    if ms == [] then [] else ms[0] + Flat(ms[1..])
  }

  function AppendOne(files: Files, ms: seq<seq<Path>>, p: Path): (r: seq<seq<Path>>)
  {
    if ms != [] && BundleSize(files, ms[|ms| - 1]) < BUNDLE_TARGET
    then ms[..|ms| - 1] + [ms[|ms| - 1] + [p]]
    else ms + [[p]]
  }

  /** The tail fills up to the target, then a new one opens. */
  function AppendAll(files: Files, ms: seq<seq<Path>>, paths: seq<Path>): (r: seq<seq<Path>>)
  {
    if paths == [] then ms
    else AppendOne(files, AppendAll(files, ms, paths[..|paths| - 1]), paths[|paths| - 1])
  }

  ghost function InOrder(S: set<Path>): (r: seq<Path>)
    ensures Increasing(r) && |r| == |S| && forall k :: k in r <==> k in S
  {
    var all: seq<seq<int>> := Ordered(S);
    assert forall i :: 0 <= i < |all| ==> all[i] in S;
    all
  }

  /** Files that no carried bundle holds. */
  function NewFiles(files: Files, carried: seq<seq<Path>>): (S: set<Path>)
  {
    set p | p in files && p !in Flat(carried)
  }

  function CountSmall(files: Files, ms: seq<seq<Path>>): (n: nat)
  {
    if ms == [] then 0
    else CountSmall(files, ms[..|ms| - 1]) + if BundleSize(files, ms[|ms| - 1]) < BUNDLE_TARGET / 2 then 1 else 0
  }

  /** Bundles other than the tail under half the target. */
  function Fragmented(files: Files, ms: seq<seq<Path>>): (n: nat)
  {
    if ms == [] then 0 else CountSmall(files, ms[..|ms| - 1])
  }

  predicate NeedsRepack(files: Files, ms: seq<seq<Path>>)
  {
    |ms| > 1 && Fragmented(files, ms) > Max(|ms| / 4, 2)
  }

  /** Greedy fill in path order. */
  ghost function Repacked(files: Files): (r: seq<seq<Path>>)
  {
    AppendAll(files, [], InOrder(files.Keys))
  }

  /** Carry forward, then append. */
  ghost function Grown(files: Files, prev: seq<seq<Path>>): (r: seq<seq<Path>>)
  {
    AppendAll(files, Carried(files, prev), InOrder(NewFiles(files, Carried(files, prev))))
  }

  ghost function Assigned(files: Files, prev: seq<seq<Path>>): (r: seq<seq<Path>>)
  {
    if NeedsRepack(files, Grown(files, prev)) then Repacked(files) else Grown(files, prev)
  }

  // ---- the produced bundles ----

  datatype BundleObject = BundleObject(id: Digest, bytes: seq<byte>, members: seq<Path>)

  datatype Place = Place(idx: nat, off: nat, len: nat)

  datatype BundleResult = BundleResult(bundles: seq<BundleObject>, members: map<Path, Place>)

  function Concat(files: Files, b: seq<Path>): (r: seq<byte>)
  {
    if b == [] then [] else Concat(files, b[..|b| - 1]) + Bytes(files, b[|b| - 1])
  }

  function Minted(files: Files, b: seq<Path>, h: Hash): (r: BundleObject)
  {
    BundleObject(h(Concat(files, b)), Concat(files, b), b)
  }

  function MintedAll(files: Files, ms: seq<seq<Path>>, h: Hash): (r: seq<BundleObject>)
    ensures |r| == |ms| && forall i :: 0 <= i < |r| ==> r[i] == Minted(files, ms[i], h)
  {
    if ms == [] then [] else MintedAll(files, ms[..|ms| - 1], h) + [Minted(files, ms[|ms| - 1], h)]
  }

  /** Where the members of bundle `idx` go; a later occurrence of a path replaces an earlier one. */
  function PlacesIn(files: Files, b: seq<Path>, idx: nat): (r: map<Path, Place>)
  {
    if b == [] then map[]
    else
      var front := b[..|b| - 1];
      PlacesIn(files, front, idx)[b[|b| - 1] := Place(idx, BundleSize(files, front), |Bytes(files, b[|b| - 1])|)]
  }

  function Places(files: Files, ms: seq<seq<Path>>): (r: map<Path, Place>)
  {
    if ms == [] then map[] else Places(files, ms[..|ms| - 1]) + PlacesIn(files, ms[|ms| - 1], |ms| - 1)
  }

  function Built(files: Files, ms: seq<seq<Path>>, h: Hash): (r: BundleResult)
  {
    BundleResult(MintedAll(files, ms, h), Places(files, ms))
  }
}
