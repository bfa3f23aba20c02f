/** The assignment run: the append loop, the repack loop and the loops that mint bundles. */
module BundleAssign {
  import opened Prelude
  import opened Lex
  import opened Sorting
  import opened Unicode
  import opened KeyOrder
  import opened Bundle
  import opened BundleProofs
  import opened BundleFill

  /** Paths of a sorted file map, in its iteration order. */
  method PathsInOrder(keys: set<Path>) returns (r: seq<Path>)
    ensures r == InOrder(keys)
  {
    r := SortKeys(keys);
    IncreasingUnique(r, InOrder(keys));
  }

  method Repack(files: Files) returns (out: seq<seq<Path>>)
    ensures out == Repacked(files)
  {
    hide AppendAll, BundleSize, AppendOne, InOrder;
    var paths := PathsInOrder(files.Keys);
    out := [];
    var current: seq<Path> := [];
    var currentSize := 0;
    RepackStart(files);
    for i := 0 to |paths|
      invariant WithCurrent(out, current) == AppendAll(files, [], paths[..i])
      invariant currentSize == BundleSize(files, current)
      invariant current == [] ==> i == 0 && out == []
    {
      var path := paths[i];
      assert [] + [path] == [path];
      RepackStep(files, out, current, path, paths, i);
      if currentSize >= BUNDLE_TARGET && current != [] {
        out := out + [current];
        current := [];
        currentSize := 0;
      }
      current := current + [path];
      currentSize := currentSize + |files[path]|;
    }
    assert paths[..|paths|] == paths;
    if current != [] {
      out := out + [current];
    }
  }

  ghost function WithCurrent(out: seq<seq<Path>>, current: seq<Path>): seq<seq<Path>>
  {
    if current == [] then out else out + [current]
  }

  lemma RepackStart(files: Files)
    ensures AppendAll(files, [], []) == [] && BundleSize(files, []) == 0
  {
  }

  lemma RepackStep(files: Files, out: seq<seq<Path>>, current: seq<Path>, p: Path, paths: seq<Path>, i: nat)
    requires i < |paths| && p == paths[i] && WithCurrent(out, current) == AppendAll(files, [], paths[..i])
    requires current == [] ==> out == []
    ensures var closes := BundleSize(files, current) >= BUNDLE_TARGET && current != [];
            AppendAll(files, [], paths[..i + 1]) ==
              if closes then WithCurrent(out + [current], [p]) else WithCurrent(out, current + [p])
    ensures BundleSize(files, current + [p]) == BundleSize(files, current) + |Bytes(files, p)|
    ensures BundleSize(files, [p]) == |Bytes(files, p)|
  {
    hide BundleSize;
    assert paths[..i + 1][..i] == paths[..i];
    SizeSnoc(files, current, p);
    SizeSnoc(files, [], p);
    NoSize(files);
    assert [] + [p] == [p];
    if current != [] {
      var ms := out + [current];
      assert ms[..|ms| - 1] == out;
    }
  }

  method Build(files: Files, ms: seq<seq<Path>>, h: Hash) returns (r: BundleResult)
    requires forall i, j :: 0 <= i < |ms| && 0 <= j < |ms[i]| ==> ms[i][j] in files
    ensures r == Built(files, ms, h)
  {
    hide Places, PlacesIn, MintedAll, Concat, BundleSize;
    var bundles: seq<BundleObject> := [];
    var members: map<Path, Place> := map[];
    NothingBuilt(files, h);
    for i := 0 to |ms|
      invariant bundles == MintedAll(files, ms[..i], h) && members == Places(files, ms[..i])
    {
      var bytes: seq<byte> := [];
      var b := ms[i];
      ghost var before := members;
      for j := 0 to |b|
        invariant bytes == Concat(files, b[..j])
        invariant members == before + PlacesIn(files, b[..j], i)
      {
        BuildMember(files, b, i, j, before);
        var content := files[b[j]];
        members := members[b[j] := Place(i, |bytes|, |content|)];
        bytes := bytes + content;
      }
      BuildBundle(files, ms, i, h);
      assert b[..|b|] == b;
      bundles := bundles + [BundleObject(h(bytes), bytes, b)];
    }
    assert ms[..|ms|] == ms;
    r := BundleResult(bundles, members);
  }

  lemma NothingBuilt(files: Files, h: Hash)
    ensures MintedAll(files, [], h) == [] && Places(files, []) == map[] && Concat(files, []) == []
    ensures forall i: nat :: PlacesIn(files, [], i) == map[]
  {
  }

  lemma BuildMember(files: Files, b: seq<Path>, idx: nat, j: nat, before: map<Path, Place>)
    requires j < |b|
    ensures before + PlacesIn(files, b[..j + 1], idx) ==
            (before + PlacesIn(files, b[..j], idx))[b[j] := Place(idx, |Concat(files, b[..j])|, |Bytes(files, b[j])|)]
    ensures Concat(files, b[..j + 1]) == Concat(files, b[..j]) + Bytes(files, b[j])
  {
    hide BundleSize;
    var c := b[..j + 1];
    assert c[..|c| - 1] == b[..j] && c[|c| - 1] == b[j];
    ConcatLength(files, b[..j]);
  }

  lemma BuildBundle(files: Files, ms: seq<seq<Path>>, i: nat, h: Hash)
    requires i < |ms|
    ensures MintedAll(files, ms[..i + 1], h) == MintedAll(files, ms[..i], h) + [Minted(files, ms[i], h)]
    ensures Places(files, ms[..i + 1]) == Places(files, ms[..i]) + PlacesIn(files, ms[i], i)
  {
    hide PlacesIn, Concat;
    var c := ms[..i + 1];
    assert c[..|c| - 1] == ms[..i] && c[|c| - 1] == ms[i];
  }

  /** The append loop. */
  method AppendNew(files: Files, carried: seq<seq<Path>>) returns (ms: seq<seq<Path>>)
    ensures ms == AppendAll(files, carried, InOrder(NewFiles(files, carried)))
  {
    hide AppendAll;
    var added := PathsInOrder(NewFiles(files, carried));
    ms := carried;
    NothingAdded(files, carried);
    for i := 0 to |added|
      invariant ms == AppendAll(files, carried, added[..i])
    {
      OneAdded(files, carried, added, i);
      var fitsTail := ms != [] && BundleSize(files, ms[|ms| - 1]) < BUNDLE_TARGET;
      if fitsTail {
        ms := ms[|ms| - 1 := ms[|ms| - 1] + [added[i]]];
      } else {
        ms := ms + [[added[i]]];
      }
    }
    assert added[..|added|] == added;
  }

  lemma NothingAdded(files: Files, ms: seq<seq<Path>>)
    ensures AppendAll(files, ms, []) == ms
  {
  }

  lemma OneAdded(files: Files, ms: seq<seq<Path>>, paths: seq<Path>, i: nat)
    requires i < |paths|
    ensures AppendAll(files, ms, paths[..i + 1]) == AppendOne(files, AppendAll(files, ms, paths[..i]), paths[i])
  {
    assert paths[..i + 1][..i] == paths[..i];
  }

  method AssignMembership(files: Files, prev: seq<seq<Path>>) returns (ms: seq<seq<Path>>)
    ensures ms == Assigned(files, prev)
  {
    hide Carried, AppendAll, CountSmall, NewFiles, Repacked;
    ms := AppendNew(files, Carried(files, prev));
    var n := |ms|;
    if n > 1 {
      var fragmented := CountSmall(files, ms[..n - 1]);
      if fragmented > Max(n / 4, 2) {
        ms := Repack(files);
      }
    }
  }

  /**
   * Assign `files` to bundles, carrying `prev` forward. Whatever the previous membership, every file is recorded where
   * its bytes are; for one without duplicates that is its only place; and fragmentation is bounded.
   */
  method Assign(files: Files, prev: seq<seq<Path>>, h: Hash) returns (r: BundleResult)
    ensures r == Built(files, Assigned(files, prev), h)
    ensures IsAssignment(files, prev, MembersOf(r))
    ensures forall b :: b in r.bundles ==> b.id == h(b.bytes) && b.bytes == Concat(files, b.members)
    ensures BytesInPlace(files, r)
    ensures NoDuplicates(Flat(prev)) ==> PlacedOnce(files, Assigned(files, prev))
    ensures FewSmall(files, Assigned(files, prev))
  {
    hide Assigned, Fragmented, Flat, Places, Concat, NoDuplicates, PlacedOnce, BytesInPlace, IsAssignment, FewSmall;
    var ms := AssignMembership(files, prev);
    MembersExist(files, prev);
    r := Build(files, ms, h);
    FragmentationBounded(files, prev);
    AssignmentIff(files, prev, ms);
    assert MembersOf(r) == ms;
    if NoDuplicates(Flat(prev)) {
      DuplicateFreePlacedOnce(files, prev);
    }
    AssignmentPlacesAll(files, prev, h);
  }

  /** The memberships of the bundles. */
  function MembersOf(r: BundleResult): (ms: seq<seq<Path>>)
    ensures |ms| == |r.bundles| && forall i :: 0 <= i < |ms| ==> ms[i] == r.bundles[i].members
  {
    seq(|r.bundles|, i requires 0 <= i < |r.bundles| => r.bundles[i].members)
  }

  lemma MembersExist(files: Files, prev: seq<seq<Path>>)
    ensures var ms := Assigned(files, prev);
            forall i, j :: 0 <= i < |ms| && 0 <= j < |ms[i]| ==> ms[i][j] in files
  {
    hide Assigned, Flat;
    var ms := Assigned(files, prev);
    forall i, j | 0 <= i < |ms| && 0 <= j < |ms[i]|
      ensures ms[i][j] in files
    {
      InFlat(ms, i, j);
      AssignedFlat(files, prev, ms[i][j]);
    }
  }
}
