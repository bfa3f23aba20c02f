/** The files root as it is computed: the levels one after the other. */
module FilesMerkleOps {
  import opened Prelude
  import opened Sorting
  import opened Unicode
  import opened KeyOrder
  import opened FilesMerkle
  import opened FilesMerkleForm

  method NextLevelOf(level: seq<Digest>, h: Hash) returns (next: seq<Digest>)
    requires |level| > 1
    ensures next == NextLevel(level, h)
  {
    next := [];
    var i := 0;
    while i < |level|
      invariant 0 <= i <= |level| && next + NextLevel(level[i..], h) == NextLevel(level, h)
      decreases |level| - i
    {
      if i + 1 < |level| {
        assert level[i..][2..] == level[i + 2..];
        assert NextLevel(level[i..], h) == [h(NodeInput(level[i], level[i + 1]))] + NextLevel(level[i + 2..], h);
        next := next + [h(NodeInput(level[i], level[i + 1]))];
        i := i + 2;
      } else {
        assert level[i..] == [level[i]];
        assert NextLevel(level[i + 1..], h) == [];
        next := next + [level[i]];
        i := i + 1;
      }
    }
    assert level[i..] == [] && next + [] == next;
  }

  method FilesMerkleRoot(entries: map<Path, FileRef>, h: Hash) returns (root: Digest)
    ensures root == MerkleRoot(entries, h) && IsFilesRoot(entries, h, root)
  {
    RootIs(entries, h);
    hide LeafInput, NextLevel, Increasing, IsFilesRoot;
    var paths := SortKeys(entries.Keys);
    IncreasingUnique(paths, Paths(entries));
    var level := Hashes(InputsAlong(entries, paths), h);
    assert level == Hashes(LeafInputs(entries), h);
    if level == [] {
      return ZERO_DIGEST;
    }
    ghost var start := level;
    while |level| > 1
      invariant level != [] && RootOfLevel(level, h) == RootOfLevel(start, h)
      decreases |level|
    {
      level := NextLevelOf(level, h);
    }
    return level[0];
  }
}
