/**
 * The files root against its definition: the byte layout of a leaf, and the tree of section 2.1 of RFC 6962, which splits
 * at the largest power of two below the number of leaves.
 */
module FilesMerkleForm {
  import opened Prelude
  import opened Lex
  import opened Sorting
  import opened Unicode
  import opened FilesMerkle

  // ---- leaves ----

  /** The number that bytes spell, the lowest first. */
  function ReadLittle(s: seq<byte>): (n: nat)
  {
    if s == [] then 0 else s[0] + 256 * ReadLittle(s[1..])
  }

  lemma {:induction false} LittleReads(n: nat, k: nat)
    ensures Power256(k) > 0 && ReadLittle(LittleEndian(n, k)) == n % Power256(k)
  {
    if k > 0 {
      LittleReads(n / 256, k - 1);
      assert LittleEndian(n, k)[1..] == LittleEndian(n / 256, k - 1);
      ModStep(n, Power256(k - 1));
    }
  }

  lemma ModStep(n: nat, m: nat)
    requires m > 0
    ensures n % 256 + 256 * ((n / 256) % m) == n % (256 * m)
  {
    var q, r := n / 256 / m, (n / 256) % m;
    assert n / 256 == q * m + r;
    assert n == 256 * (q * m + r) + n % 256;
    assert 256 * (q * m) == q * (256 * m);
    Remainder(n, 256 * m, q, 256 * r + n % 256);
  }

  lemma Remainder(n: nat, m: nat, q: nat, r: nat)
    requires m > 0 && r < m && n == q * m + r
    ensures n % m == r
  {
    var a := n / m - q;
    assert n == (n / m) * m + n % m;
    assert a * m == r - n % m;
    assert a >= 1 ==> a * m >= m;
    assert a <= -1 ==> a * m + m <= 0;
  }

  /**
   * A leaf is a zero byte, the length of the path in 32 bits, its UTF-8 bytes, the 32 bytes of the root and the size in
   * 64 bits, both numbers lowest byte first.
   */
  ghost predicate IsLeaf(s: seq<byte>, path: Path, f: FileRef)
  {
    var n := |Utf8String(path)|;
    && |s| == n + 45 && s[0] == 0 && ReadLittle(s[1..5]) == n % 0x1_0000_0000 && s[5..5 + n] == Utf8String(path)
    && s[5 + n..37 + n] == f.b3 && ReadLittle(s[37 + n..]) == f.size
  }

  lemma LeafNumbers(n: nat, size: u64)
    ensures ReadLittle(LittleEndian(n % 0x1_0000_0000, 4)) == n % 0x1_0000_0000
    ensures ReadLittle(LittleEndian(size, 8)) == size
  {
    LittleReads(n % 0x1_0000_0000, 4);
    LittleReads(size, 8);
    hide LittleEndian, ReadLittle;
    assert Power256(4) == 0x1_0000_0000;
    assert Power256(8) == U64_MAX + 1;
  }

  lemma LeafIs(path: Path, f: FileRef)
    ensures IsLeaf(LeafInput(path, f), path, f)
  {
    hide Utf8String, LittleEndian, ReadLittle;
    var p := Utf8String(path);
    LeafNumbers(|p|, f.size);
    LeafSlices(LittleEndian(|p| % 0x1_0000_0000, 4), p, f.b3, LittleEndian(f.size, 8));
  }

  lemma LeafSlices(len: seq<byte>, p: seq<byte>, b3: Digest, size: seq<byte>)
    requires |len| == 4 && |size| == 8
    ensures var s := [0] + len + p + b3 + size;
            && |s| == |p| + 45 && s[0] == 0 && s[1..5] == len && s[5..5 + |p|] == p
            && s[5 + |p|..37 + |p|] == b3 && s[37 + |p|..] == size
  {
  }

  // ---- the tree ----

  predicate IsPow2(k: nat) { k == 1 || (k > 1 && k % 2 == 0 && IsPow2(k / 2)) }

  /** The largest power of two below `n`. */
  function Split(n: nat): (k: nat)
    requires n >= 2
  {
    if n == 2 then 1 else 2 * Split((n + 1) / 2)
  }

  lemma {:induction false} SplitIs(n: nat)
    requires n >= 2
    ensures IsPow2(Split(n)) && Split(n) < n <= 2 * Split(n)
    ensures forall k: nat :: IsPow2(k) && k < n <= 2 * k ==> k == Split(n)
  {
    if n > 2 {
      SplitIs((n + 1) / 2);
      forall k: nat | IsPow2(k) && k < n <= 2 * k
        ensures k == Split(n)
      {
        var j: nat := k / 2;
        assert IsPow2(j) && j < (n + 1) / 2 <= 2 * j;
      }
    }
  }

  lemma SplitWithin(n: nat)
    requires n >= 2
    ensures 0 < Split(n) < n
  {
    SplitIs(n);
  }

  /** The tree hash: the hashes of the two parts behind a byte one; a single one is itself. */
  function TreeHash(level: seq<Digest>, h: Hash): (r: Digest)
    requires level != []
    decreases |level|
  {
    if |level| == 1 then level[0]
    else
      SplitWithin(|level|);
      var k := Split(|level|);
      h([1] + TreeHash(level[..k], h) + TreeHash(level[k..], h))
  }

  lemma {:induction false} LevelSplits(a: seq<Digest>, b: seq<Digest>, h: Hash)
    requires |a| % 2 == 0
    ensures NextLevel(a + b, h) == NextLevel(a, h) + NextLevel(b, h)
    decreases |a|
  {
    if a == [] {
      assert a + b == b;
    } else {
      hide NextLevel;
      LevelSplits(a[2..], b, h);
      assert (a + b)[2..] == a[2..] + b;
      FirstPair(a, h);
      FirstPair(a + b, h);
    }
  }

  lemma FirstPair(level: seq<Digest>, h: Hash)
    requires |level| >= 2
    ensures NextLevel(level, h) == [h(NodeInput(level[0], level[1]))] + NextLevel(level[2..], h)
  {
  }

  /** Hashing pairs first makes no difference to the tree hash. */
  lemma {:induction false} PairsFirst(level: seq<Digest>, h: Hash)
    requires |level| >= 2
    ensures NextLevel(level, h) != [] && TreeHash(level, h) == TreeHash(NextLevel(level, h), h)
    decreases |level|
  {
    var n, k := |level|, Split(|level|);
    SplitIs(n);
    if n == 2 {
      assert level[..1] == [level[0]] && level[1..] == [level[1]] && level[2..] == [];
      assert NextLevel(level, h) == [h(NodeInput(level[0], level[1]))];
    } else {
      var a, b := level[..k], level[k..];
      assert level == a + b;
      LevelSplits(a, b, h);
      var next := NextLevel(level, h);
      assert Split(|next|) == k / 2;
      assert next[..k / 2] == NextLevel(a, h) && next[k / 2..] == NextLevel(b, h);
      hide NextLevel;
      PairsFirst(a, h);
      if |b| >= 2 {
        PairsFirst(b, h);
      } else {
        LoneLevel(b, h);
      }
    }
  }

  lemma LoneLevel(b: seq<Digest>, h: Hash)
    requires |b| == 1
    ensures NextLevel(b, h) == b
  {
  }

  /** Level by level, with odd nodes promoted, gives the tree hash. */
  lemma {:induction false} LevelsAreTree(level: seq<Digest>, h: Hash)
    requires level != []
    ensures RootOfLevel(level, h) == TreeHash(level, h)
    decreases |level|
  {
    if |level| > 1 {
      PairsFirst(level, h);
      LevelsAreTree(NextLevel(level, h), h);
    }
  }

  /**
   * The files root: 32 zero bytes for no files, and otherwise the tree hash of the hashes of the leaves, one for each
   * file in path order.
   */
  ghost predicate IsFilesRoot(entries: map<Path, FileRef>, h: Hash, root: Digest)
  {
    if entries == map[] then root == seq(32, _ => 0)
    else
      exists paths: seq<Path>, leaves: seq<Digest> ::
        && Increasing(paths) && (forall p :: p in paths <==> p in entries) && LeavesOf(entries, h, paths, leaves)
        && leaves != [] && root == TreeHash(leaves, h)
  }

  ghost predicate LeavesOf(entries: map<Path, FileRef>, h: Hash, paths: seq<Path>, leaves: seq<Digest>)
  {
    && |leaves| == |paths| && (forall p :: p in paths ==> p in entries)
    && forall i :: 0 <= i < |leaves| ==> exists s :: IsLeaf(s, paths[i], entries[paths[i]]) && leaves[i] == h(s)
  }

  lemma RootIs(entries: map<Path, FileRef>, h: Hash)
    ensures IsFilesRoot(entries, h, MerkleRoot(entries, h))
  {
    hide LeafInput, TreeHash, RootOfLevel, IsLeaf;
    var paths, inputs := Paths(entries), LeafInputs(entries);
    if entries == map[] {
      IncreasingUnique(paths, []);
      assert ZERO_DIGEST == seq(32, _ => 0);
    } else {
      var p :| p in entries;
      assert p in paths;
      var leaves := Hashes(inputs, h);
      LevelsAreTree(leaves, h);
      forall i | 0 <= i < |leaves|
        ensures exists s :: IsLeaf(s, paths[i], entries[paths[i]]) && leaves[i] == h(s)
      {
        LeafIs(paths[i], entries[paths[i]]);
      }
      assert LeavesOf(entries, h, paths, leaves);
    }
  }
}
