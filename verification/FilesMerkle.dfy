/**
 * The files Merkle root. The levels the program computes are those of a binary tree whose odd nodes are promoted; two
 * different entry maps with one root yield two different inputs, one hashed for each map, with the same digest.
 */
module FilesMerkle {
  import opened Prelude
  import opened Lex
  import opened Sorting
  import opened Unicode
  import opened KeyOrder

  datatype FileRef = FileRef(b3: Digest, size: u64)

  /** `n` in `k` little-endian bytes. */
  function LittleEndian(n: nat, k: nat): (s: seq<byte>)
    ensures |s| == k
  {
    if k == 0 then [] else [n % 256] + LittleEndian(n / 256, k - 1)
  }

  lemma {:induction false} LittleEndianUnique(m: nat, n: nat, k: nat)
    requires LittleEndian(m, k) == LittleEndian(n, k) && m < Power256(k) && n < Power256(k)
    ensures m == n
  {
    if k > 0 {
      assert LittleEndian(m, k)[0] == LittleEndian(n, k)[0];
      assert LittleEndian(m, k)[1..] == LittleEndian(m / 256, k - 1);
      assert LittleEndian(n, k)[1..] == LittleEndian(n / 256, k - 1);
      LittleEndianUnique(m / 256, n / 256, k - 1);
    }
  }

  function Power256(k: nat): nat { if k == 0 then 1 else 256 * Power256(k - 1) }

  /** What is hashed for one file. The length is cut to 32 bits. */
  function LeafInput(path: Path, f: FileRef): (s: seq<byte>)
  {
    var p := Utf8String(path);
    [0] + LittleEndian(|p| % 0x1_0000_0000, 4) + p + f.b3 + LittleEndian(f.size, 8)
  }

  function NodeInput(left: Digest, right: Digest): (s: seq<byte>) { [1] + left + right }

  /** Nothing is lost in a leaf input: the digest and the size are its last 40 bytes. */
  lemma LeafInputUnique(p: Path, f: FileRef, q: Path, g: FileRef)
    requires LeafInput(p, f) == LeafInput(q, g)
    ensures p == q && f == g
  {
    hide Utf8String, LittleEndian;
    var s, a, b := LeafInput(p, f), Utf8String(p), Utf8String(q);
    assert |a| == |b| == |s| - 45;
    assert a == s[5..5 + |a|] == b;
    assert f.b3 == s[5 + |a|..37 + |a|] == g.b3;
    assert LittleEndian(f.size, 8) == s[37 + |a|..] == LittleEndian(g.size, 8);
    SizeUnique(f.size, g.size);
    Utf8Order(p, q);
  }

  lemma SizeUnique(m: u64, n: u64)
    requires LittleEndian(m, 8) == LittleEndian(n, 8)
    ensures m == n
  {
    assert Power256(8) == U64_MAX + 1;
    LittleEndianUnique(m, n, 8);
  }

  lemma NodeInputUnique(a: Digest, b: Digest, c: Digest, d: Digest)
    requires NodeInput(a, b) == NodeInput(c, d)
    ensures a == c && b == d
  {
    var s := NodeInput(a, b);
    assert a == s[1..33] == c;
    assert b == s[33..] == d;
  }

  // ---- what the program computes ----

  ghost function Paths(entries: map<Path, FileRef>): (r: seq<Path>)
    ensures Increasing(r) && forall k :: k in r <==> k in entries
  {
    var all: seq<seq<int>> := Ordered(entries.Keys);
    assert forall i :: 0 <= i < |all| ==> all[i] in entries.Keys;
    all
  }

  ghost function LeafInputs(entries: map<Path, FileRef>): (r: seq<seq<byte>>)
    ensures |r| == |Paths(entries)|
    ensures forall i :: 0 <= i < |r| ==> r[i] == LeafInput(Paths(entries)[i], entries[Paths(entries)[i]])
  {
    InputsAlong(entries, Paths(entries))
  }

  function InputsAlong(entries: map<Path, FileRef>, paths: seq<Path>): (r: seq<seq<byte>>)
    requires forall p :: p in paths ==> p in entries
    ensures |r| == |paths| && forall i :: 0 <= i < |r| ==> r[i] == LeafInput(paths[i], entries[paths[i]])
  {
    seq(|paths|, i requires 0 <= i < |paths| => LeafInput(paths[i], entries[paths[i]]))
  }

  /** Pairs are hashed, an odd last node is carried up unhashed. */
  function NextLevel(level: seq<Digest>, h: Hash): (r: seq<Digest>)
    ensures |r| == (|level| + 1) / 2
  {
    if |level| < 2 then level else [h(NodeInput(level[0], level[1]))] + NextLevel(level[2..], h)
  }

  function RootOfLevel(level: seq<Digest>, h: Hash): (r: Digest)
    requires level != []
    decreases |level|
  {
    if |level| == 1 then level[0] else RootOfLevel(NextLevel(level, h), h)
  }

  function Hashes(inputs: seq<seq<byte>>, h: Hash): (r: seq<Digest>)
    ensures |r| == |inputs| && forall i :: 0 <= i < |r| ==> r[i] == h(inputs[i])
  {
    seq(|inputs|, i requires 0 <= i < |inputs| => h(inputs[i]))
  }

  ghost function MerkleRoot(entries: map<Path, FileRef>, h: Hash): (r: Digest)
  {
    if LeafInputs(entries) == [] then ZERO_DIGEST else RootOfLevel(Hashes(LeafInputs(entries), h), h)
  }

  // ---- the tree behind the levels ----

  datatype Tree = Leaf(input: seq<byte>) | Node(left: Tree, right: Tree)

  function Input(t: Tree, h: Hash): (s: seq<byte>)
  {
    match t
    case Leaf(input) => input
    case Node(l, r) => NodeInput(h(Input(l, h)), h(Input(r, h)))
  }

  /** Everything hashed for a tree. */
  function Inputs(t: Tree, h: Hash): (s: set<seq<byte>>)
  {
    {Input(t, h)} + match t case Leaf(_) => {} case Node(l, r) => Inputs(l, h) + Inputs(r, h)
  }

  function Leaves(t: Tree): (r: seq<seq<byte>>)
  {
    match t
    case Leaf(input) => [input]
    case Node(l, r) => Leaves(l) + Leaves(r)
  }

  /** Leaves are tagged 0. */
  ghost predicate Tagged(t: Tree)
  {
    match t
    case Leaf(input) => input != [] && input[0] == 0
    case Node(l, r) => Tagged(l) && Tagged(r)
  }

  function Paired(level: seq<Tree>): (r: seq<Tree>)
    ensures |r| == (|level| + 1) / 2
  {
    if |level| < 2 then level else [Node(level[0], level[1])] + Paired(level[2..])
  }

  function TreeOf(level: seq<Tree>): (r: Tree)
    requires level != []
    decreases |level|
  {
    if |level| == 1 then level[0] else TreeOf(Paired(level))
  }

  function AllLeaves(level: seq<Tree>): (r: seq<seq<byte>>)
  {
    if level == [] then [] else Leaves(level[0]) + AllLeaves(level[1..])
  }

  function Digests(level: seq<Tree>, h: Hash): (r: seq<Digest>)
    ensures |r| == |level| && forall i :: 0 <= i < |r| ==> r[i] == h(Input(level[i], h))
  {
    seq<Digest>(|level|, i requires 0 <= i < |level| => h(Input(level[i], h)))
  }

  function AsLeaves(inputs: seq<seq<byte>>): (r: seq<Tree>)
    ensures |r| == |inputs| && forall i :: 0 <= i < |r| ==> r[i] == Leaf(inputs[i])
  {
    seq(|inputs|, i requires 0 <= i < |inputs| => Leaf(inputs[i]))
  }

  lemma {:induction false} PairedDigests(level: seq<Tree>, h: Hash)
    ensures Digests(Paired(level), h) == NextLevel(Digests(level, h), h)
  {
    hide Input;
    if |level| >= 2 {
      PairedDigests(level[2..], h);
      assert Digests(level, h)[2..] == Digests(level[2..], h);
      assert Digests(Paired(level), h)[0] == h(NodeInput(Digests(level, h)[0], Digests(level, h)[1])) by {
        PairInput(level[0], level[1], h);
      }
      assert Digests(Paired(level), h)[1..] == Digests(Paired(level[2..]), h);
    }
  }

  lemma PairInput(l: Tree, r: Tree, h: Hash)
    ensures Input(Node(l, r), h) == NodeInput(h(Input(l, h)), h(Input(r, h)))
  {
  }

  /** The root the program computes is the digest of the tree. */
  lemma {:induction false} RootIsTree(level: seq<Tree>, h: Hash)
    requires level != []
    ensures RootOfLevel(Digests(level, h), h) == h(Input(TreeOf(level), h))
    decreases |level|
  {
    hide Input;
    if |level| > 1 {
      PairedDigests(level, h);
      RootIsTree(Paired(level), h);
    }
  }

  lemma {:induction false} PairedLeaves(level: seq<Tree>)
    ensures AllLeaves(Paired(level)) == AllLeaves(level)
  {
    if |level| >= 2 {
      PairedLeaves(level[2..]);
      assert level[1..][1..] == level[2..];
      assert Paired(level)[1..] == Paired(level[2..]);
      var a, b, rest := Leaves(level[0]), Leaves(level[1]), AllLeaves(level[2..]);
      assert (a + b) + rest == a + (b + rest);
    }
  }

  lemma {:induction false} TreeLeaves(level: seq<Tree>)
    requires level != []
    ensures Leaves(TreeOf(level)) == AllLeaves(level)
    decreases |level|
  {
    if |level| == 1 {
      assert level[1..] == [];
      assert AllLeaves(level) == Leaves(level[0]) + [];
    } else {
      PairedLeaves(level);
      TreeLeaves(Paired(level));
    }
  }

  lemma {:induction false} LeavesOfLeaves(inputs: seq<seq<byte>>)
    ensures AllLeaves(AsLeaves(inputs)) == inputs
  {
    if inputs != [] {
      LeavesOfLeaves(inputs[1..]);
      assert AsLeaves(inputs)[1..] == AsLeaves(inputs[1..]);
      assert inputs == [inputs[0]] + inputs[1..];
    }
  }

  lemma {:induction false} PairedTagged(level: seq<Tree>)
    requires forall i :: 0 <= i < |level| ==> Tagged(level[i])
    ensures forall i :: 0 <= i < |Paired(level)| ==> Tagged(Paired(level)[i])
  {
    if |level| >= 2 {
      PairedTagged(level[2..]);
    }
  }

  lemma {:induction false} TreeTagged(level: seq<Tree>)
    requires level != [] && forall i :: 0 <= i < |level| ==> Tagged(level[i])
    ensures Tagged(TreeOf(level))
    decreases |level|
  {
    if |level| > 1 {
      PairedTagged(level);
      TreeTagged(Paired(level));
    }
  }

  /** Different trees with one digest: two different inputs, one from each, with one digest. */
  lemma {:induction false} TreesCollide(s: Tree, t: Tree, h: Hash) returns (x: seq<byte>, y: seq<byte>)
    requires Tagged(s) && Tagged(t) && s != t && h(Input(s, h)) == h(Input(t, h))
    ensures x in Inputs(s, h) && y in Inputs(t, h) && x != y && h(x) == h(y)
    decreases s
  {
    x, y := Input(s, h), Input(t, h);
    if x == y {
      if s.Node? && t.Node? {
        NodeInputUnique(h(Input(s.left, h)), h(Input(s.right, h)), h(Input(t.left, h)), h(Input(t.right, h)));
        if s.left != t.left {
          x, y := TreesCollide(s.left, t.left, h);
        } else {
          x, y := TreesCollide(s.right, t.right, h);
        }
      }
    }
  }

  // ---- entry maps ----

  ghost function EntryTree(entries: map<Path, FileRef>): (t: Tree)
    requires LeafInputs(entries) != []
  {
    TreeOf(AsLeaves(LeafInputs(entries)))
  }

  /** Everything hashed for a map. */
  ghost function EntryInputs(entries: map<Path, FileRef>, h: Hash): (s: set<seq<byte>>)
  {
    if LeafInputs(entries) == [] then {} else Inputs(EntryTree(entries), h)
  }

  lemma EntryTreeIs(entries: map<Path, FileRef>, h: Hash)
    requires LeafInputs(entries) != []
    ensures MerkleRoot(entries, h) == h(Input(EntryTree(entries), h))
    ensures Leaves(EntryTree(entries)) == LeafInputs(entries) && Tagged(EntryTree(entries))
  {
    hide LeafInput, TreeOf, RootOfLevel, Input;
    var inputs := LeafInputs(entries);
    var level := AsLeaves(inputs);
    RootIsTree(level, h);
    assert Digests(level, h) == Hashes(inputs, h) by { LeafDigests(inputs, h); }
    TreeLeaves(level);
    LeavesOfLeaves(inputs);
    forall i | 0 <= i < |level|
      ensures Tagged(level[i])
    {
      LeafTagged(Paths(entries)[i], entries[Paths(entries)[i]]);
    }
    TreeTagged(level);
  }

  lemma LeafTagged(path: Path, f: FileRef)
    ensures LeafInput(path, f) != [] && LeafInput(path, f)[0] == 0
  {
  }

  lemma LeafDigests(inputs: seq<seq<byte>>, h: Hash)
    ensures Digests(AsLeaves(inputs), h) == Hashes(inputs, h)
  {
  }

  lemma LeavesBind(e: map<Path, FileRef>, f: map<Path, FileRef>)
    requires LeafInputs(e) == LeafInputs(f)
    ensures e == f
  {
    hide LeafInput, LeafInputs, Paths;
    LeavesBindOne(e, f);
    LeavesBindOne(f, e);
    assert e.Keys == f.Keys;
  }

  lemma LeavesBindOne(e: map<Path, FileRef>, f: map<Path, FileRef>)
    requires LeafInputs(e) == LeafInputs(f)
    ensures forall p :: p in e ==> p in f && e[p] == f[p]
  {
    hide LeafInput;
    forall p | p in e
      ensures p in f && e[p] == f[p]
    {
      assert p in Paths(e);
      var i :| 0 <= i < |Paths(e)| && Paths(e)[i] == p;
      var q := Paths(f)[i];
      assert LeafInputs(e)[i] == LeafInputs(f)[i];
      LeafInputUnique(p, e[p], q, f[q]);
    }
  }

  /**
   * The root binds the whole entry set: from two different maps with one root come two different hashed inputs with
   * one digest, or, when one map is empty, an input of the other that hashes to zeros.
   */
  lemma RootBinds(e: map<Path, FileRef>, f: map<Path, FileRef>, h: Hash) returns (x: seq<byte>, y: seq<byte>)
    requires e != f && MerkleRoot(e, h) == MerkleRoot(f, h)
    ensures e != map[] && f != map[] ==> x in EntryInputs(e, h) && y in EntryInputs(f, h) && x != y && h(x) == h(y)
    ensures e == map[] ==> y in EntryInputs(f, h) && h(y) == ZERO_DIGEST
    ensures f == map[] ==> x in EntryInputs(e, h) && h(x) == ZERO_DIGEST
  {
    hide LeafInput, LeafInputs, TreeOf, RootOfLevel, Input, Inputs, Leaves;
    x, y := [], [];
    EmptyInputs(e);
    EmptyInputs(f);
    if e == map[] {
      EntryTreeIs(f, h);
      y := Input(EntryTree(f), h);
      RootHashed(EntryTree(f), h);
    } else if f == map[] {
      EntryTreeIs(e, h);
      x := Input(EntryTree(e), h);
      RootHashed(EntryTree(e), h);
    } else {
      EntryTreeIs(e, h);
      EntryTreeIs(f, h);
      if EntryTree(e) == EntryTree(f) {
        LeavesBind(e, f);
      }
      x, y := TreesCollide(EntryTree(e), EntryTree(f), h);
    }
  }

  lemma RootHashed(t: Tree, h: Hash)
    ensures Input(t, h) in Inputs(t, h)
  {
  }

  lemma EmptyInputs(e: map<Path, FileRef>)
    ensures LeafInputs(e) == [] <==> e == map[]
  {
    hide LeafInput;
    if e != map[] {
      var p :| p in e;
      assert p in Paths(e);
    }
  }
}
