/** Merkle inclusion proofs over SHA-256 trees of any depth. */
module ChainMerkle {
  import opened Prelude
  import opened Arithmetic
  import opened Hex

  datatype Outcome = Verdict(ok: bool) | BadLeaf | BadSibling(k: nat)

  function Pow2(d: nat): (n: nat)
    ensures n > 0
  {
    if d == 0 then 1 else 2 * Pow2(d - 1)
  }

  /** One level: the current hash goes left for an even index, right for an odd one. */
  function Pair(current: seq<byte>, sibling: seq<byte>, odd: bool): (r: seq<byte>)
  {
    if odd then sibling + current else current + sibling
  }

  function IsOdd(index: nat, level: nat): (odd: bool) { (index / Pow2(level)) % 2 == 1 }

  /** The hash reached from `leaf` after all siblings. */
  function Climb(leaf: seq<byte>, index: nat, siblings: seq<seq<byte>>, sha: Hash): (r: seq<byte>)
    decreases |siblings|, 1
  {
    if siblings == [] then leaf else sha(TopInput(leaf, index, siblings, sha))
  }

  /** What is hashed last on the way up. */
  function TopInput(leaf: seq<byte>, index: nat, siblings: seq<seq<byte>>, sha: Hash): (r: seq<byte>)
    requires siblings != []
    decreases |siblings|, 0
  {
    var k := |siblings| - 1;
    Pair(Climb(leaf, index, siblings[..k], sha), siblings[k], IsOdd(index, k))
  }

  /** Everything hashed on the way up. */
  function ClimbInputs(leaf: seq<byte>, index: nat, siblings: seq<seq<byte>>, sha: Hash): (r: set<seq<byte>>)
  {
    if siblings == [] then {}
    else {TopInput(leaf, index, siblings, sha)} + ClimbInputs(leaf, index, siblings[..|siblings| - 1], sha)
  }

  // ---- the tree ----

  function Root(leaves: seq<Digest>, d: nat, sha: Hash): (r: Digest)
    requires |leaves| == Pow2(d)
    decreases d, 1
  {
    if d == 0 then leaves[0] else sha(RootInput(leaves, d, sha))
  }

  function RootInput(leaves: seq<Digest>, d: nat, sha: Hash): (r: seq<byte>)
    requires d > 0 && |leaves| == Pow2(d)
    decreases d, 0
  {
    var half := Pow2(d - 1);
    Root(leaves[..half], d - 1, sha) + Root(leaves[half..], d - 1, sha)
  }

  /** Everything hashed in the tree. */
  function TreeInputs(leaves: seq<Digest>, d: nat, sha: Hash): (r: set<seq<byte>>)
    requires |leaves| == Pow2(d)
  {
    if d == 0 then {}
    else
      var half := Pow2(d - 1);
      {RootInput(leaves, d, sha)} + TreeInputs(leaves[..half], d - 1, sha) + TreeInputs(leaves[half..], d - 1, sha)
  }

  /** The half of the tree on the way to a leaf, and the other one. */
  function Toward(leaves: seq<Digest>, d: nat, index: nat): (r: seq<Digest>)
    requires d > 0 && |leaves| == Pow2(d)
    ensures |r| == Pow2(d - 1)
  {
    if IsOdd(index, d - 1) then leaves[Pow2(d - 1)..] else leaves[..Pow2(d - 1)]
  }

  function Away(leaves: seq<Digest>, d: nat, index: nat): (r: seq<Digest>)
    requires d > 0 && |leaves| == Pow2(d)
    ensures |r| == Pow2(d - 1)
  {
    if IsOdd(index, d - 1) then leaves[..Pow2(d - 1)] else leaves[Pow2(d - 1)..]
  }

  /** The honest siblings of a leaf, bottom to top. */
  function Siblings(leaves: seq<Digest>, d: nat, index: nat, sha: Hash): (r: seq<Digest>)
    requires |leaves| == Pow2(d)
    ensures |r| == d
  {
    if d == 0 then [] else Siblings(Toward(leaves, d, index), d - 1, index, sha) + [Root(Away(leaves, d, index), d - 1, sha)]
  }

  lemma SplitIndex(i: nat, m: nat)
    requires m > 0
    ensures i % (2 * m) == (if (i / m) % 2 == 1 then m else 0) + i % m
  {
    var q, r := i / m, i % m;
    var b := q % 2;
    assert i == q * m + r && q == 2 * (q / 2) + b;
    assert i == (q / 2) * (2 * m) + (b * m + r) by {
      assert q * m == (2 * (q / 2) + b) * m == (q / 2) * (2 * m) + b * m;
    }
    assert b == 0 || b == 1;
    assert 0 <= b * m + r < 2 * m;
    QuotientIs(i, 2 * m, q / 2);
  }

  /** The leaf an index names in a tree of depth `d`: higher bits of the index do not matter. */
  function LeafAt(leaves: seq<Digest>, d: nat, index: nat): (r: Digest)
    requires |leaves| == Pow2(d)
  {
    leaves[index % Pow2(d)]
  }

  lemma LeafToward(leaves: seq<Digest>, d: nat, index: nat)
    requires d > 0 && |leaves| == Pow2(d)
    ensures LeafAt(leaves, d, index) == LeafAt(Toward(leaves, d, index), d - 1, index)
  {
    var m := Pow2(d - 1);
    SplitIndex(index, m);
    assert index % Pow2(d) == index % (2 * m);
  }

  /** The honest path of any leaf climbs to the root. */
  lemma {:induction false} HonestClimb(leaves: seq<Digest>, d: nat, index: nat, sha: Hash)
    requires |leaves| == Pow2(d)
    ensures Climb(LeafAt(leaves, d, index), index, Siblings(leaves, d, index, sha), sha) == Root(leaves, d, sha)
  {
    if d == 0 {
      assert index % 1 == 0;
    } else {
      hide LeafAt, Pow2, IsOdd;
      LeafToward(leaves, d, index);
      var siblings := Siblings(leaves, d, index, sha);
      assert siblings[..d - 1] == Siblings(Toward(leaves, d, index), d - 1, index, sha);
      HonestClimb(Toward(leaves, d, index), d - 1, index, sha);
    }
  }

  lemma ClimbLength(leaf: seq<byte>, index: nat, siblings: seq<seq<byte>>, sha: Hash)
    requires |leaf| == 32
    ensures |Climb(leaf, index, siblings, sha)| == 32
  {
  }

  /**
   * A path of the tree's depth that climbs to the root from a 32-byte hash starts at the leaf of its index, or shows
   * two different inputs, one hashed by the check and one hashed in the tree, with one digest.
   */
  lemma {:induction false} ClimbSound(leaf: seq<byte>, leaves: seq<Digest>, d: nat, index: nat, siblings: seq<seq<byte>>, sha: Hash)
    returns (x: seq<byte>, y: seq<byte>)
    requires |leaf| == 32 && |leaves| == Pow2(d) && |siblings| == d
    requires Climb(leaf, index, siblings, sha) == Root(leaves, d, sha)
    ensures leaf == LeafAt(leaves, d, index) ||
            (x in ClimbInputs(leaf, index, siblings, sha) && y in TreeInputs(leaves, d, sha) && x != y && sha(x) == sha(y))
  {
    x, y := [], [];
    if d == 0 {
      assert index % 1 == 0;
    } else {
      hide LeafAt, Pow2, IsOdd;
      x, y := TopInput(leaf, index, siblings, sha), RootInput(leaves, d, sha);
      if x == y {
        LeafToward(leaves, d, index);
        var front := siblings[..d - 1];
        ClimbLength(leaf, index, front, sha);
        var c := Climb(leaf, index, front, sha);
        var l, r := Root(leaves[..Pow2(d - 1)], d - 1, sha), Root(leaves[Pow2(d - 1)..], d - 1, sha);
        SamePair(c, siblings[d - 1], IsOdd(index, d - 1), l, r);
        x, y := ClimbSound(leaf, Toward(leaves, d, index), d - 1, index, front, sha);
      }
    }
  }

  lemma SamePair(c: seq<byte>, s: seq<byte>, odd: bool, l: Digest, r: Digest)
    requires |c| == 32 && Pair(c, s, odd) == l + r
    ensures c == if odd then r else l
  {
    assert |l + r| == 64 == |c| + |s|;
    if odd {
      assert c == (s + c)[32..] == (l + r)[32..] == r;
    } else {
      assert c == (c + s)[..32] == (l + r)[..32] == l;
    }
  }

  function Joined(l: seq<byte>, r: seq<byte>): (s: seq<byte>)
    ensures |s| == |l| + |r|
  {
    l + r
  }

  /**
   * The length of the leaf hash is what this rests on, and the check does not look at it: cut anywhere, the two
   * leaves of a pair pass with the cut-off part moved into the sibling.
   */
  lemma ShortLeafAccepted(leaves: seq<Digest>, cut: nat, sha: Hash)
    requires |leaves| == 2 && cut <= 64
    ensures Pow2(1) == 2
    ensures var both := Joined(leaves[0], leaves[1]);
            Climb(both[..cut], 0, [both[cut..]], sha) == Root(leaves, 1, sha) && (both[..cut] == leaves[0] <==> cut == 32)
  {
    var both := Joined(leaves[0], leaves[1]);
    assert both[..cut] + both[cut..] == both;
    assert [both[cut..]][..0] == [];
    assert leaves[..1] == [leaves[0]] && leaves[1..] == [leaves[1]];
    assert Pow2(0) == 1;
    assert !IsOdd(0, 0);
    assert TopInput(both[..cut], 0, [both[cut..]], sha) == both;
    assert RootInput(leaves, 1, sha) == both;
  }

  // ---- the check ----

  /** All the texts decode. */
  function Decoded(texts: seq<seq<byte>>): (r: Option<seq<seq<byte>>>)
  {
    if texts == [] then Some([])
    else
      var k := |texts| - 1;
      var front, last := Decoded(texts[..k]), HexDecode(texts[k]);
      if front.Some? && last.Some? then Some(front.value + [last.value]) else None
  }

  lemma {:induction false} DecodedPrefix(texts: seq<seq<byte>>, k: nat)
    requires k <= |texts| && Decoded(texts).Some?
    ensures Decoded(texts[..k]).Some? && |Decoded(texts).value| == |texts|
    ensures Decoded(texts[..k]).value == Decoded(texts).value[..k]
    decreases |texts|
  {
    if k < |texts| {
      assert texts[..|texts| - 1][..k] == texts[..k];
      DecodedPrefix(texts[..|texts| - 1], k);
    } else {
      assert texts[..k] == texts;
      if texts != [] {
        DecodedPrefix(texts[..|texts| - 1], 0);
      }
    }
  }

  /** The texts decode one by one. */
  lemma {:induction false} DecodedIff(texts: seq<seq<byte>>, path: seq<seq<byte>>)
    ensures Decoded(texts) == Some(path) <==>
              |path| == |texts| && forall i :: 0 <= i < |texts| ==> HexDecode(texts[i]) == Some(path[i])
    decreases |texts|
  {
    hide HexDecode;
    if texts != [] && path != [] {
      var k := |texts| - 1;
      DecodedIff(texts[..k], path[..|path| - 1]);
      assert path == path[..|path| - 1] + [path[|path| - 1]];
    }
  }

  /**
   * The hashes on the way up: at level `k` the one reached so far goes in front of the sibling if bit `k` of the index is
   * zero, and behind it if it is one.
   */
  ghost predicate IsClimb(leaf: seq<byte>, index: nat, path: seq<seq<byte>>, sha: Hash, hs: seq<seq<byte>>)
  {
    && |hs| == |path| + 1 && hs[0] == leaf
    && forall k :: 0 <= k < |path| ==>
         hs[k + 1] == sha(if (index / Pow2(k)) % 2 == 0 then hs[k] + path[k] else path[k] + hs[k])
  }

  lemma {:induction false} ClimbIs(leaf: seq<byte>, index: nat, path: seq<seq<byte>>, sha: Hash) returns (hs: seq<seq<byte>>)
    ensures IsClimb(leaf, index, path, sha, hs) && hs[|path|] == Climb(leaf, index, path, sha)
    decreases |path|
  {
    if path == [] {
      hs := [leaf];
    } else {
      var k := |path| - 1;
      var below := ClimbIs(leaf, index, path[..k], sha);
      hs := below + [Climb(leaf, index, path, sha)];
      forall i | 0 <= i < |path|
        ensures hs[i + 1] == sha(if (index / Pow2(i)) % 2 == 0 then hs[i] + path[i] else path[i] + hs[i])
      {
        if i < k {
          assert path[..k][i] == path[i] && hs[i + 1] == below[i + 1] && hs[i] == below[i];
        } else {
          assert i == k && hs[k] == Climb(leaf, index, path[..k], sha) && hs[k + 1] == sha(TopInput(leaf, index, path, sha));
          assert IsOdd(index, k) <==> (index / Pow2(k)) % 2 != 0;
        }
      }
    }
  }

  /** There is one way up. */
  lemma {:induction false} ClimbOnce(leaf: seq<byte>, index: nat, path: seq<seq<byte>>, sha: Hash, hs: seq<seq<byte>>, k: nat)
    requires IsClimb(leaf, index, path, sha, hs) && k <= |path|
    ensures hs[k] == Climb(leaf, index, path[..k], sha)
    decreases k
  {
    if k > 0 {
      ClimbOnce(leaf, index, path, sha, hs, k - 1);
      assert path[..k][..k - 1] == path[..k - 1];
    }
  }

  /**
   * Malformed texts are reported, the leaf before the siblings and these in order. Otherwise the verdict is whether the
   * last hash on the way up, in lower-case hexadecimal, is the expected text.
   */
  method VerifyProof(leafHash: seq<byte>, leafIndex: nat, siblings: seq<seq<byte>>, expectedRoot: seq<byte>, sha: Hash)
    returns (r: Outcome)
    ensures HexDecode(leafHash).None? <==> r == BadLeaf
    ensures r.BadSibling? ==> r.k < |siblings| && HexDecode(siblings[r.k]).None? && Decoded(siblings[..r.k]).Some?
    ensures r.Verdict? <==> HexDecode(leafHash).Some? && Decoded(siblings).Some?
    ensures r.Verdict? ==>
              (r.ok <==> HexEncode(Climb(HexDecode(leafHash).value, leafIndex, Decoded(siblings).value, sha)) == expectedRoot)
    ensures r.Verdict? ==>
              exists leaf, path, hs ::
                && HexDecode(leafHash) == Some(leaf) && |path| == |siblings|
                && (forall i :: 0 <= i < |path| ==> HexDecode(siblings[i]) == Some(path[i]))
                && IsClimb(leaf, leafIndex, path, sha, hs) && (r.ok <==> HexEncode(hs[|path|]) == expectedRoot)
  {
    hide HexDecode, HexEncode, Pow2, Climb, Decoded;
    var decoded := HexDecode(leafHash);
    if decoded.None? {
      return BadLeaf;
    }
    var current := decoded.value;
    var idx := leafIndex;
    ClimbStart(decoded.value, leafIndex, sha);
    for i := 0 to |siblings|
      invariant Decoded(siblings[..i]).Some? && |Decoded(siblings[..i]).value| == i
      invariant idx == leafIndex / Pow2(i)
      invariant current == Climb(decoded.value, leafIndex, Decoded(siblings[..i]).value, sha)
    {
      DecodedStep(siblings, i);
      var sibling := HexDecode(siblings[i]);
      if sibling.None? {
        assert Decoded(siblings).None? by {
          if Decoded(siblings).Some? { DecodedPrefix(siblings, i + 1); }
        }
        return BadSibling(i);
      }
      ClimbStep(decoded.value, leafIndex, Decoded(siblings[..i]).value, sibling.value, sha);
      var combined := if idx % 2 == 0 then current + sibling.value else sibling.value + current;
      current := sha(combined);
      HalfIndex(leafIndex, i);
      idx := idx / 2;
    }
    assert siblings[..|siblings|] == siblings;
    ghost var path := Decoded(siblings).value;
    DecodedIff(siblings, path);
    ghost var hs := ClimbIs(decoded.value, leafIndex, path, sha);
    return Verdict(HexEncode(current) == expectedRoot);
  }

  lemma ClimbStart(leaf: seq<byte>, index: nat, sha: Hash)
    ensures Pow2(0) == 1 && Decoded([]) == Some([]) && Climb(leaf, index, [], sha) == leaf
  {
  }

  lemma ClimbStep(leaf: seq<byte>, index: nat, path: seq<seq<byte>>, sibling: seq<byte>, sha: Hash)
    ensures Climb(leaf, index, path + [sibling], sha) ==
            sha(Pair(Climb(leaf, index, path, sha), sibling, IsOdd(index, |path|)))
  {
    assert (path + [sibling])[..|path|] == path;
  }

  lemma DecodedStep(texts: seq<seq<byte>>, i: nat)
    requires i < |texts| && Decoded(texts[..i]).Some?
    ensures Decoded(texts[..i + 1]) ==
            if HexDecode(texts[i]).Some? then Some(Decoded(texts[..i]).value + [HexDecode(texts[i]).value]) else None
  {
    assert texts[..i + 1][..i] == texts[..i];
  }

  lemma HalfIndex(index: nat, k: nat)
    ensures index / Pow2(k) / 2 == index / Pow2(k + 1)
  {
    var m := Pow2(k);
    var q, r := index / m, index % m;
    assert index == q * m + r;
    assert index == (q / 2) * (2 * m) + ((q % 2) * m + r) by {
      assert q * m == (2 * (q / 2) + q % 2) * m == (q / 2) * (2 * m) + (q % 2) * m;
    }
    assert (q % 2) * m + r < 2 * m;
    QuotientIs(index, 2 * m, q / 2);
  }

  /** Honest texts are accepted; an accepted 32-byte leaf hash is the tree's, or two inputs collide. */
  lemma ProofsSound(leaves: seq<Digest>, d: nat, index: nat, leafHash: seq<byte>, siblings: seq<seq<byte>>, sha: Hash)
    returns (x: seq<byte>, y: seq<byte>)
    requires |leaves| == Pow2(d) && |siblings| == d
    requires HexDecode(leafHash).Some? && |HexDecode(leafHash).value| == 32 && Decoded(siblings).Some?
    requires HexEncode(Climb(HexDecode(leafHash).value, index, Decoded(siblings).value, sha)) == HexEncode(Root(leaves, d, sha))
    ensures HexDecode(leafHash).value == LeafAt(leaves, d, index) ||
            (x in ClimbInputs(HexDecode(leafHash).value, index, Decoded(siblings).value, sha) &&
             y in TreeInputs(leaves, d, sha) && x != y && sha(x) == sha(y))
  {
    hide HexDecode, HexEncode, Climb, ClimbInputs, TreeInputs, Root, LeafAt, Pow2;
    DecodedPrefix(siblings, 0);
    HexInjective(Climb(HexDecode(leafHash).value, index, Decoded(siblings).value, sha), Root(leaves, d, sha));
    x, y := ClimbSound(HexDecode(leafHash).value, leaves, d, index, Decoded(siblings).value, sha);
  }

  function Encoded(hashes: seq<Digest>): (r: seq<seq<byte>>)
    ensures |r| == |hashes| && forall i :: 0 <= i < |r| ==> r[i] == HexEncode(hashes[i])
  {
    seq(|hashes|, i requires 0 <= i < |hashes| => HexEncode(hashes[i]))
  }

  lemma {:induction false} EncodedDecodes(hashes: seq<Digest>)
    ensures Decoded(Encoded(hashes)) == Some(hashes)
  {
    if hashes != [] {
      hide HexDecode, HexEncode;
      var k := |hashes| - 1;
      EncodedDecodes(hashes[..k]);
      HexRoundTrip(hashes[k]);
      assert Encoded(hashes)[..k] == Encoded(hashes[..k]);
      assert hashes == hashes[..k] + [hashes[k]];
    }
  }

  method VerifyHonest(leaves: seq<Digest>, d: nat, index: nat, sha: Hash) returns (r: Outcome)
    requires |leaves| == Pow2(d)
    ensures r == Verdict(true)
  {
    hide HexDecode, HexEncode, Climb, Root, LeafAt, Pow2;
    HonestClimb(leaves, d, index, sha);
    HexRoundTrip(LeafAt(leaves, d, index));
    EncodedDecodes(Siblings(leaves, d, index, sha));
    r := VerifyProof(HexEncode(LeafAt(leaves, d, index)), index, Encoded(Siblings(leaves, d, index, sha)),
                     HexEncode(Root(leaves, d, sha)), sha);
  }
}
