/** Files and pieces as two tilings of a torrent's bytes. */
module TorrentLayout {
  import opened Prelude
  import opened Arithmetic

  type Sha1 = seq<byte> -> seq<byte>

  datatype Layout = Layout(files: seq<nat>, pieceLength: nat, hashes: seq<seq<byte>>)

  function Sum(lengths: seq<nat>): (n: nat)
  {
    if lengths == [] then 0 else Sum(lengths[..|lengths| - 1]) + lengths[|lengths| - 1]
  }

  function Total(m: Layout): (n: nat) { Sum(m.files) }

  /** The global offset of file `i`. */
  function FileStart(m: Layout, i: nat): (n: nat)
    requires i <= |m.files|
  {
    Sum(m.files[..i])
  }

  /** The length of piece `i`, as computed: the last one is what is left. */
  function PieceSize(m: Layout, i: nat): (n: int)
  {
    if i + 1 < |m.hashes| then m.pieceLength else Total(m) - m.pieceLength * (|m.hashes| - 1)
  }

  lemma CeilIs(a: nat, n: nat, k: nat)
    requires n > 0 && k > 0 && n * (k - 1) < a <= n * k
    ensures DivCeil(a, n) == k
  {
    if a == n * k {
      QuotientIs(a, n, k);
    } else {
      QuotientIs(a, n, k - 1);
    }
  }

  lemma CeilBounds(a: nat, n: nat)
    requires n > 0 && a > 0
    ensures var k := DivCeil(a, n); k > 0 && n * (k - 1) < a <= n * k
  {
    Division(a, n);
    if a % n == 0 {
      assert a / n > 0;
      assert n * (a / n - 1) == n * (a / n) - n;
    } else {
      assert n * (a / n + 1) == n * (a / n) + n;
    }
  }

  /** Every piece has at least one and at most `pieceLength` bytes exactly when there are as many hashes as it takes. */
  lemma PieceSizesIff(m: Layout)
    requires m.pieceLength > 0 && m.hashes != [] && Total(m) > 0
    ensures (forall i :: 0 <= i < |m.hashes| ==> 0 < PieceSize(m, i) <= m.pieceLength) <==>
              |m.hashes| == DivCeil(Total(m), m.pieceLength)
  {
    var k := |m.hashes|;
    assert m.pieceLength * k == m.pieceLength * (k - 1) + m.pieceLength;
    if 0 < PieceSize(m, k - 1) <= m.pieceLength {
      CeilIs(Total(m), m.pieceLength, k);
    }
    CeilBounds(Total(m), m.pieceLength);
    if exists i :: 0 <= i < k && !(0 < PieceSize(m, i) <= m.pieceLength) {
      var i :| 0 <= i < k && !(0 < PieceSize(m, i) <= m.pieceLength);
      assert i == k - 1;
    }
  }

  /** With too many hashes the last piece has no bytes left or fewer; with too few it is longer than a piece. */
  lemma LastPieceSize(m: Layout)
    requires m.pieceLength > 0 && m.hashes != [] && Total(m) > 0
    ensures var last := PieceSize(m, |m.hashes| - 1);
            && (last <= 0 <==> |m.hashes| > DivCeil(Total(m), m.pieceLength))
            && (last > m.pieceLength <==> |m.hashes| < DivCeil(Total(m), m.pieceLength))
  {
    var k, n, c := |m.hashes|, m.pieceLength, DivCeil(Total(m), m.pieceLength);
    CeilBounds(Total(m), n);
    assert n * k == n * (k - 1) + n;
    assert k > c ==> n * (k - 1) >= n * c by { if k > c { MulMono(c, k - 1, n); } }
    assert k < c ==> n * (c - 1) >= n * k by { if k < c { MulMono(k, c - 1, n); } }
    assert k == c ==> n * (k - 1) == n * (c - 1) && n * k == n * c;
  }

  /** One file of three bytes in pieces of four with two hashes: the second piece computes to minus one byte. */
  lemma TwoHashesForOnePiece(hash: seq<byte>)
    ensures var m := Layout([3], 4, [hash, hash]); DivCeil(Total(m), m.pieceLength) == 1 && PieceSize(m, 1) == -1
  {
    assert Total(Layout([3], 4, [hash, hash])) == 3 by {
      assert [3][..0] == [];
    }
  }

  ghost predicate Sound(m: Layout)
  {
    m.pieceLength > 0 && Total(m) > 0 && |m.hashes| == DivCeil(Total(m), m.pieceLength)
  }

  /** The pieces tile the bytes: each byte is in the piece its offset names. */
  lemma PieceOfByte(m: Layout, g: nat)
    requires Sound(m) && g < Total(m)
    ensures var p := g / m.pieceLength;
            && p < |m.hashes| && m.pieceLength * p <= g < m.pieceLength * p + PieceSize(m, p)
            && g % m.pieceLength == g - m.pieceLength * p
  {
    var n, p, k := m.pieceLength, g / m.pieceLength, |m.hashes|;
    CeilBounds(Total(m), n);
    Division(g, n);
    assert p >= k ==> n * p >= n * k by { if p >= k { MulMono(k, p, n); } }
  }

  lemma PieceInside(m: Layout, p: nat)
    requires Sound(m) && p < |m.hashes|
    ensures 0 < PieceSize(m, p) <= m.pieceLength && m.pieceLength * p + PieceSize(m, p) <= Total(m)
  {
    var n, k := m.pieceLength, |m.hashes|;
    CeilBounds(Total(m), n);
    assert n * k == n * (k - 1) + n;
    PieceSizesIff(m);
    if p + 1 < k {
      MulMono(p + 1, k - 1, n);
      assert n * (p + 1) == n * p + n;
    }
  }

  function Piece(m: Layout, data: seq<byte>, p: nat): (s: seq<byte>)
    requires Sound(m) && p < |m.hashes| && |data| == Total(m)
  {
    PieceInside(m, p);
    data[m.pieceLength * p..m.pieceLength * p + PieceSize(m, p)]
  }

  /** `data` is what the hashes were made from. */
  ghost predicate Hashed(m: Layout, data: seq<byte>, sha: Sha1)
  {
    Sound(m) && |data| == Total(m) && forall p :: 0 <= p < |m.hashes| ==> sha(Piece(m, data, p)) == m.hashes[p]
  }

  lemma {:induction false} SumPrefix(s: seq<nat>, i: nat)
    requires i < |s|
    ensures Sum(s[..i + 1]) == Sum(s[..i]) + s[i]
  {
    assert s[..i + 1][..i] == s[..i];
  }

  lemma {:induction false} SumBound(s: seq<nat>, i: nat)
    requires i <= |s|
    ensures Sum(s[..i]) <= Sum(s)
    decreases |s| - i
  {
    if i < |s| {
      SumPrefix(s, i);
      SumBound(s, i + 1);
    } else {
      assert s[..i] == s;
    }
  }
}
