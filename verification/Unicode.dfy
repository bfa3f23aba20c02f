/** Unicode scalar values and UTF-8: byte order is code-point order. */
module Unicode {
  import opened Prelude
  import opened Lex

  /** A Unicode scalar value: a code point that is no surrogate. */
  type scalar = c: int | 0 <= c < 0xD800 || 0xE000 <= c <= 0x10FFFF

  /** A file's path in the site tree. */
  type Path = seq<scalar>

  /** Section 3 of RFC 3629. */
  function Utf8(c: scalar): (s: seq<byte>)
  {
    if c < 0x80 then [c]
    else if c < 0x800 then [0xC0 + c / 64, 0x80 + c % 64]
    else if c < 0x10000 then [0xE0 + c / 4096, 0x80 + (c / 64) % 64, 0x80 + c % 64]
    else [0xF0 + c / 262144, 0x80 + (c / 4096) % 64, 0x80 + (c / 64) % 64, 0x80 + c % 64]
  }

  /** The code point that one sequence of section 3 of RFC 3629 stands for, read by the bits of its lead and trail bytes. */
  function Utf8Value(s: seq<byte>): (r: Option<nat>)
  {
    if |s| == 1 && s[0] < 0x80 then Some(s[0])
    else if |s| == 2 && s[0] / 32 == 0x6 && IsTrail(s[1]) then Some((s[0] as int % 32) * 0x40 + s[1] as int % 64)
    else if |s| == 3 && s[0] / 16 == 0xE && IsTrail(s[1]) && IsTrail(s[2]) then
      Some((s[0] as int % 16) * 0x1000 + (s[1] as int % 64) * 0x40 + s[2] as int % 64)
    else if |s| == 4 && s[0] / 8 == 0x1E && IsTrail(s[1]) && IsTrail(s[2]) && IsTrail(s[3]) then
      Some((s[0] as int % 8) * 0x4_0000 + (s[1] as int % 64) * 0x1000 + (s[2] as int % 64) * 0x40 + s[3] as int % 64)
    else None
  }

  /** A trail byte has the bits 10 in front. */
  predicate IsTrail(b: byte) { b / 64 == 2 }

  /** The bytes of a character read back to it, and there are as few as can be. */
  lemma Utf8Reads(c: scalar)
    ensures Utf8Value(Utf8(c)) == Some(c)
    ensures |Utf8(c)| == if c < 0x80 then 1 else if c < 0x800 then 2 else if c < 0x10000 then 3 else 4
  {
    hide Utf8Value;
    if c < 0x800 {
      ReadsShort(c);
    } else if c < 0x10000 {
      ReadsThree(c);
    } else {
      ReadsFour(c);
    }
  }

  lemma ReadsShort(c: scalar)
    requires c < 0x800
    ensures Utf8Value(Utf8(c)) == Some(c)
  {
  }

  lemma ReadsThree(c: scalar)
    requires 0x800 <= c < 0x10000
    ensures Utf8Value(Utf8(c)) == Some(c)
  {
    assert c == (c / 4096) * 4096 + ((c / 64) % 64) * 64 + c % 64;
  }

  lemma ReadsFour(c: scalar)
    requires 0x10000 <= c
    ensures Utf8Value(Utf8(c)) == Some(c)
  {
    hide IsTrail;
    var s := Utf8(c);
    Trail(c / 4096);
    Trail(c / 64);
    Trail(c);
    LeadOfFour(c / 262144);
    assert c == (c / 262144) * 262144 + ((c / 4096) % 64) * 4096 + ((c / 64) % 64) * 64 + c % 64;
  }

  lemma Trail(x: nat)
    ensures IsTrail(0x80 + x % 64) && (0x80 + x % 64) % 64 == x % 64
  {
  }

  lemma LeadOfFour(x: nat)
    requires x < 8
    ensures (0xF0 + x) / 8 == 0x1E && (0xF0 + x) % 8 == x
  {
  }

  function Utf8String(s: seq<scalar>): (r: seq<byte>)
  {
    if s == [] then [] else Utf8(s[0]) + Utf8String(s[1..])
  }

  lemma {:induction false} LessAfter(p: seq<int>, a: seq<int>, b: seq<int>)
    ensures Less(p + a, p + b) <==> Less(a, b)
  {
    if p == [] {
      assert p + a == a && p + b == b;
    } else {
      LessAfter(p[1..], a, b);
      assert (p + a)[1..] == p[1..] + a && (p + b)[1..] == p[1..] + b;
    }
  }

  /** The 6-bit groups of a code point compare as the code point does. */
  lemma Groups2(c: nat, d: nat)
    requires c < d
    ensures c / 64 < d / 64 || (c / 64 == d / 64 && c % 64 < d % 64)
  {
  }

  lemma Groups3(c: nat, d: nat)
    requires c < d
    ensures c / 4096 < d / 4096 || (c / 4096 == d / 4096 && ((c / 64) % 64 < (d / 64) % 64 ||
              ((c / 64) % 64 == (d / 64) % 64 && c % 64 < d % 64)))
  {
    Groups2(c, d);
    if c / 64 < d / 64 {
      Groups2(c / 64, d / 64);
    }
    assert c / 4096 == c / 64 / 64 && d / 4096 == d / 64 / 64;
  }

  lemma Groups4(c: nat, d: nat)
    requires c < d
    ensures c / 262144 < d / 262144 || (c / 262144 == d / 262144 && ((c / 4096) % 64 < (d / 4096) % 64 ||
              ((c / 4096) % 64 == (d / 4096) % 64 && ((c / 64) % 64 < (d / 64) % 64 ||
                ((c / 64) % 64 == (d / 64) % 64 && c % 64 < d % 64)))))
  {
    Groups3(c, d);
    if c / 4096 < d / 4096 {
      Groups2(c / 4096, d / 4096);
    }
    assert c / 262144 == c / 4096 / 64 && d / 262144 == d / 4096 / 64;
  }

  /** Two byte strings that first differ at index `k`. */
  lemma {:induction false} LessAt(a: seq<int>, b: seq<int>, k: nat)
    requires k < |a| && k < |b| && a[..k] == b[..k] && a[k] < b[k]
    ensures Less(a, b)
  {
    if k > 0 {
      assert a[0] == a[..k][0] == b[..k][0] == b[0];
      assert a[1..][..k - 1] == a[..k][1..] && b[1..][..k - 1] == b[..k][1..];
      LessAt(a[1..], b[1..], k - 1);
    }
  }

  /** The encodings of different code points differ inside the shorter one, the smaller code point's being smaller. */
  lemma ScalarOrder(c: scalar, d: scalar) returns (k: nat)
    requires c < d
    ensures k < |Utf8(c)| && k < |Utf8(d)| && Utf8(c)[..k] == Utf8(d)[..k] && Utf8(c)[k] < Utf8(d)[k]
  {
    k := 0;
    if c < 0x80 || |Utf8(c)| != |Utf8(d)| {
      LeadOrder(c, d);
    } else if c < 0x800 {
      Groups2(c, d);
      k := if c / 64 < d / 64 then 0 else 1;
    } else if c < 0x10000 {
      k := ThreeByteOrder(c, d);
    } else {
      k := FourByteOrder(c, d);
    }
  }

  lemma LeadOrder(c: scalar, d: scalar)
    requires c < d && (c < 0x80 || |Utf8(c)| != |Utf8(d)|)
    ensures Utf8(c)[0] < Utf8(d)[0]
  {
  }

  lemma ThreeByteOrder(c: scalar, d: scalar) returns (k: nat)
    requires 0x800 <= c < d < 0x10000
    ensures k < |Utf8(c)| && k < |Utf8(d)| && Utf8(c)[..k] == Utf8(d)[..k] && Utf8(c)[k] < Utf8(d)[k]
  {
    Groups3(c, d);
    k := if c / 4096 < d / 4096 then 0 else if (c / 64) % 64 < (d / 64) % 64 then 1 else 2;
  }

  lemma FourByteOrder(c: scalar, d: scalar) returns (k: nat)
    requires 0x10000 <= c < d
    ensures k < |Utf8(c)| && k < |Utf8(d)| && Utf8(c)[..k] == Utf8(d)[..k] && Utf8(c)[k] < Utf8(d)[k]
  {
    Groups4(c, d);
    k := if c / 262144 < d / 262144 then 0
         else if (c / 4096) % 64 < (d / 4096) % 64 then 1
         else if (c / 64) % 64 < (d / 64) % 64 then 2 else 3;
  }

  lemma {:induction false} Utf8Keeps(s: seq<scalar>, t: seq<scalar>)
    requires Less(s, t)
    ensures Less(Utf8String(s), Utf8String(t))
  {
    hide Utf8;
    if s == [] {
      NonEmpty(t[0]);
    } else if s[0] < t[0] {
      var k := ScalarOrder(s[0], t[0]);
      var a, b := Utf8String(s), Utf8String(t);
      assert a[..k] == Utf8(s[0])[..k] && b[..k] == Utf8(t[0])[..k];
      LessAt(a, b, k);
    } else {
      Utf8Keeps(s[1..], t[1..]);
      LessAfter(Utf8(s[0]), Utf8String(s[1..]), Utf8String(t[1..]));
    }
  }

  lemma NonEmpty(c: scalar)
    ensures Utf8(c) != []
  {
  }

  /** Strings compare by their UTF-8 bytes exactly as by their code points. */
  lemma Utf8Order(s: seq<scalar>, t: seq<scalar>)
    ensures Less(Utf8String(s), Utf8String(t)) <==> Less(s, t)
    ensures Utf8String(s) == Utf8String(t) <==> s == t
  {
    LessTotal(s, t);
    if Less(s, t) {
      Utf8Keeps(s, t);
      LessIrreflexive(Utf8String(s));
    } else if Less(t, s) {
      Utf8Keeps(t, s);
      LessAsymmetric(Utf8String(t), Utf8String(s));
      LessIrreflexive(Utf8String(s));
    }
    LessIrreflexive(Utf8String(s));
    LessIrreflexive(s);
  }
}
