/** Byte strings standing inside a larger one. */
module Placement {
  import opened Prelude

  /** `s` stands in `buf` at `pos`. */
  predicate At(buf: seq<byte>, pos: nat, s: seq<byte>)
  {
    pos + |s| <= |buf| && buf[pos..pos + |s|] == s
  }

  lemma AtSplit(buf: seq<byte>, pos: nat, a: seq<byte>, b: seq<byte>)
    requires At(buf, pos, a + b)
    ensures At(buf, pos, a) && At(buf, pos + |a|, b)
  {
    assert buf[pos..pos + |a|] == (a + b)[..|a|] == a;
    assert buf[pos + |a|..pos + |a| + |b|] == (a + b)[|a|..] == b;
  }

  lemma AtInside(buf: seq<byte>, pos: nat, s: seq<byte>)
    requires At(buf, pos, s)
    ensures pos + |s| <= |buf|
  {
  }

  lemma AtIndex(buf: seq<byte>, pos: nat, s: seq<byte>, i: nat)
    requires At(buf, pos, s) && i < |s|
    ensures buf[pos + i] == s[i]
  {
    assert buf[pos..pos + |s|][i] == buf[pos + i];
  }

  /** Two strings that stand at the same place, one being no longer than the other, agree as far as the shorter goes. */
  lemma AtBoth(buf: seq<byte>, pos: nat, a: seq<byte>, b: seq<byte>)
    requires At(buf, pos, a) && At(buf, pos, b) && |a| <= |b|
    ensures a == b[..|a|]
  {
    assert b[..|a|] == buf[pos..pos + |b|][..|a|] == buf[pos..pos + |a|];
  }
}
