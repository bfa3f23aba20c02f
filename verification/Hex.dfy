/** Hexadecimal text of byte strings. */
module Hex {
  import opened Prelude

  function HexDigit(k: nat): (r: byte)
    requires k < 16
  {
    if k < 10 then 48 + k else 87 + k
  }

  /** Either case is read. */
  function HexValue(c: byte): (r: Option<nat>)
    ensures r.Some? ==> r.value < 16
  {
    if 48 <= c <= 57 then Some(c - 48)
    else if 97 <= c <= 102 then Some(c - 87)
    else if 65 <= c <= 70 then Some(c - 55)
    else None
  }

  /** Digits and the letters a to f of either case count, and nothing else; lower-case letters are written. */
  lemma HexValuesAre(c: byte, k: nat)
    requires k < 16
    ensures HexValue(c) == Some(k) <==>
              || (k < 10 && c == '0' as int + k)
              || (k >= 10 && (c == 'a' as int + (k - 10) || c == 'A' as int + (k - 10)))
    ensures HexDigit(k) == if k < 10 then '0' as int + k else 'a' as int + (k - 10)
  {
  }

  function HexEncode(s: seq<byte>): (r: seq<byte>)
    ensures |r| == 2 * |s| && forall i :: 0 <= i < |r| ==> 48 <= r[i] <= 102
  {
    if s == [] then [] else [HexDigit(s[0] / 16), HexDigit(s[0] % 16)] + HexEncode(s[1..])
  }

  /** Odd lengths and other characters are refused. */
  function HexDecode(s: seq<byte>): (r: Option<seq<byte>>)
    ensures r.Some? ==> |s| == 2 * |r.value|
  {
    if s == [] then Some([])
    else if |s| == 1 then None
    else
      var hi, lo, rest := HexValue(s[0]), HexValue(s[1]), HexDecode(s[2..]);
      if hi.None? || lo.None? || rest.None? then None else Some([16 * hi.value + lo.value] + rest.value)
  }

  lemma {:induction false} HexRoundTrip(s: seq<byte>)
    ensures HexDecode(HexEncode(s)) == Some(s)
  {
    if s != [] {
      HexRoundTrip(s[1..]);
      assert HexEncode(s)[2..] == HexEncode(s[1..]);
      assert s == [s[0]] + s[1..];
    }
  }

  /** The two digits of byte `i` give `b`. */
  predicate DigitsAt(s: seq<byte>, i: nat, b: byte)
  {
    2 * i + 1 < |s| && HexValue(s[2 * i]).Some? && HexValue(s[2 * i + 1]).Some? &&
    b == 16 * HexValue(s[2 * i]).value + HexValue(s[2 * i + 1]).value
  }

  lemma DigitsBehind(s: seq<byte>, i: nat, b: byte)
    requires |s| >= 2
    ensures DigitsAt(s[2..], i, b) <==> DigitsAt(s, i + 1, b)
  {
    hide HexValue;
  }

  /** Exactly the texts of two digits a byte decode. */
  lemma {:induction false} HexDecodeIff(s: seq<byte>, v: seq<byte>)
    ensures HexDecode(s) == Some(v) <==> |s| == 2 * |v| && forall i :: 0 <= i < |v| ==> DigitsAt(s, i, v[i])
    decreases |s|
  {
    hide HexValue;
    if |s| >= 2 && v != [] {
      hide DigitsAt;
      HexDecodeIff(s[2..], v[1..]);
      assert v == [v[0]] + v[1..];
      forall i | 0 <= i < |v| - 1
        ensures DigitsAt(s[2..], i, v[1..][i]) <==> DigitsAt(s, i + 1, v[i + 1])
      {
        DigitsBehind(s, i, v[i + 1]);
      }
      FirstDigits(s, v[0]);
      if forall i :: 0 <= i < |v| - 1 ==> DigitsAt(s[2..], i, v[1..][i]) {
        forall i | 1 <= i < |v|
          ensures DigitsAt(s, i, v[i])
        {
          assert DigitsAt(s[2..], i - 1, v[1..][i - 1]);
        }
      }
    }
  }

  lemma FirstDigits(s: seq<byte>, b: byte)
    requires |s| >= 2
    ensures DigitsAt(s, 0, b) <==> HexValue(s[0]).Some? && HexValue(s[1]).Some? && b == 16 * HexValue(s[0]).value + HexValue(s[1]).value
  {
  }

  lemma HexInjective(s: seq<byte>, t: seq<byte>)
    requires HexEncode(s) == HexEncode(t)
    ensures s == t
  {
    HexRoundTrip(s);
    HexRoundTrip(t);
  }
}
