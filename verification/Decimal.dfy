/** Decimal numerals as byte strings: what `to_string` writes and `parse` reads. */
module Decimal {
  import opened Prelude

  predicate IsDigit(b: int) { 48 <= b <= 57 }

  predicate AllDigits(s: seq<int>) { forall i :: 0 <= i < |s| ==> IsDigit(s[i]) }

  /** The shortest numeral of `n`. */
  function Digits(n: nat): (s: seq<byte>)
  {
    if n < 10 then [48 + n] else Digits(n / 10) + [48 + n % 10]
  }

  /** The value of a string of digits, leading zeros allowed. */
  function Number(s: seq<int>): (n: nat)
    requires AllDigits(s)
  {
    if s == [] then 0 else 10 * Number(s[..|s| - 1]) + (s[|s| - 1] - 48)
  }

  /** The numeral reads back, has no leading zero except in "0" itself, and holds only digits. */
  lemma {:induction false} DigitsRead(n: nat)
    ensures Digits(n) != [] && AllDigits(Digits(n)) && Number(Digits(n)) == n
    ensures Digits(n)[0] == 48 ==> n == 0 && Digits(n) == [48]
  {
    if n >= 10 {
      DigitsRead(n / 10);
      var front := Digits(n / 10);
      var s := Digits(n);
      assert s[..|s| - 1] == front && s[|s| - 1] == 48 + n % 10;
      assert s[0] == front[0];
    } else {
      assert Digits(n)[..0] == [];
    }
  }

  lemma DigitsInjective(m: nat, n: nat)
    requires Digits(m) == Digits(n)
    ensures m == n
  {
    DigitsRead(m);
    DigitsRead(n);
  }

  /** `to_string` of a signed integer. */
  function Numeral(n: int): (s: seq<byte>)
  {
    if n < 0 then [45] + Digits(-n) else Digits(n)
  }

  /** An unsigned `parse`: an optional plus sign and at least one digit, within `max`. */
  function ParseUnsigned(s: seq<int>, max: nat): (r: Option<nat>)
  {
    var t := if s != [] && s[0] == 43 then s[1..] else s;
    if t != [] && AllDigits(t) && Number(t) <= max then Some(Number(t)) else None
  }

  /** A signed `parse`: an optional sign and at least one digit, within 64 bits. */
  function ParseSigned(s: seq<byte>): (r: Option<i64>)
  {
    if s == [] then None
    else
      var t := if s[0] == 43 || s[0] == 45 then s[1..] else s;
      if t == [] || !AllDigits(t) then None
      else
        var k: int := Number(t);
        var n := if s[0] == 45 then -k else k;
        if I64_MIN <= n <= I64_MAX then Some(n) else None
  }

  const I64_MIN: int := -0x8000_0000_0000_0000
  const I64_MAX: int := 0x7FFF_FFFF_FFFF_FFFF

  type i64 = x: int | I64_MIN <= x <= I64_MAX

  lemma NumeralRead(n: i64)
    ensures Numeral(n) != [] && ParseSigned(Numeral(n)) == Some(n)
    ensures forall i :: 0 <= i < |Numeral(n)| ==> IsDigit(Numeral(n)[i]) || Numeral(n)[i] == 45
    ensures Numeral(n) != [45, 48]
    ensures Numeral(n)[0] == 48 ==> |Numeral(n)| == 1
    ensures |Numeral(n)| > 2 ==> !(Numeral(n)[0] == 45 && Numeral(n)[1] == 48)
  {
    hide Digits, Number;
    if n < 0 {
      var m: int := n;
      DigitsRead(-m);
      assert Numeral(n)[1..] == Digits(-m);
    } else {
      DigitsRead(n);
    }
  }
}
