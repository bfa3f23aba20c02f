/**
 * The texts the decoder accepts, as a relation between values and byte strings: a value may be spelled in several ways,
 * and what is no spelling of any value is refused.
 */
module BencodeGrammar {
  import opened Prelude
  import opened Decimal
  import opened Lex
  import opened Bencode
  import opened BencodeProofs

  /** `i`, a sign or none, digits, `e`. A zero may lead only behind a plus sign or alone without a minus. */
  ghost predicate SpellsInt(n: int, t: seq<byte>)
  {
    exists digits: seq<byte> :: NumeralOf(n, digits, t)
  }

  ghost predicate NumeralOf(n: int, digits: seq<byte>, t: seq<byte>)
  {
    && digits != [] && AllDigits(digits) && I64_MIN <= n <= I64_MAX
    && (|| (t == digits && n == Number(digits) && (digits[0] == '0' as int ==> |digits| == 1))
        || (t == ['+' as int] + digits && n == Number(digits))
        || (t == ['-' as int] + digits && n == -(Number(digits) as int) && digits[0] != '0' as int))
  }

  /** Digits that give the length, leading zeros or not, a colon, and the bytes. */
  ghost predicate SpellsBytes(b: seq<byte>, s: seq<byte>)
  {
    exists digits: seq<byte> :: digits != [] && AllDigits(digits) && Number(digits) == |b| && s == digits + [':' as int] + b
  }

  ghost predicate Spells(v: Value, s: seq<byte>)
    decreases v, 1
  {
    match v
    case Int(n) => |s| >= 2 && s[0] == 'i' as int && s[|s| - 1] == 'e' as int && SpellsInt(n, s[1..|s| - 1])
    case Bytes(b) => SpellsBytes(b, s)
    case List(items) => |s| >= 2 && s[0] == 'l' as int && s[|s| - 1] == 'e' as int && SpellsItems(items, s[1..|s| - 1])
    case Dict(entries) =>
      && |s| >= 2 && s[0] == 'd' as int && s[|s| - 1] == 'e' as int && SpellsEntries(entries, s[1..|s| - 1])
      && forall i, j :: 0 <= i < j < |entries| ==> Less(entries[i].key, entries[j].key)
  }

  ghost predicate SpellsItems(items: seq<Value>, s: seq<byte>)
    decreases items, 0
  {
    if items == [] then s == []
    else exists k :: 0 <= k <= |s| && Spells(items[0], s[..k]) && SpellsItems(items[1..], s[k..])
  }

  ghost predicate SpellsEntries(entries: seq<Entry>, s: seq<byte>)
    decreases entries, 0
  {
    if entries == [] then s == []
    else
      exists k, m :: 0 <= k <= m <= |s| && SpellsBytes(entries[0].key, s[..k]) && Spells(entries[0].val, s[k..m]) &&
                     SpellsEntries(entries[1..], s[m..])
  }

  // ---- integers ----

  lemma IntIff(t: seq<byte>, n: i64)
    ensures PlainNumeral(t) && ParseSigned(t) == Some(n) <==> SpellsInt(n, t)
  {
    if PlainNumeral(t) && ParseSigned(t) == Some(n) {
      var digits := if t[0] == 43 || t[0] == 45 then t[1..] else t;
      assert t[0] == 43 || t[0] == 45 ==> t == [t[0]] + t[1..];
      assert NumeralOf(n, digits, t);
    }
    if SpellsInt(n, t) {
      var digits: seq<byte> :| NumeralOf(n, digits, t);
      NumeralReads(n, digits, t);
    }
  }

  lemma NumeralReads(n: i64, digits: seq<byte>, t: seq<byte>)
    requires NumeralOf(n, digits, t)
    ensures PlainNumeral(t) && ParseSigned(t) == Some(n)
  {
    hide Number;
    assert IsDigit(digits[0]);
    if t != digits {
      assert t[1..] == digits;
    }
  }

  // ---- byte strings ----

  lemma BytesSpelled(buf: seq<byte>, pos: nat)
    requires pos <= |buf| && ParseBytes(buf, pos).Ok? && pos < |buf| && IsDigit(buf[pos])
    ensures SpellsBytes(ParseBytes(buf, pos).value, buf[pos..ParseBytes(buf, pos).next])
  {
    hide Number;
    var k := ScanLength(buf, pos).value;
    var digits, end := buf[pos..k], ParseBytes(buf, pos).next;
    assert digits != [] && digits[0] == buf[pos];
    assert buf[pos..end] == digits + [COLON] + buf[k + 1..end];
  }

  lemma BytesAccepted(buf: seq<byte>, pos: nat, b: seq<byte>, end: nat)
    requires pos <= end <= |buf| <= USIZE_MAX && SpellsBytes(b, buf[pos..end])
    ensures ParseBytes(buf, pos) == Ok(b, end) && pos < |buf| && IsDigit(buf[pos])
  {
    hide Number;
    var digits: seq<byte> :| digits != [] && AllDigits(digits) && Number(digits) == |b| && buf[pos..end] == digits + [':' as int] + b;
    var k := pos + |digits|;
    var s := buf[pos..end];
    assert buf[pos..k] == s[..|digits|] == digits;
    assert buf[k] == s[|digits|] == COLON;
    assert buf[k + 1..end] == s[|digits| + 1..] == b;
    assert buf[pos] == digits[0];
    assert IsDigit(digits[0]);
    ScanIs(buf, pos, k);
  }

  // ---- values ----

  /** `s` between its first and its last byte, where it stands in a buffer. */
  lemma Between(buf: seq<byte>, pos: nat, end: nat)
    requires pos + 2 <= end <= |buf|
    ensures var s := buf[pos..end];
            s[0] == buf[pos] && s[|s| - 1] == buf[end - 1] && s[1..|s| - 1] == buf[pos + 1..end - 1]
  {
    var s := buf[pos..end];
    var a, b := s[1..|s| - 1], buf[pos + 1..end - 1];
    assert |a| == |b| && forall i :: 0 <= i < |a| ==> a[i] == b[i];
  }

  /** Every accepted text spells the value it gives. */
  lemma {:induction false} ValueSpelled(buf: seq<byte>, pos: nat)
    requires pos <= |buf| && ParseValue(buf, pos).Ok?
    ensures Spells(ParseValue(buf, pos).value, buf[pos..ParseValue(buf, pos).next])
    decreases |buf| - pos, 0
  {
    hide ParseSigned, PlainNumeral, ParseItems, ParseFields, ParseBytes, SpellsItems, SpellsEntries, SpellsInt, SpellsBytes;
    var end := ParseValue(buf, pos).next;
    if buf[pos] == LOWER_I {
      var k := Find(buf, pos + 1, LOWER_E).value;
      IntIff(buf[pos + 1..k], ParseSigned(buf[pos + 1..k]).value);
      Between(buf, pos, end);
    } else if buf[pos] == LOWER_L {
      ItemsSpelled(buf, pos + 1);
      Between(buf, pos, end);
    } else if buf[pos] == LOWER_D {
      FieldsSpelled(buf, pos + 1, None);
      Between(buf, pos, end);
      ValueCanonical(buf, pos);
    } else {
      BytesSpelled(buf, pos);
    }
  }

  lemma {:induction false} ItemsSpelled(buf: seq<byte>, pos: nat)
    requires pos <= |buf| && ParseItems(buf, pos).Ok?
    ensures var r := ParseItems(buf, pos); buf[r.next - 1] == LOWER_E && SpellsItems(r.value, buf[pos..r.next - 1])
    decreases |buf| - pos, 1
  {
    hide ParseValue, Spells;
    if buf[pos] != LOWER_E {
      var mid := ParseValue(buf, pos).next;
      ValueSpelled(buf, pos);
      ItemsSpelled(buf, mid);
      var r := ParseItems(buf, pos);
      var s := buf[pos..r.next - 1];
      assert s[..mid - pos] == buf[pos..mid] && s[mid - pos..] == buf[mid..r.next - 1];
      assert r.value[1..] == ParseItems(buf, mid).value;
    }
  }

  lemma ThreeParts(buf: seq<byte>, pos: nat, start: nat, mid: nat, end: nat)
    requires pos <= start <= mid <= end <= |buf|
    ensures var s := buf[pos..end];
            s[..start - pos] == buf[pos..start] && s[start - pos..mid - pos] == buf[start..mid] && s[mid - pos..] == buf[mid..end]
  {
    Slice(buf, pos, end, 0, start - pos);
    Slice(buf, pos, end, start - pos, mid - pos);
    Slice(buf, pos, end, mid - pos, end - pos);
  }

  lemma Slice(buf: seq<byte>, pos: nat, end: nat, a: nat, b: nat)
    requires pos <= end <= |buf| && a <= b <= end - pos
    ensures buf[pos..end][a..b] == buf[pos + a..pos + b]
  {
    var s, t := buf[pos..end][a..b], buf[pos + a..pos + b];
    assert |s| == |t|;
    forall i | 0 <= i < |s|
      ensures s[i] == t[i]
    {
      assert s[i] == buf[pos..end][a + i] && t[i] == buf[pos + a + i];
    }
  }

  lemma {:induction false} FieldsSpelled(buf: seq<byte>, pos: nat, last: Option<seq<byte>>)
    requires pos <= |buf| && ParseFields(buf, pos, last).Ok?
    ensures var r := ParseFields(buf, pos, last);
            buf[r.next - 1] == LOWER_E && SpellsEntries(EntriesOf(r.value), buf[pos..r.next - 1])
    decreases |buf| - pos, 1
  {
    hide ParseValue, ParseBytes, Spells, SpellsBytes, Less;
    if buf[pos] != LOWER_E {
      var key, start := ParseBytes(buf, pos).value, ParseBytes(buf, pos).next;
      var end := ParseValue(buf, start).next;
      BytesSpelled(buf, pos);
      ValueSpelled(buf, start);
      FieldsSpelled(buf, end, Some(key));
      var r, rest := ParseFields(buf, pos, last), ParseFields(buf, end, Some(key));
      ThreeParts(buf, pos, start, end, r.next - 1);
      assert EntriesOf(r.value)[1..] == EntriesOf(rest.value);
    }
  }

  /** Every spelling is accepted, wherever it stands. */
  lemma {:induction false} ValueAccepted(buf: seq<byte>, pos: nat, v: Value, end: nat)
    requires pos <= end <= |buf| <= USIZE_MAX && Spells(v, buf[pos..end])
    ensures ParseValue(buf, pos) == Ok(v, end) && buf[pos] != LOWER_E
    decreases v, 1
  {
    hide ParseSigned, PlainNumeral, ParseItems, ParseFields, ParseBytes, SpellsItems, SpellsEntries, SpellsInt, SpellsBytes;
    match v
    case Int(n) =>
      Between(buf, pos, end);
      IntIff(buf[pos + 1..end - 1], n);
      NoEInside(buf[pos + 1..end - 1], n);
      FindIs(buf, pos + 1, LOWER_E, end - 1);
    case Bytes(b) => BytesAccepted(buf, pos, b, end);
    case List(items) =>
      Between(buf, pos, end);
      ItemsAccepted(buf, pos + 1, items, end - 1);
    case Dict(entries) =>
      Between(buf, pos, end);
      EntriesAccepted(buf, pos + 1, entries, end - 1, None);
  }

  lemma NoEInside(t: seq<byte>, n: int)
    requires SpellsInt(n, t)
    ensures LOWER_E !in t
  {
    hide Number;
    var digits: seq<byte> :| NumeralOf(n, digits, t);
    assert forall i :: 0 <= i < |digits| ==> IsDigit(digits[i]);
  }

  lemma {:induction false} ItemsAccepted(buf: seq<byte>, pos: nat, items: seq<Value>, end: nat)
    requires pos <= end < |buf| <= USIZE_MAX && buf[end] == LOWER_E && SpellsItems(items, buf[pos..end])
    ensures ParseItems(buf, pos) == Ok(items, end + 1)
    decreases items, 0
  {
    hide ParseValue, Spells;
    if items != [] {
      var s := buf[pos..end];
      var k :| 0 <= k <= |s| && Spells(items[0], s[..k]) && SpellsItems(items[1..], s[k..]);
      assert s[..k] == buf[pos..pos + k] && s[k..] == buf[pos + k..end];
      ValueAccepted(buf, pos, items[0], pos + k);
      ItemsAccepted(buf, pos + k, items[1..], end);
      assert items == [items[0]] + items[1..];
    }
  }

  lemma {:induction false} EntriesAccepted(buf: seq<byte>, pos: nat, entries: seq<Entry>, end: nat, last: Option<seq<byte>>)
    requires pos <= end < |buf| <= USIZE_MAX && buf[end] == LOWER_E && SpellsEntries(entries, buf[pos..end])
    requires forall i, j :: 0 <= i < j < |entries| ==> Less(entries[i].key, entries[j].key)
    requires last.Some? && entries != [] ==> Less(last.value, entries[0].key)
    ensures ParseFields(buf, pos, last).Ok? && EntriesOf(ParseFields(buf, pos, last).value) == entries
    ensures ParseFields(buf, pos, last).next == end + 1
    decreases entries, 0
  {
    hide ParseValue, ParseBytes, ParseFields, Spells, SpellsBytes, SpellsEntries, Less;
    if entries == [] {
      NoEntries(buf[pos..end]);
      FieldsNil(buf, pos, last);
      assert EntriesOf([]) == [];
    } else {
      var k, m := EntriesParts(entries, buf[pos..end]);
      PartsStand(buf, pos, end, k, m);
      BytesAccepted(buf, pos, entries[0].key, pos + k);
      ValueAccepted(buf, pos + k, entries[0].val, pos + m);
      assert forall i :: 0 <= i < |entries| - 1 ==> entries[1..][i] == entries[i + 1];
      EntriesAccepted(buf, pos + m, entries[1..], end, Some(entries[0].key));
      FieldsJoin(buf, pos, last, entries, pos + k, pos + m);
    }
  }

  lemma NoEntries(s: seq<byte>)
    ensures SpellsEntries([], s) ==> s == []
  {
  }

  lemma EntriesParts(entries: seq<Entry>, s: seq<byte>) returns (k: nat, m: nat)
    requires entries != [] && SpellsEntries(entries, s)
    ensures k <= m <= |s| && SpellsBytes(entries[0].key, s[..k]) && Spells(entries[0].val, s[k..m]) && SpellsEntries(entries[1..], s[m..])
  {
    hide Spells, SpellsBytes;
    k, m :| 0 <= k <= m <= |s| && SpellsBytes(entries[0].key, s[..k]) && Spells(entries[0].val, s[k..m]) && SpellsEntries(entries[1..], s[m..]);
  }

  lemma PartsStand(buf: seq<byte>, pos: nat, end: nat, k: nat, m: nat)
    requires pos <= end <= |buf| && k <= m <= end - pos
    ensures var s := buf[pos..end];
            s[..k] == buf[pos..pos + k] && s[k..m] == buf[pos + k..pos + m] && s[m..] == buf[pos + m..end]
  {
    var s := buf[pos..end];
    var a, b := s[k..m], buf[pos + k..pos + m];
    assert |a| == |b| && forall i :: 0 <= i < |a| ==> a[i] == b[i];
  }

  lemma FieldsJoin(buf: seq<byte>, pos: nat, last: Option<seq<byte>>, entries: seq<Entry>, start: nat, mid: nat)
    requires pos < |buf| && IsDigit(buf[pos]) && start <= |buf| && mid <= |buf| && entries != []
    requires ParseBytes(buf, pos) == Ok(entries[0].key, start) && ParseValue(buf, start) == Ok(entries[0].val, mid)
    requires last.Some? ==> Less(last.value, entries[0].key)
    requires var rest := ParseFields(buf, mid, Some(entries[0].key)); rest.Ok? && EntriesOf(rest.value) == entries[1..]
    ensures var r, rest := ParseFields(buf, pos, last), ParseFields(buf, mid, Some(entries[0].key));
            r.Ok? && r.next == rest.next && EntriesOf(r.value) == entries
  {
    hide ParseValue, ParseBytes, ParseFields, Less;
    var rest := ParseFields(buf, mid, Some(entries[0].key)).value;
    FieldsCons(buf, pos, last, entries[0].key, start, entries[0].val, mid);
    var fields := [Field(entries[0].key, entries[0].val, start, mid)] + rest;
    assert fields[1..] == rest;
    ConsEntries(entries[0], fields, entries);
  }

  /** A text is accepted as a value, up to a place in it, if and only if it spells that value up to there. */
  lemma AcceptsIff(input: seq<byte>, v: Value, n: nat)
    requires |input| <= USIZE_MAX
    ensures DecodePrefixOf(input) == Ok(v, n) <==> n <= |input| && Spells(v, input[..n])
    ensures DecodeOf(input) == Ok(v, n) <==> n == |input| && Spells(v, input)
  {
    hide ParseValue, Spells;
    assert n <= |input| ==> input[0..n] == input[..n];
    assert input[..|input|] == input;
    if ParseValue(input, 0).Ok? {
      ValueSpelled(input, 0);
    }
    if n <= |input| && Spells(v, input[..n]) {
      ValueAccepted(input, 0, v, n);
    }
  }

  // ---- the canonical spelling ----

  /** No digits for a number are fewer than its numeral, and no others as few. */
  lemma {:induction false} FewestDigits(digits: seq<byte>)
    requires digits != [] && AllDigits(digits)
    ensures var d := Digits(Number(digits)); |d| <= |digits| && (|d| == |digits| ==> d == digits)
    decreases |digits|
  {
    hide Number, Digits;
    var front, last := digits[..|digits| - 1], digits[|digits| - 1];
    assert digits == front + [last];
    LastOfNumber(digits);
    LastDigit(Number(front), last - 48);
    if front != [] {
      FewestDigits(front);
    } else {
      assert Number(front) == 0 by { NothingIsZero(front); }
    }
  }

  lemma NothingIsZero(s: seq<byte>)
    requires s == []
    ensures Number(s) == 0
  {
  }

  lemma LastOfNumber(digits: seq<byte>)
    requires digits != [] && AllDigits(digits)
    ensures Number(digits) == 10 * Number(digits[..|digits| - 1]) + (digits[|digits| - 1] - 48)
  {
  }

  lemma LastDigit(q: nat, d: nat)
    requires d < 10
    ensures Digits(10 * q + d) == if q == 0 then [48 + d] else Digits(q) + [48 + d]
  {
    assert (10 * q + d) / 10 == q && (10 * q + d) % 10 == d;
  }

  lemma IntShortest(n: i64, t: seq<byte>)
    requires SpellsInt(n, t)
    ensures |Numeral(n)| <= |t| && (|Numeral(n)| == |t| ==> t == Numeral(n))
  {
    hide Number, Digits;
    var digits: seq<byte> :| NumeralOf(n, digits, t);
    FewestDigits(digits);
    assert IsDigit(digits[0]);
    if t[0] == 45 {
      PositiveDigits(digits);
    }
  }

  lemma {:induction false} PositiveDigits(digits: seq<byte>)
    requires digits != [] && AllDigits(digits) && digits[0] != 48
    ensures Number(digits) > 0
    decreases |digits|
  {
    if |digits| > 1 {
      PositiveDigits(digits[..|digits| - 1]);
    } else {
      assert digits[..0] == [];
    }
  }

  lemma BytesShortest(b: seq<byte>, s: seq<byte>)
    requires SpellsBytes(b, s)
    ensures |EncodedBytes(b)| <= |s| && (|EncodedBytes(b)| == |s| ==> s == EncodedBytes(b))
  {
    hide Number, Digits;
    var digits: seq<byte> :| digits != [] && AllDigits(digits) && Number(digits) == |b| && s == digits + [':' as int] + b;
    FewestDigits(digits);
  }

  lemma Framed(first: byte, body: seq<byte>, s: seq<byte>)
    requires |s| >= 2 && s[0] == first && s[|s| - 1] == LOWER_E
    ensures |body| <= |s[1..|s| - 1]| ==> |[first] + body + [LOWER_E]| <= |s|
    ensures body == s[1..|s| - 1] ==> s == [first] + body + [LOWER_E]
  {
    assert s == [s[0]] + s[1..|s| - 1] + [s[|s| - 1]];
  }

  /** The encoding is the one shortest spelling of its value. */
  lemma {:induction false} EncodingShortest(v: Value, s: seq<byte>)
    requires Spells(v, s)
    ensures |Encoding(v)| <= |s| && (|Encoding(v)| == |s| ==> s == Encoding(v))
    decreases v, 1
  {
    hide Numeral, EncodedBytes, EncodedItems, EncodedEntries, SpellsInt, SpellsBytes, SpellsItems, SpellsEntries, Less;
    match v
    case Int(n) =>
      IntShortest(n, s[1..|s| - 1]);
      Framed(LOWER_I, Numeral(n), s);
    case Bytes(b) => BytesShortest(b, s);
    case List(items) =>
      ItemsShortest(items, s[1..|s| - 1]);
      Framed(LOWER_L, EncodedItems(items), s);
    case Dict(entries) =>
      EntriesShortest(entries, s[1..|s| - 1]);
      Framed(LOWER_D, EncodedEntries(entries), s);
  }

  lemma {:induction false} ItemsShortest(items: seq<Value>, s: seq<byte>)
    requires SpellsItems(items, s)
    ensures |EncodedItems(items)| <= |s| && (|EncodedItems(items)| == |s| ==> s == EncodedItems(items))
    decreases items, 0
  {
    hide Encoding, Spells;
    if items != [] {
      var k :| 0 <= k <= |s| && Spells(items[0], s[..k]) && SpellsItems(items[1..], s[k..]);
      EncodingShortest(items[0], s[..k]);
      ItemsShortest(items[1..], s[k..]);
      assert s == s[..k] + s[k..];
    }
  }

  lemma {:induction false} EntriesShortest(entries: seq<Entry>, s: seq<byte>)
    requires SpellsEntries(entries, s)
    ensures |EncodedEntries(entries)| <= |s| && (|EncodedEntries(entries)| == |s| ==> s == EncodedEntries(entries))
    decreases entries, 0
  {
    if entries != [] {
      hide Encoding, EncodedBytes, Spells, SpellsBytes, SpellsEntries;
      var k, m := EntriesParts(entries, s);
      BytesShortest(entries[0].key, s[..k]);
      EncodingShortest(entries[0].val, s[k..m]);
      EntriesShortest(entries[1..], s[m..]);
      ThreeShortest(EncodedBytes(entries[0].key), Encoding(entries[0].val), EncodedEntries(entries[1..]), s, k, m);
    }
  }

  lemma ThreeShortest(a: seq<byte>, b: seq<byte>, c: seq<byte>, s: seq<byte>, k: nat, m: nat)
    requires k <= m <= |s| && |a| <= k && |b| <= m - k && |c| <= |s| - m
    requires (|a| == k ==> a == s[..k]) && (|b| == m - k ==> b == s[k..m]) && (|c| == |s| - m ==> c == s[m..])
    ensures |a + (b + c)| <= |s| && (|a + (b + c)| == |s| ==> s == a + (b + c))
  {
    assert s == s[..k] + (s[k..m] + s[m..]);
  }

  lemma EncodingSpells(v: Value)
    requires Canonical(v) && |Encoding(v)| <= USIZE_MAX
    ensures Spells(v, Encoding(v))
  {
    hide Encoding, Spells, Canonical, ParseValue;
    assert Encoding(v) + [] == Encoding(v);
    DecodeInvertsEncode(v, []);
    AcceptsIff(Encoding(v), v, |Encoding(v)|);
    assert Encoding(v)[..|Encoding(v)|] == Encoding(v);
  }
}
