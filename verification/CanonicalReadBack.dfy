/** The canonical text of a value reads back to it, and no other text does. */
module CanonicalReadBack {
  import opened Prelude
  import opened Lex
  import opened Sorting
  import opened Unicode
  import opened Decimal
  import opened Hex
  import opened Placement
  import opened CanonicalJson
  import opened CanonicalProofs
  import opened CanonicalReader

  // ---- characters ----

  lemma HexDigitReads(k: nat)
    requires k < 16
    ensures HexOf(HexDigit(k)) == Some(k)
  {
  }

  lemma HexReads(b: byte)
    ensures HexOf(b).Some? ==> HexDigit(HexOf(b).value) == b
  {
  }

  lemma UnitReads(buf: seq<byte>, pos: nat, n: nat)
    requires n < 0x10000 && At(buf, pos, UnitEscape(n))
    ensures ReadUnit(buf, pos) == Got(n, pos + 6)
  {
    hide At, HexOf, HexDigit;
    AtInside(buf, pos, UnitEscape(n));
    AtIndex(buf, pos, UnitEscape(n), 0);
    AtIndex(buf, pos, UnitEscape(n), 1);
    AtIndex(buf, pos, UnitEscape(n), 2);
    AtIndex(buf, pos, UnitEscape(n), 3);
    AtIndex(buf, pos, UnitEscape(n), 4);
    AtIndex(buf, pos, UnitEscape(n), 5);
    HexDigitReads(n / 4096);
    HexDigitReads((n / 256) % 16);
    HexDigitReads((n / 16) % 16);
    HexDigitReads(n % 16);
    FromNibbles(n);
  }

  /** The other way round: what reads as a unit is its escape. */
  lemma UnitIs(buf: seq<byte>, pos: nat)
    requires ReadUnit(buf, pos).Got?
    ensures At(buf, pos, UnitEscape(ReadUnit(buf, pos).value)) && |UnitEscape(ReadUnit(buf, pos).value)| == 6
  {
    hide HexOf, HexDigit;
    HexReads(buf[pos + 2]);
    HexReads(buf[pos + 3]);
    HexReads(buf[pos + 4]);
    HexReads(buf[pos + 5]);
    var n := ReadUnit(buf, pos).value;
    Nibbles(HexOf(buf[pos + 2]).value, HexOf(buf[pos + 3]).value, HexOf(buf[pos + 4]).value, HexOf(buf[pos + 5]).value);
    var s := UnitEscape(n);
    assert s[0] == buf[pos] && s[1] == buf[pos + 1] && s[2] == buf[pos + 2] && s[3] == buf[pos + 3];
    assert s[4] == buf[pos + 4] && s[5] == buf[pos + 5];
    assert buf[pos..pos + 6] == s;
  }

  lemma Sixteenth(q: nat, d: nat)
    requires d < 16
    ensures (16 * q + d) / 16 == q && (16 * q + d) % 16 == d
  {
  }

  lemma Nibbles(a: nat, b: nat, c: nat, d: nat)
    requires a < 16 && b < 16 && c < 16 && d < 16
    ensures var n := 0x1000 * a + 0x100 * b + 0x10 * c + d;
            n < 0x10000 && n / 4096 == a && (n / 256) % 16 == b && (n / 16) % 16 == c && n % 16 == d
  {
    var n := 0x1000 * a + 0x100 * b + 0x10 * c + d;
    Sixteenth(256 * a + 16 * b + c, d);
    Sixteenth(16 * a + b, c);
    Sixteenth(a, b);
    assert n == 16 * (256 * a + 16 * b + c) + d;
    assert n / 16 == 16 * (16 * a + b) + c;
    assert n / 256 == n / 16 / 16 && n / 4096 == n / 16 / 16 / 16;
  }

  lemma CharReads(buf: seq<byte>, pos: nat, c: scalar)
    requires At(buf, pos, Escape(c))
    ensures ReadChar(buf, pos) == Got(c, pos + |Escape(c)|) && !CanonicalReader.Has(buf, pos, 34)
  {
    hide At, UnitEscape, ReadUnit;
    AtInside(buf, pos, Escape(c));
    if Unicoded(c) {
      WideReads(buf, pos, c);
    } else {
      ShortText(c);
      AtIndex(buf, pos, Escape(c), 0);
      if |Escape(c)| == 2 {
        AtIndex(buf, pos, Escape(c), 1);
      }
    }
  }

  lemma UnitSize(n: nat)
    requires n < 0x10000
    ensures |UnitEscape(n)| == 6 && UnitEscape(n)[0] == 92 && UnitEscape(n)[1] == 117
  {
  }

  lemma WideReads(buf: seq<byte>, pos: nat, c: scalar)
    requires Unicoded(c) && At(buf, pos, Escape(c))
    ensures ReadChar(buf, pos) == Got(c, pos + |Escape(c)|) && !CanonicalReader.Has(buf, pos, 34)
  {
    hide At, UnitEscape, ReadUnit;
    if c > 0xFFFF {
      var v := c - 0x10000;
      var hi, lo := 0xD800 + v / 1024, 0xDC00 + v % 1024;
      assert Escape(c) == UnitEscape(hi) + UnitEscape(lo);
      UnitSize(hi);
      UnitSize(lo);
      AtSplit(buf, pos, UnitEscape(hi), UnitEscape(lo));
      UnitReads(buf, pos, hi);
      UnitReads(buf, pos + 6, lo);
      AtIndex(buf, pos, UnitEscape(hi), 0);
      AtIndex(buf, pos, UnitEscape(hi), 1);
    } else {
      UnitSize(c);
      UnitReads(buf, pos, c);
      AtIndex(buf, pos, UnitEscape(c), 0);
      AtIndex(buf, pos, UnitEscape(c), 1);
    }
  }

  lemma AtJoin(buf: seq<byte>, pos: nat, a: seq<byte>, b: seq<byte>)
    requires At(buf, pos, a) && At(buf, pos + |a|, b)
    ensures At(buf, pos, a + b)
  {
    assert buf[pos..pos + |a + b|] == buf[pos..pos + |a|] + buf[pos + |a|..pos + |a| + |b|];
  }

  lemma AtOne(buf: seq<byte>, pos: nat, b: byte)
    requires pos < |buf| && buf[pos] == b
    ensures At(buf, pos, [b])
  {
  }

  lemma CharIs(buf: seq<byte>, pos: nat)
    requires ReadChar(buf, pos).Got?
    ensures var r := ReadChar(buf, pos); At(buf, pos, Escape(r.value)) && r.next == pos + |Escape(r.value)|
  {
    hide At, UnitEscape, ReadUnit;
    if buf[pos] == 92 && buf[pos + 1] == 117 {
      WideIs(buf, pos);
    } else if buf[pos] == 92 {
      AtOne(buf, pos, 92);
      AtOne(buf, pos + 1, buf[pos + 1]);
      AtJoin(buf, pos, [92], [buf[pos + 1]]);
      assert [92] + [buf[pos + 1]] == Escape(ReadChar(buf, pos).value);
    } else {
      AtOne(buf, pos, buf[pos]);
    }
  }

  lemma WideIs(buf: seq<byte>, pos: nat)
    requires ReadUnits(buf, pos).Got?
    ensures var r := ReadUnits(buf, pos); At(buf, pos, Escape(r.value)) && r.next == pos + |Escape(r.value)|
  {
    hide At, UnitEscape, ReadUnit;
    var u := ReadUnit(buf, pos).value;
    UnitIs(buf, pos);
    if 0xD800 <= u < 0xDC00 {
      var l := ReadUnit(buf, pos + 6).value;
      UnitIs(buf, pos + 6);
      AtJoin(buf, pos, UnitEscape(u), UnitEscape(l));
      var v := (u - 0xD800) * 0x400 + (l - 0xDC00);
      assert v / 1024 == u - 0xD800 && v % 1024 == l - 0xDC00;
    }
  }

  // ---- strings ----

  lemma {:induction false} BodyReads(buf: seq<byte>, pos: nat, s: seq<scalar>)
    requires At(buf, pos, Body(s) + [QUOTE])
    ensures ReadBody(buf, pos) == Got(s, pos + |Body(s)| + 1)
    decreases |s|
  {
    hide At, Escape, ReadChar;
    if s == [] {
      assert [] + [QUOTE] == [QUOTE];
      AtInside(buf, pos, [QUOTE]);
      AtIndex(buf, pos, [QUOTE], 0);
    } else {
      BodySplit(buf, pos, s);
      CharReads(buf, pos, s[0]);
      BodyReads(buf, pos + |Escape(s[0])|, s[1..]);
      assert s == [s[0]] + s[1..];
    }
  }

  lemma {:induction false} BodyIs(buf: seq<byte>, pos: nat)
    requires ReadBody(buf, pos).Got?
    ensures var r := ReadBody(buf, pos); At(buf, pos, Body(r.value) + [QUOTE]) && r.next == pos + |Body(r.value)| + 1
    decreases |buf| - pos
  {
    hide At, Escape, ReadChar;
    if CanonicalReader.Has(buf, pos, 34) {
      AtOne(buf, pos, QUOTE);
      assert Body([]) + [QUOTE] == [QUOTE];
    } else {
      CharIs(buf, pos);
      var c, mid := ReadChar(buf, pos).value, ReadChar(buf, pos).next;
      BodyIs(buf, mid);
      var s := ReadBody(buf, mid).value;
      AtJoin(buf, pos, Escape(c), Body(s) + [QUOTE]);
      assert ([c] + s)[1..] == s;
      assert Body([c] + s) + [QUOTE] == Escape(c) + (Body(s) + [QUOTE]);
    }
  }

  lemma StringReads(buf: seq<byte>, pos: nat, s: seq<scalar>)
    requires At(buf, pos, StringText(s))
    ensures ReadString(buf, pos) == Got(s, pos + |StringText(s)|) && CanonicalReader.Has(buf, pos, 34)
  {
    hide Body, At, ReadBody;
    AtSplit(buf, pos, [QUOTE], Body(s) + [QUOTE]);
    AtInside(buf, pos, [QUOTE]);
    AtIndex(buf, pos, [QUOTE], 0);
    BodyReads(buf, pos + 1, s);
  }

  lemma StringIs(buf: seq<byte>, pos: nat)
    requires ReadString(buf, pos).Got?
    ensures var r := ReadString(buf, pos); At(buf, pos, StringText(r.value)) && r.next == pos + |StringText(r.value)|
  {
    hide Body, At, ReadBody;
    AtOne(buf, pos, QUOTE);
    BodyIs(buf, pos + 1);
    AtJoin(buf, pos, [QUOTE], Body(ReadString(buf, pos).value) + [QUOTE]);
  }

  // ---- integers ----

  lemma {:induction false} DigitsStop(buf: seq<byte>, pos: nat, end: nat)
    requires pos <= end <= |buf| && AllDigits(buf[pos..end]) && (end < |buf| ==> !IsDigit(buf[end]))
    ensures DigitsEnd(buf, pos) == end
    decreases end - pos
  {
    if pos < end {
      assert buf[pos..end][0] == buf[pos];
      assert buf[pos + 1..end] == buf[pos..end][1..];
      DigitsStop(buf, pos + 1, end);
    }
  }

  lemma NatReads(buf: seq<byte>, pos: nat, n: nat)
    requires At(buf, pos, Digits(n)) && Delimited(buf, pos + |Digits(n)|)
    ensures ReadNat(buf, pos) == Got(n, pos + |Digits(n)|) && IsDigit(buf[pos])
  {
    DigitsRead(n);
    hide Digits, Number;
    var end := pos + |Digits(n)|;
    assert buf[pos..end] == Digits(n);
    assert buf[pos] == Digits(n)[0];
    DigitsStop(buf, pos, end);
  }

  lemma {:induction false} DigitsAre(s: seq<byte>)
    requires s != [] && AllDigits(s) && (s[0] == 48 ==> |s| == 1)
    ensures Digits(Number(s)) == s
    decreases |s|
  {
    var k := |s| - 1;
    if k == 0 {
      assert s[..0] == [];
    } else {
      var front := s[..k];
      DigitsAre(front);
      NumberPositive(front);
      assert Number(s) / 10 == Number(front) && Number(s) % 10 == s[k] - 48;
      assert s == front + [s[k]];
    }
  }

  lemma {:induction false} NumberPositive(s: seq<byte>)
    requires s != [] && AllDigits(s) && s[0] != 48
    ensures Number(s) > 0
    decreases |s|
  {
    if |s| == 1 {
      assert s[..0] == [];
    } else {
      NumberPositive(s[..|s| - 1]);
    }
  }

  lemma NatIs(buf: seq<byte>, pos: nat)
    requires ReadNat(buf, pos).Got?
    ensures var r := ReadNat(buf, pos); At(buf, pos, Digits(r.value)) && r.next == pos + |Digits(r.value)|
  {
    var end := DigitsEnd(buf, pos);
    var s := buf[pos..end];
    hide Number, Digits;
    assert s[0] == buf[pos];
    DigitsAre(s);
  }

  lemma IntReads(buf: seq<byte>, pos: nat, n: int)
    requires At(buf, pos, Numeral(n)) && Delimited(buf, pos + |Numeral(n)|)
    ensures ReadInt(buf, pos) == Got(n, pos + |Numeral(n)|) && (IsDigit(buf[pos]) || buf[pos] == 45)
  {
    hide At, Digits, Delimited, ReadNat;
    NumeralText(n);
    AtInside(buf, pos, Numeral(n));
    AtIndex(buf, pos, Numeral(n), 0);
    if n < 0 {
      AtSplit(buf, pos, [45], Digits(-n));
      NatReads(buf, pos + 1, -n);
    } else {
      NatReads(buf, pos, n);
    }
  }

  lemma IntIs(buf: seq<byte>, pos: nat)
    requires ReadInt(buf, pos).Got?
    ensures var r := ReadInt(buf, pos); At(buf, pos, Numeral(r.value)) && r.next == pos + |Numeral(r.value)|
  {
    hide At, Digits, ReadNat;
    if CanonicalReader.Has(buf, pos, 45) {
      AtOne(buf, pos, 45);
      NatIs(buf, pos + 1);
      AtJoin(buf, pos, [45], Digits(ReadNat(buf, pos + 1).value));
    } else {
      NatIs(buf, pos);
    }
  }

  // ---- reading back ----

  lemma WordAt(buf: seq<byte>, pos: nat, w: seq<byte>)
    ensures Word(buf, pos, w) <==> At(buf, pos, w)
  {
  }

  /** Wherever the text of a value stands, delimited, the reader gets that value and stops behind it. */
  lemma {:induction false} ValueReads(buf: seq<byte>, pos: nat, v: Json)
    requires At(buf, pos, Text(v)) && Delimited(buf, pos + |Text(v)|)
    ensures ReadValue(buf, pos) == Got(v, pos + |Text(v)|) && !CanonicalReader.Has(buf, pos, 93)
    decreases v, 1, 0
  {
    hide At, Delimited, ItemsText, FieldsText, StringText, Numeral, Keys, ReadString, ReadInt, ReadItems, ReadFields, Word, IsDigit;
    TextStart(v);
    AtInside(buf, pos, Text(v));
    AtIndex(buf, pos, Text(v), 0);
    match v
    case Null => WordAt(buf, pos, NULL_TEXT);
    case Bool(b) => WordAt(buf, pos, if b then TRUE_TEXT else FALSE_TEXT);
    case Int(n) =>
      IntReads(buf, pos, n);
      DigitIsNone(buf[pos]);
    case Str(s) => StringReads(buf, pos, s);
    case Arr(items) =>
      AtSplit(buf, pos, [91], ItemsText(items, true) + [93]);
      ItemsRead(buf, pos + 1, items, true);
    case Obj(_) =>
      AtSplit(buf, pos, [123], FieldsText(v, Keys(v), true) + [125]);
      FieldsRead(buf, pos + 1, v, Keys(v), None);
      KeysMap(v);
  }

  lemma DigitIsNone(b: byte)
    requires IsDigit(b) || b == 45
    ensures b != 110 && b != 116 && b != 102 && b != 34 && b != 91 && b != 123
  {
  }

  lemma {:induction false} ItemsRead(buf: seq<byte>, pos: nat, items: seq<Json>, first: bool)
    requires At(buf, pos, ItemsText(items, first) + [93])
    ensures ReadItems(buf, pos, first) == Got(items, pos + |ItemsText(items, first)| + 1)
    decreases items, 0, 0
  {
    hide At, Text, Delimited, ReadValue, Word;
    ItemsEmpty(buf, pos, items, first);
    if items != [] {
      ItemsSplit(buf, pos, items, first);
      var sep := Separator(first);
      assert ItemsText(items, first) + [93] == sep + (Text(items[0]) + ItemsText(items[1..], false) + [93]);
      AtSplit(buf, pos, sep, Text(items[0]) + ItemsText(items[1..], false) + [93]);
      WordAt(buf, pos, sep);
      ValueReads(buf, pos + |sep|, items[0]);
      ItemsRead(buf, pos + |sep| + |Text(items[0])|, items[1..], false);
      assert items == [items[0]] + items[1..];
    }
  }

  /** The fields of an object along some of its keys. */
  function FieldsAlong(v: Json, keys: seq<seq<scalar>>): (r: seq<Field>)
    requires v.Obj? && forall i :: 0 <= i < |keys| ==> keys[i] in v.fields
    ensures |r| == |keys|
  {
    if keys == [] then [] else [Field(keys[0], v.fields[keys[0]])] + FieldsAlong(v, keys[1..])
  }

  lemma {:induction false} FieldsRead(buf: seq<byte>, pos: nat, v: Json, keys: seq<seq<scalar>>, last: Option<seq<scalar>>)
    requires v.Obj? && (forall i :: 0 <= i < |keys| ==> keys[i] in v.fields) && Increasing(keys)
    requires last.Some? && keys != [] ==> Less(last.value, keys[0])
    requires At(buf, pos, FieldsText(v, keys, last.None?) + [125])
    ensures ReadFields(buf, pos, last) == Got(FieldsAlong(v, keys), pos + |FieldsText(v, keys, last.None?)| + 1)
    decreases v, 0, |keys|
  {
    hide At, Text, Delimited, ReadValue, ReadString, StringText, Word, Less;
    var first := last.None?;
    FieldsEmpty(buf, pos, v, keys, first);
    if keys != [] {
      FieldsSplit(buf, pos, v, keys, first);
      ColonsStand(buf, pos, v, keys, first);
      var at := pos + |Separator(first)|;
      StringReads(buf, at, keys[0]);
      var colon := at + |StringText(keys[0])|;
      ValueReads(buf, colon + 2, v.fields[keys[0]]);
      NextKey(keys);
      FieldsRead(buf, colon + 2 + |Text(v.fields[keys[0]])|, v, keys[1..], Some(keys[0]));
    }
  }

  lemma NextKey(keys: seq<seq<scalar>>)
    requires Increasing(keys) && keys != []
    ensures Increasing(keys[1..]) && (|keys| > 1 ==> Less(keys[0], keys[1..][0]))
  {
    hide Less;
  }

  lemma ColonsStand(buf: seq<byte>, pos: nat, v: Json, keys: seq<seq<scalar>>, first: bool)
    requires v.Obj? && keys != [] && forall i :: 0 <= i < |keys| ==> keys[i] in v.fields
    requires At(buf, pos, FieldsText(v, keys, first) + [125])
    ensures Word(buf, pos, Separator(first)) && Word(buf, pos + |Separator(first)| + |StringText(keys[0])|, [58, 32])
    ensures |FieldsText(v, keys, first)| ==
            |Separator(first)| + |StringText(keys[0])| + 2 + |Text(v.fields[keys[0]])| + |FieldsText(v, keys[1..], false)|
    ensures Separator(false) == [44, 32] && Separator(true) == []
  {
    hide Text, At, StringText, Word;
    var sep, key, colon := Separator(first), StringText(keys[0]), [COLON, SPACE];
    var val, tail := Text(v.fields[keys[0]]), FieldsText(v, keys[1..], false) + [125];
    FieldsHead(v, keys, first);
    AtSplit(buf, pos, sep, key + (colon + (val + tail)));
    AtSplit(buf, pos + |sep|, key, colon + (val + tail));
    AtSplit(buf, pos + |sep| + |key|, colon, val + tail);
    WordAt(buf, pos, sep);
    WordAt(buf, pos + |sep| + |key|, colon);
  }

  lemma {:induction false} MapAlong(v: Json, keys: seq<seq<scalar>>)
    requires v.Obj? && forall i :: 0 <= i < |keys| ==> keys[i] in v.fields
    ensures forall k :: k in MapOf(FieldsAlong(v, keys)) <==> k in keys
    ensures forall k :: k in keys ==> MapOf(FieldsAlong(v, keys))[k] == v.fields[k]
  {
    if keys != [] {
      MapAlong(v, keys[1..]);
      assert FieldsAlong(v, keys)[1..] == FieldsAlong(v, keys[1..]);
      assert keys == [keys[0]] + keys[1..];
    }
  }

  lemma KeysMap(v: Json)
    requires v.Obj?
    ensures MapOf(FieldsAlong(v, Keys(v))) == v.fields
  {
    hide Increasing;
    MapAlong(v, Keys(v));
  }

  // ---- nothing else reads as the value ----

  /** What the reader accepts is the text of the value it gives. */
  lemma {:induction false} ValueIs(buf: seq<byte>, pos: nat)
    requires ReadValue(buf, pos).Got?
    ensures var r := ReadValue(buf, pos); At(buf, pos, Text(r.value)) && r.next == pos + |Text(r.value)|
    decreases |buf| - pos, 0
  {
    hide At, ItemsText, FieldsText, StringText, Numeral, Keys, ReadString, ReadInt, ReadItems, ReadFields, Word, MapOf;
    var b := buf[pos];
    if b == 110 {
      WordAt(buf, pos, NULL_TEXT);
    } else if b == 116 {
      WordAt(buf, pos, TRUE_TEXT);
    } else if b == 102 {
      WordAt(buf, pos, FALSE_TEXT);
    } else if b == 34 {
      StringIs(buf, pos);
    } else if b == 91 {
      ItemsAre(buf, pos + 1, true);
      AtOne(buf, pos, 91);
      AtJoin(buf, pos, [91], ItemsText(ReadItems(buf, pos + 1, true).value, true) + [93]);
    } else if b == 123 {
      var fields := ReadFields(buf, pos + 1, None).value;
      var v := Obj(MapOf(fields));
      FieldsIncrease(buf, pos + 1, None);
      MapKeys(fields);
      FieldsAre(buf, pos + 1, None, v);
      AtOne(buf, pos, 123);
      AtJoin(buf, pos, [123], FieldsText(v, Keys(v), true) + [125]);
    } else {
      IntIs(buf, pos);
    }
  }

  lemma {:induction false} ItemsAre(buf: seq<byte>, pos: nat, first: bool)
    requires ReadItems(buf, pos, first).Got?
    ensures var r := ReadItems(buf, pos, first);
            At(buf, pos, ItemsText(r.value, first) + [93]) && r.next == pos + |ItemsText(r.value, first)| + 1
    decreases |buf| - pos, 1
  {
    hide At, Text, ReadValue, Word;
    if CanonicalReader.Has(buf, pos, 93) {
      AtOne(buf, pos, 93);
      assert ItemsText([], first) + [93] == [93];
    } else {
      var sep := Separator(first);
      var at := pos + |sep|;
      WordAt(buf, pos, sep);
      if first { AtNothing(buf, pos); }
      ValueIs(buf, at);
      var v, mid := ReadValue(buf, at).value, ReadValue(buf, at).next;
      ItemsAre(buf, mid, false);
      var rest := ReadItems(buf, mid, false).value;
      var tail := ItemsText(rest, false) + [93];
      AtJoin(buf, at, Text(v), tail);
      AtJoin(buf, pos, sep, Text(v) + tail);
      assert ([v] + rest)[1..] == rest;
      assert ItemsText([v] + rest, first) + [93] == sep + (Text(v) + tail);
    }
  }

  lemma AtNothing(buf: seq<byte>, pos: nat)
    requires pos <= |buf|
    ensures At(buf, pos, [])
  {
  }

  function KeysOf(fields: seq<Field>): (r: seq<seq<scalar>>)
    ensures |r| == |fields| && forall i :: 0 <= i < |r| ==> r[i] == fields[i].key
  {
    seq(|fields|, i requires 0 <= i < |fields| => fields[i].key)
  }

  lemma {:induction false} FieldsIncrease(buf: seq<byte>, pos: nat, last: Option<seq<scalar>>)
    requires ReadFields(buf, pos, last).Got?
    ensures var keys := KeysOf(ReadFields(buf, pos, last).value);
            Increasing(keys) && (last.Some? ==> forall k :: k in keys ==> Less(last.value, k))
    decreases |buf| - pos
  {
    hide ReadValue, ReadString, Word, Less;
    if !CanonicalReader.Has(buf, pos, 125) {
      var fields := ReadFields(buf, pos, last).value;
      var key, colon := ReadString(buf, if last.None? then pos else pos + 2).value, ReadString(buf, if last.None? then pos else pos + 2).next;
      var mid := ReadValue(buf, colon + 2).next;
      FieldsIncrease(buf, mid, Some(key));
      var rest := ReadFields(buf, mid, Some(key)).value;
      assert fields == [Field(key, ReadValue(buf, colon + 2).value)] + rest;
      assert KeysOf(fields) == [key] + KeysOf(rest);
      ConsIncreasing(key, KeysOf(rest));
      if last.Some? {
        forall k | k in KeysOf(fields)
          ensures Less(last.value, k)
        {
          if k != key { LessTransitive(last.value, key, k); }
        }
      }
    }
  }

  /** The map of fields with increasing keys has just those keys and values. */
  lemma {:induction false} MapKeys(fields: seq<Field>)
    requires Increasing(KeysOf(fields))
    ensures var v := Obj(MapOf(fields));
            && Keys(v) == KeysOf(fields)
            && forall i :: 0 <= i < |fields| ==> fields[i].key in v.fields && v.fields[fields[i].key] == fields[i].val
  {
    MapLooks(fields);
    hide MapOf, Increasing;
    var v := Obj(MapOf(fields));
    forall k
      ensures k in Keys(v) <==> k in KeysOf(fields)
    {
    }
    IncreasingUnique(Keys(v), KeysOf(fields));
  }

  lemma {:induction false} MapLooks(fields: seq<Field>)
    requires Increasing(KeysOf(fields))
    ensures forall k :: k in MapOf(fields) <==> k in KeysOf(fields)
    ensures forall i :: 0 <= i < |fields| ==> fields[i].key in MapOf(fields) && MapOf(fields)[fields[i].key] == fields[i].val
  {
    hide Less;
    if fields != [] {
      assert KeysOf(fields) == [fields[0].key] + KeysOf(fields[1..]);
      assert Increasing(KeysOf(fields[1..])) by {
        assert forall i :: 0 <= i < |fields| - 1 ==> KeysOf(fields[1..])[i] == KeysOf(fields)[i + 1];
      }
      MapLooks(fields[1..]);
      forall i | 0 <= i < |fields|
        ensures fields[i].key in MapOf(fields) && MapOf(fields)[fields[i].key] == fields[i].val
      {
        if i > 0 {
          assert fields[1..][i - 1] == fields[i];
          assert Less(KeysOf(fields)[0], KeysOf(fields)[i]);
          LessIrreflexive(fields[0].key);
        }
      }
    }
  }

  /** The parts that a member list starts with. */
  lemma MemberParts(buf: seq<byte>, pos: nat, last: Option<seq<scalar>>) returns (key: seq<scalar>, colon: nat, val: Json, mid: nat)
    requires ReadFields(buf, pos, last).Got? && !CanonicalReader.Has(buf, pos, 125)
    ensures var at := pos + |Separator(last.None?)|;
            && At(buf, pos, Separator(last.None?)) && At(buf, at, StringText(key)) && colon == at + |StringText(key)|
            && At(buf, colon, [COLON, SPACE]) && ReadValue(buf, colon + 2) == Got(val, mid)
    ensures ReadFields(buf, mid, Some(key)).Got? && mid > pos
    ensures ReadFields(buf, pos, last) ==
            Got([Field(key, val)] + ReadFields(buf, mid, Some(key)).value, ReadFields(buf, mid, Some(key)).next)
  {
    hide At, ReadValue, ReadString, StringText, Word, Less;
    var at := pos + |Separator(last.None?)|;
    WordAt(buf, pos, [44, 32]);
    if last.None? { AtNothing(buf, pos); }
    StringIs(buf, at);
    key, colon := ReadString(buf, at).value, ReadString(buf, at).next;
    WordAt(buf, colon, [58, 32]);
    val, mid := ReadValue(buf, colon + 2).value, ReadValue(buf, colon + 2).next;
  }

  lemma NoFieldsLeft(buf: seq<byte>, pos: nat, last: Option<seq<scalar>>, v: Json)
    requires CanonicalReader.Has(buf, pos, 125) && v.Obj?
    ensures ReadFields(buf, pos, last) == Got([], pos + 1) && KeysOf([]) == []
    ensures FieldsText(v, [], last.None?) == [] && At(buf, pos, FieldsText(v, [], last.None?) + [125])
  {
    AtOne(buf, pos, 125);
    assert [] + [125] == [125];
  }

  lemma {:induction false} FieldsAre(buf: seq<byte>, pos: nat, last: Option<seq<scalar>>, v: Json)
    requires ReadFields(buf, pos, last).Got? && v.Obj?
    requires forall i :: 0 <= i < |ReadFields(buf, pos, last).value| ==>
               var f := ReadFields(buf, pos, last).value[i]; f.key in v.fields && v.fields[f.key] == f.val
    ensures var r := ReadFields(buf, pos, last);
            && (forall i :: 0 <= i < |KeysOf(r.value)| ==> KeysOf(r.value)[i] in v.fields)
            && At(buf, pos, FieldsText(v, KeysOf(r.value), last.None?) + [125])
            && r.next == pos + |FieldsText(v, KeysOf(r.value), last.None?)| + 1
    decreases |buf| - pos, 1
  {
    hide At, Text, ReadFields, ReadValue, StringText, FieldsText, Separator, KeysOf, CanonicalReader.Has;
    if CanonicalReader.Has(buf, pos, 125) {
      NoFieldsLeft(buf, pos, last, v);
    } else {
      var fields := ReadFields(buf, pos, last).value;
      var key, colon, val, mid := MemberParts(buf, pos, last);
      var rest := ReadFields(buf, mid, Some(key)).value;
      ValueIs(buf, colon + 2);
      FirstField(Field(key, val), rest, v);
      FieldsAre(buf, mid, Some(key), v);
      FieldsJoin(buf, pos, v, KeysOf(fields), last.None?);
    }
  }

  lemma FirstField(f: Field, rest: seq<Field>, v: Json)
    requires v.Obj?
    requires forall i :: 0 <= i < |[f] + rest| ==> var g := ([f] + rest)[i]; g.key in v.fields && v.fields[g.key] == g.val
    ensures f.key in v.fields && v.fields[f.key] == f.val
    ensures forall i :: 0 <= i < |rest| ==> rest[i].key in v.fields && v.fields[rest[i].key] == rest[i].val
    ensures forall i :: 0 <= i < |KeysOf([f] + rest)| ==> KeysOf([f] + rest)[i] in v.fields
    ensures KeysOf([f] + rest) == [f.key] + KeysOf(rest) && KeysOf([f] + rest)[1..] == KeysOf(rest)
  {
    var fields := [f] + rest;
    assert fields[0] == f && forall i :: 0 <= i < |rest| ==> fields[i + 1] == rest[i];
    assert KeysOf(fields) == [f.key] + KeysOf(rest);
  }

  lemma AtFive(buf: seq<byte>, pos: nat, a: seq<byte>, b: seq<byte>, c: seq<byte>, d: seq<byte>, e: seq<byte>)
    requires At(buf, pos, a) && At(buf, pos + |a|, b) && At(buf, pos + |a| + |b|, c)
    requires At(buf, pos + |a| + |b| + |c|, d) && At(buf, pos + |a| + |b| + |c| + |d|, e)
    ensures At(buf, pos, a + (b + (c + (d + e))))
  {
    hide At;
    AtJoin(buf, pos + |a| + |b| + |c|, d, e);
    AtJoin(buf, pos + |a| + |b|, c, d + e);
    AtJoin(buf, pos + |a|, b, c + (d + e));
    AtJoin(buf, pos, a, b + (c + (d + e)));
  }

  /** The parts of a member list, each in its place, make the list. */
  lemma FieldsJoin(buf: seq<byte>, pos: nat, v: Json, keys: seq<seq<scalar>>, first: bool)
    requires v.Obj? && keys != [] && forall i :: 0 <= i < |keys| ==> keys[i] in v.fields
    requires var at := pos + |Separator(first)|;
             var colon := at + |StringText(keys[0])|;
             var val := Text(v.fields[keys[0]]);
             && At(buf, pos, Separator(first)) && At(buf, at, StringText(keys[0])) && At(buf, colon, [COLON, SPACE])
             && At(buf, colon + 2, val) && At(buf, colon + 2 + |val|, FieldsText(v, keys[1..], false) + [125])
    ensures At(buf, pos, FieldsText(v, keys, first) + [125])
    ensures |FieldsText(v, keys, first)| ==
            |Separator(first)| + |StringText(keys[0])| + 2 + |Text(v.fields[keys[0]])| + |FieldsText(v, keys[1..], false)|
  {
    hide Text, StringText, Separator, At, FieldsText;
    AtFive(buf, pos, Separator(first), StringText(keys[0]), [COLON, SPACE], Text(v.fields[keys[0]]),
           FieldsText(v, keys[1..], false) + [125]);
    FieldsHead(v, keys, first);
    FiveLength(Separator(first), StringText(keys[0]), [COLON, SPACE], Text(v.fields[keys[0]]), FieldsText(v, keys[1..], false),
               FieldsText(v, keys, first));
  }

  lemma FiveLength(a: seq<byte>, b: seq<byte>, c: seq<byte>, d: seq<byte>, e: seq<byte>, all: seq<byte>)
    requires all + [125] == a + (b + (c + (d + (e + [125]))))
    ensures |all| == |a| + |b| + |c| + |d| + |e|
  {
    assert |all + [125]| == |all| + 1;
    assert |a + (b + (c + (d + (e + [125]))))| == |a| + |b| + |c| + |d| + |e| + 1;
  }

  /** Exactly one text reads as a value: its canonical text. */
  lemma ReadsAsIff(text: seq<byte>, v: Json)
    ensures ReadText(text) == Some(v) <==> text == Text(v)
  {
    hide Text, ReadValue;
    if ReadText(text) == Some(v) {
      ValueIs(text, 0);
      assert text[0..0 + |text|] == text;
    }
    if text == Text(v) {
      assert text[0..0 + |text|] == text;
      ValueReads(text, 0, v);
    }
  }
}
