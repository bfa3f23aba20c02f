/** The canonical text is unambiguous and printable. */
module CanonicalProofs {
  import opened Prelude
  import opened Lex
  import opened Sorting
  import opened Unicode
  import opened Decimal
  import opened Hex
  import opened Placement
  import opened CanonicalJson

  // ---- strings ----

  lemma Hex4Unique(m: nat, n: nat)
    requires m < 0x10000 && n < 0x10000 && Hex4(m) == Hex4(n)
    ensures m == n
  {
    DigitUnique(m / 4096, n / 4096, 0, Hex4(m), Hex4(n));
    DigitUnique((m / 256) % 16, (n / 256) % 16, 1, Hex4(m), Hex4(n));
    DigitUnique((m / 16) % 16, (n / 16) % 16, 2, Hex4(m), Hex4(n));
    DigitUnique(m % 16, n % 16, 3, Hex4(m), Hex4(n));
    FromNibbles(m);
    FromNibbles(n);
  }

  lemma DigitUnique(a: nat, b: nat, i: nat, s: seq<byte>, t: seq<byte>)
    requires a < 16 && b < 16 && i < |s| && s == t && s[i] == HexDigit(a) && t[i] == HexDigit(b)
    ensures a == b
  {
  }

  lemma FromNibbles(n: nat)
    ensures n == 4096 * (n / 4096) + 256 * ((n / 256) % 16) + 16 * ((n / 16) % 16) + n % 16
  {
    assert n / 16 / 16 == n / 256 && n / 256 / 16 == n / 4096;
  }

  /** The first UTF-16 unit of a character. */
  function FirstUnit(c: scalar): nat { if c > 0xFFFF then 0xD800 + (c - 0x10000) / 1024 else c }

  predicate Unicoded(c: scalar)
  {
    (c < 0x20 || c > 0x7e) && c !in [34, 92, 10, 13, 9, 8, 12]
  }

  lemma UnicodedText(c: scalar)
    requires Unicoded(c)
    ensures |Escape(c)| >= 6 && Escape(c)[0] == BACKSLASH && Escape(c)[1] == 117 && Escape(c)[2..6] == Hex4(FirstUnit(c))
    ensures c > 0xFFFF ==> |Escape(c)| == 12 && Escape(c)[8..12] == Hex4(0xDC00 + (c - 0x10000) % 1024)
  {
    hide Hex4;
    FourDigits(FirstUnit(c));
    if c > 0xFFFF {
      FourDigits(0xDC00 + (c - 0x10000) % 1024);
    }
  }

  lemma FourDigits(n: nat)
    requires n < 0x10000
    ensures |Hex4(n)| == 4
  {
  }

  /** Characters with a short escape or none. */
  lemma ShortText(c: scalar)
    requires !Unicoded(c)
    ensures (Escape(c) == [c] && c != BACKSLASH && c != QUOTE) ||
            (|Escape(c)| == 2 && Escape(c)[0] == BACKSLASH && Escape(c)[1] != 117)
  {
  }

  lemma ShortUnique(c: scalar, d: scalar)
    requires !Unicoded(c) && !Unicoded(d) && |Escape(c)| <= |Escape(d)| && Escape(c) == Escape(d)[..|Escape(c)|]
    ensures c == d
  {
    assert Escape(c)[0] == Escape(d)[0];
    assert |Escape(c)| == 2 ==> Escape(c)[1] == Escape(d)[1];
  }

  lemma PrefixPoint(a: seq<byte>, b: seq<byte>, i: nat, j: nat)
    requires |a| <= |b| && a == b[..|a|] && i <= j <= |a|
    ensures a[i..j] == b[i..j]
  {
  }

  lemma EscapePrefix(c: scalar, d: scalar)
    requires |Escape(c)| <= |Escape(d)| && Escape(c) == Escape(d)[..|Escape(c)|]
    ensures c == d
  {
    if Unicoded(c) && Unicoded(d) {
      hide Escape, Hex4, Unicoded;
      UnicodedText(c);
      UnicodedText(d);
      PrefixPoint(Escape(c), Escape(d), 2, 6);
      Hex4Unique(FirstUnit(c), FirstUnit(d));
      if c > 0xFFFF && d > 0xFFFF {
        PrefixPoint(Escape(c), Escape(d), 8, 12);
        Hex4Unique(0xDC00 + (c - 0x10000) % 1024, 0xDC00 + (d - 0x10000) % 1024);
      }
    } else if !Unicoded(c) && !Unicoded(d) {
      ShortUnique(c, d);
    } else {
      hide Escape, Hex4;
      if Unicoded(c) {
        UnicodedText(c);
        ShortText(d);
      } else {
        ShortText(c);
        UnicodedText(d);
      }
    }
  }

  lemma EscapeUnique(buf: seq<byte>, pos: nat, c: scalar, d: scalar)
    requires At(buf, pos, Escape(c)) && At(buf, pos, Escape(d))
    ensures c == d
  {
    hide Escape;
    if |Escape(c)| <= |Escape(d)| {
      AtBoth(buf, pos, Escape(c), Escape(d));
      EscapePrefix(c, d);
    } else {
      AtBoth(buf, pos, Escape(d), Escape(c));
      EscapePrefix(d, c);
    }
  }

  lemma EscapeStart(c: scalar)
    ensures Escape(c) != [] && Escape(c)[0] != QUOTE
  {
  }

  lemma {:induction false} BodyUnique(buf: seq<byte>, pos: nat, s: seq<scalar>, t: seq<scalar>)
    requires At(buf, pos, Body(s) + [QUOTE]) && At(buf, pos, Body(t) + [QUOTE])
    ensures s == t
    decreases |s|
  {
    hide Escape, At;
    if s == [] || t == [] {
      assert [] + [QUOTE] == [QUOTE];
      AtIndex(buf, pos, Body(s) + [QUOTE], 0);
      AtIndex(buf, pos, Body(t) + [QUOTE], 0);
      if s != [] { EscapeStart(s[0]); }
      if t != [] { EscapeStart(t[0]); }
    } else {
      BodySplit(buf, pos, s);
      BodySplit(buf, pos, t);
      EscapeUnique(buf, pos, s[0], t[0]);
      BodyUnique(buf, pos + |Escape(s[0])|, s[1..], t[1..]);
      assert s == [s[0]] + s[1..] && t == [t[0]] + t[1..];
    }
  }

  lemma BodySplit(buf: seq<byte>, pos: nat, s: seq<scalar>)
    requires s != [] && At(buf, pos, Body(s) + [QUOTE])
    ensures At(buf, pos, Escape(s[0])) && At(buf, pos + |Escape(s[0])|, Body(s[1..]) + [QUOTE])
  {
    hide Escape, At;
    assert Body(s) + [QUOTE] == Escape(s[0]) + (Body(s[1..]) + [QUOTE]);
    AtSplit(buf, pos, Escape(s[0]), Body(s[1..]) + [QUOTE]);
  }

  lemma StringUnique(buf: seq<byte>, pos: nat, s: seq<scalar>, t: seq<scalar>)
    requires At(buf, pos, StringText(s)) && At(buf, pos, StringText(t))
    ensures s == t
  {
    hide Body, At;
    AtSplit(buf, pos, [QUOTE], Body(s) + [QUOTE]);
    AtSplit(buf, pos, [QUOTE], Body(t) + [QUOTE]);
    BodyUnique(buf, pos + 1, s, t);
  }

  // ---- values ----

  /** A value's text is followed by the end, a comma or a closing bracket. */
  predicate Delimited(buf: seq<byte>, pos: nat)
  {
    pos <= |buf| && (pos < |buf| ==> buf[pos] == COMMA || buf[pos] == 93 || buf[pos] == 125)
  }

  /** The first byte tells the kind of the value. */
  function Kind(b: byte): nat
  {
    if b == 110 then 0 else if b == 116 || b == 102 then 1 else if IsDigit(b) || b == 45 then 2
    else if b == QUOTE then 3 else if b == 91 then 4 else if b == 123 then 5 else 6
  }

  function KindOf(v: Json): nat
  {
    match v case Null => 0 case Bool(_) => 1 case Int(_) => 2 case Str(_) => 3 case Arr(_) => 4 case Obj(_) => 5
  }

  lemma TextStart(v: Json)
    ensures Text(v) != [] && Kind(Text(v)[0]) == KindOf(v) && Text(v)[0] != 93 && Text(v)[0] != 125
    ensures v.Bool? ==> (Text(v)[0] == 116 <==> v.b)
  {
    hide ItemsText, FieldsText, Body, Digits;
    if v.Int? {
      NumeralText(v.n);
    }
  }

  lemma NumeralText(n: int)
    ensures Numeral(n) != [] && forall i :: 0 <= i < |Numeral(n)| ==> IsDigit(Numeral(n)[i]) || Numeral(n)[i] == 45
  {
    hide Digits;
    if n < 0 { DigitsRead(-n); } else { DigitsRead(n); }
  }

  lemma NumeralInjective(m: int, n: int)
    requires Numeral(m) == Numeral(n)
    ensures m == n
  {
    hide Digits;
    if m < 0 { DigitsRead(-m); } else { DigitsRead(m); }
    if n < 0 { DigitsRead(-n); } else { DigitsRead(n); }
    if m < 0 && n < 0 {
      assert Numeral(m)[1..] == Digits(-m) && Numeral(n)[1..] == Digits(-n);
      DigitsInjective(-m, -n);
    } else if m >= 0 && n >= 0 {
      DigitsInjective(m, n);
    }
  }

  lemma IntUnique(buf: seq<byte>, pos: nat, m: int, n: int)
    requires At(buf, pos, Numeral(m)) && At(buf, pos, Numeral(n))
    requires Delimited(buf, pos + |Numeral(m)|) && Delimited(buf, pos + |Numeral(n)|)
    ensures m == n
  {
    hide Numeral, At;
    NumeralText(m);
    NumeralText(n);
    AtInside(buf, pos, Numeral(m));
    AtInside(buf, pos, Numeral(n));
    if |Numeral(m)| < |Numeral(n)| {
      AtIndex(buf, pos, Numeral(n), |Numeral(m)|);
    } else if |Numeral(n)| < |Numeral(m)| {
      AtIndex(buf, pos, Numeral(m), |Numeral(n)|);
    } else {
      AtBoth(buf, pos, Numeral(m), Numeral(n));
      NumeralInjective(m, n);
    }
  }

  /** Two delimited texts at the same place are of the same value. */
  lemma {:induction false} TextUnique(buf: seq<byte>, pos: nat, v: Json, w: Json)
    requires At(buf, pos, Text(v)) && At(buf, pos, Text(w))
    requires Delimited(buf, pos + |Text(v)|) && Delimited(buf, pos + |Text(w)|)
    ensures v == w
    decreases v, 1, 0
  {
    hide At, Delimited, ItemsText, FieldsText, StringText, Numeral, Keys, IsDigit;
    TextStart(v);
    TextStart(w);
    AtIndex(buf, pos, Text(v), 0);
    AtIndex(buf, pos, Text(w), 0);
    match v
    case Null =>
    case Bool(_) =>
    case Int(n) => IntUnique(buf, pos, n, w.n);
    case Str(s) => StringUnique(buf, pos, s, w.s);
    case Arr(items) =>
      AtSplit(buf, pos, [91], ItemsText(items, true) + [93]);
      AtSplit(buf, pos, [91], ItemsText(w.items, true) + [93]);
      ItemsUnique(buf, pos + 1, items, w.items, true);
    case Obj(_) =>
      AtSplit(buf, pos, [123], FieldsText(v, Keys(v), true) + [125]);
      AtSplit(buf, pos, [123], FieldsText(w, Keys(w), true) + [125]);
      FieldsUnique(buf, pos + 1, v, w, Keys(v), Keys(w), true);
      assert v.fields.Keys == w.fields.Keys;
  }

  lemma ThenDelimited(buf: seq<byte>, pos: nat, tail: seq<byte>)
    requires At(buf, pos, tail) && tail != [] && (tail[0] == COMMA || tail[0] == 93 || tail[0] == 125)
    ensures Delimited(buf, pos)
  {
    AtInside(buf, pos, tail);
    AtIndex(buf, pos, tail, 0);
  }

  /** Where the items go on or end. */
  lemma ItemsStart(items: seq<Json>)
    ensures ItemsText(items, false) + [93] != []
    ensures (ItemsText(items, false) + [93])[0] == if items == [] then 93 else COMMA
  {
  }

  lemma ItemsSplit(buf: seq<byte>, pos: nat, items: seq<Json>, first: bool)
    requires items != [] && At(buf, pos, ItemsText(items, first) + [93])
    ensures var at := pos + |Separator(first)|;
            && At(buf, at, Text(items[0]))
            && At(buf, at + |Text(items[0])|, ItemsText(items[1..], false) + [93])
            && Delimited(buf, at + |Text(items[0])|)
  {
    hide Text, At, Delimited;
    var sep, head, tail := Separator(first), Text(items[0]), ItemsText(items[1..], false) + [93];
    assert ItemsText(items, first) + [93] == sep + (head + tail);
    AtSplit(buf, pos, sep, head + tail);
    AtSplit(buf, pos + |sep|, head, tail);
    ItemsStart(items[1..]);
    ThenDelimited(buf, pos + |sep| + |head|, tail);
  }

  /** Whether a list of items is empty shows in the first byte. */
  lemma ItemsEmpty(buf: seq<byte>, pos: nat, items: seq<Json>, first: bool)
    requires At(buf, pos, ItemsText(items, first) + [93])
    ensures pos < |buf| && (items == [] <==> buf[pos] == 93)
  {
    hide Text, At;
    AtInside(buf, pos, ItemsText(items, first) + [93]);
    AtIndex(buf, pos, ItemsText(items, first) + [93], 0);
    if items != [] {
      TextStart(items[0]);
    }
  }

  lemma {:induction false} ItemsUnique(buf: seq<byte>, pos: nat, items: seq<Json>, others: seq<Json>, first: bool)
    requires At(buf, pos, ItemsText(items, first) + [93]) && At(buf, pos, ItemsText(others, first) + [93])
    ensures items == others
    decreases items, 0, 0
  {
    hide At, ItemsText, Text, Delimited;
    ItemsEmpty(buf, pos, items, first);
    ItemsEmpty(buf, pos, others, first);
    if items != [] {
      ItemsSplit(buf, pos, items, first);
      ItemsSplit(buf, pos, others, first);
      var at := pos + |Separator(first)|;
      TextUnique(buf, at, items[0], others[0]);
      ItemsUnique(buf, at + |Text(items[0])|, items[1..], others[1..], false);
      assert items == [items[0]] + items[1..] && others == [others[0]] + others[1..];
    }
  }

  lemma FieldsEmpty(buf: seq<byte>, pos: nat, v: Json, keys: seq<seq<scalar>>, first: bool)
    requires v.Obj? && forall i :: 0 <= i < |keys| ==> keys[i] in v.fields
    requires At(buf, pos, FieldsText(v, keys, first) + [125])
    ensures pos < |buf| && (keys == [] <==> buf[pos] == 125)
  {
    hide Text, At, Body;
    AtInside(buf, pos, FieldsText(v, keys, first) + [125]);
    AtIndex(buf, pos, FieldsText(v, keys, first) + [125], 0);
  }

  lemma FieldsStart(v: Json, keys: seq<seq<scalar>>)
    requires v.Obj? && forall i :: 0 <= i < |keys| ==> keys[i] in v.fields
    ensures FieldsText(v, keys, false) + [125] != []
    ensures (FieldsText(v, keys, false) + [125])[0] == if keys == [] then 125 else COMMA
  {
    hide Text, StringText;
  }

  lemma FieldsSplit(buf: seq<byte>, pos: nat, v: Json, keys: seq<seq<scalar>>, first: bool)
    requires v.Obj? && keys != [] && forall i :: 0 <= i < |keys| ==> keys[i] in v.fields
    requires At(buf, pos, FieldsText(v, keys, first) + [125])
    ensures var at := pos + |Separator(first)|;
            var val := at + |StringText(keys[0])| + 2;
            var end := val + |Text(v.fields[keys[0]])|;
            && At(buf, at, StringText(keys[0])) && At(buf, val, Text(v.fields[keys[0]]))
            && At(buf, end, FieldsText(v, keys[1..], false) + [125]) && Delimited(buf, end)
  {
    hide Text, At, StringText, FieldsText, Delimited, Separator;
    var sep, key, colon := Separator(first), StringText(keys[0]), [COLON, SPACE];
    var val, tail := Text(v.fields[keys[0]]), FieldsText(v, keys[1..], false) + [125];
    FieldsHead(v, keys, first);
    AtSplit(buf, pos, sep, key + (colon + (val + tail)));
    AtSplit(buf, pos + |sep|, key, colon + (val + tail));
    AtSplit(buf, pos + |sep| + |key|, colon, val + tail);
    AtSplit(buf, pos + |sep| + |key| + 2, val, tail);
    FieldsStart(v, keys[1..]);
    ThenDelimited(buf, pos + |sep| + |key| + 2 + |val|, tail);
  }

  lemma FieldsHead(v: Json, keys: seq<seq<scalar>>, first: bool)
    requires v.Obj? && keys != [] && forall i :: 0 <= i < |keys| ==> keys[i] in v.fields
    ensures FieldsText(v, keys, first) + [125] ==
            Separator(first) + (StringText(keys[0]) + ([COLON, SPACE] +
              (Text(v.fields[keys[0]]) + (FieldsText(v, keys[1..], false) + [125]))))
  {
    hide Text, StringText, Separator;
    CloseLast(Separator(first), StringText(keys[0]), [COLON, SPACE], Text(v.fields[keys[0]]), FieldsText(v, keys[1..], false));
  }

  lemma CloseLast(a: seq<byte>, b: seq<byte>, c: seq<byte>, d: seq<byte>, e: seq<byte>)
    ensures a + (b + (c + (d + e))) + [125] == a + (b + (c + (d + (e + [125]))))
  {
  }

  lemma {:induction false} FieldsUnique(buf: seq<byte>, pos: nat, v: Json, w: Json, keys: seq<seq<scalar>>,
                                        others: seq<seq<scalar>>, first: bool)
    requires v.Obj? && forall i :: 0 <= i < |keys| ==> keys[i] in v.fields
    requires w.Obj? && forall i :: 0 <= i < |others| ==> others[i] in w.fields
    requires At(buf, pos, FieldsText(v, keys, first) + [125]) && At(buf, pos, FieldsText(w, others, first) + [125])
    ensures keys == others && forall k :: k in keys ==> k in v.fields && k in w.fields && v.fields[k] == w.fields[k]
    decreases v, 0, |keys|
  {
    hide At, FieldsText, Text, Delimited, StringText;
    FieldsEmpty(buf, pos, v, keys, first);
    FieldsEmpty(buf, pos, w, others, first);
    if keys != [] {
      FieldsSplit(buf, pos, v, keys, first);
      FieldsSplit(buf, pos, w, others, first);
      var at := pos + |Separator(first)|;
      StringUnique(buf, at, keys[0], others[0]);
      var val := at + |StringText(keys[0])| + 2;
      TextUnique(buf, val, v.fields[keys[0]], w.fields[others[0]]);
      FieldsUnique(buf, val + |Text(v.fields[keys[0]])|, v, w, keys[1..], others[1..], false);
      assert keys == [keys[0]] + keys[1..] && others == [others[0]] + others[1..];
    }
  }

  /** Different values have different texts. */
  lemma TextInjective(v: Json, w: Json)
    requires Text(v) == Text(w)
    ensures v == w
  {
    hide Text;
    assert Text(v)[0..0 + |Text(v)|] == Text(v);
    TextUnique(Text(v), 0, v, w);
  }

  // ---- the alphabet ----

  predicate Printable(s: seq<byte>) { forall i :: 0 <= i < |s| ==> 0x20 <= s[i] <= 0x7e }

  lemma PrintableJoin(s: seq<byte>, t: seq<byte>)
    requires Printable(s) && Printable(t)
    ensures Printable(s + t)
  {
  }

  lemma {:induction false} BodyPrintable(s: seq<scalar>)
    ensures Printable(Body(s))
  {
    if s != [] {
      hide Escape;
      BodyPrintable(s[1..]);
      EscapePrintable(s[0]);
      PrintableJoin(Escape(s[0]), Body(s[1..]));
    }
  }

  lemma EscapePrintable(c: scalar)
    ensures Printable(Escape(c))
  {
  }

  lemma StringPrintable(s: seq<scalar>)
    ensures Printable(StringText(s))
  {
    hide Body;
    BodyPrintable(s);
  }

  /** Only printable ASCII is ever written. */
  lemma {:induction false} TextPrintable(v: Json)
    ensures Printable(Text(v))
    decreases v, 1, 0
  {
    hide ItemsText, FieldsText, StringText, Numeral;
    match v
    case Null =>
    case Bool(_) =>
    case Int(n) => NumeralText(n);
    case Str(s) => StringPrintable(s);
    case Arr(items) => ItemsPrintable(items, true);
    case Obj(_) => FieldsPrintable(v, Keys(v), true);
  }

  lemma {:induction false} ItemsPrintable(items: seq<Json>, first: bool)
    ensures Printable(ItemsText(items, first))
    decreases items, 0, 0
  {
    if items != [] {
      hide Text;
      TextPrintable(items[0]);
      ItemsPrintable(items[1..], false);
    }
  }

  lemma PunctuationPrintable(first: bool)
    ensures Printable([]) && Printable([COLON, SPACE]) && Printable(Separator(first))
  {
  }

  lemma {:induction false} FieldsPrintable(v: Json, keys: seq<seq<scalar>>, first: bool)
    requires v.Obj? && forall i :: 0 <= i < |keys| ==> keys[i] in v.fields
    ensures Printable(FieldsText(v, keys, first))
    decreases v, 0, |keys|
  {
    PunctuationPrintable(first);
    if keys != [] {
      hide Text, StringText, Printable;
      StringPrintable(keys[0]);
      TextPrintable(v.fields[keys[0]]);
      FieldsPrintable(v, keys[1..], false);
      var val, rest := Text(v.fields[keys[0]]), FieldsText(v, keys[1..], false);
      PrintableJoin(val, rest);
      PrintableJoin([COLON, SPACE], val + rest);
      PrintableJoin(StringText(keys[0]), [COLON, SPACE] + (val + rest));
      PrintableJoin(Separator(first), StringText(keys[0]) + ([COLON, SPACE] + (val + rest)));
    }
  }
}
