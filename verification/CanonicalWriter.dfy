/** The serializer as it runs: appends to one output, keys sorted by their UTF-8 bytes. */
module CanonicalWriter {
  import opened Prelude
  import opened Lex
  import opened Sorting
  import opened Unicode
  import opened KeyOrder
  import opened Decimal
  import opened CanonicalJson
  import opened CanonicalProofs
  import opened CanonicalReader
  import opened CanonicalReadBack

  lemma {:induction false} BodySnoc(s: seq<scalar>, i: nat)
    requires i < |s|
    ensures Body(s[..i + 1]) == Body(s[..i]) + Escape(s[i])
  {
    hide Escape;
    if i == 0 {
      assert s[..1][1..] == [];
    } else {
      assert s[..i + 1][1..] == s[1..][..i] && s[..i][1..] == s[1..][..i - 1];
      BodySnoc(s[1..], i - 1);
    }
  }

  lemma {:induction false} ItemsSnoc(items: seq<Json>, i: nat, first: bool)
    requires i < |items|
    ensures ItemsText(items[..i + 1], first) ==
            ItemsText(items[..i], first) + Separator(first && i == 0) + Text(items[i])
  {
    hide Text;
    if i == 0 {
      assert items[..1][1..] == [] && items[..0] == [];
    } else {
      assert items[..i + 1][1..] == items[1..][..i] && items[..i][1..] == items[1..][..i - 1];
      ItemsSnoc(items[1..], i - 1, false);
    }
  }

  lemma {:induction false} FieldsSnoc(v: Json, keys: seq<seq<scalar>>, i: nat, first: bool)
    requires v.Obj? && i < |keys| && forall j :: 0 <= j < |keys| ==> keys[j] in v.fields
    ensures FieldsText(v, keys[..i + 1], first) ==
            FieldsText(v, keys[..i], first) + Separator(first && i == 0) + StringText(keys[i]) + [COLON, SPACE] +
            Text(v.fields[keys[i]])
    decreases i
  {
    hide Text, StringText;
    if i == 0 {
      assert keys[..1][1..] == [] && keys[..0] == [];
    } else {
      assert keys[..i + 1][1..] == keys[1..][..i] && keys[..i][1..] == keys[1..][..i - 1];
      FieldsSnoc(v, keys[1..], i - 1, false);
      FieldsRegroup(v, keys, i, first);
    }
  }

  lemma FieldsRegroup(v: Json, keys: seq<seq<scalar>>, i: nat, first: bool)
    requires v.Obj? && 0 < i < |keys| && forall j :: 0 <= j < |keys| ==> keys[j] in v.fields
    requires FieldsText(v, keys[1..][..i], false) ==
             FieldsText(v, keys[1..][..i - 1], false) + Separator(false) + StringText(keys[i]) + [COLON, SPACE] +
             Text(v.fields[keys[i]])
    ensures FieldsText(v, keys[..i + 1], first) ==
            FieldsText(v, keys[..i], first) + Separator(false) + StringText(keys[i]) + [COLON, SPACE] +
            Text(v.fields[keys[i]])
  {
    hide Text, StringText, Separator;
    assert keys[..i + 1][1..] == keys[1..][..i] && keys[..i][1..] == keys[1..][..i - 1];
    var front := StringText(keys[0]);
    var val := Text(v.fields[keys[0]]);
    Regroup(Separator(first), front, [COLON, SPACE], val, FieldsText(v, keys[1..][..i - 1], false),
            Separator(false), StringText(keys[i]), [COLON, SPACE], Text(v.fields[keys[i]]));
  }

  lemma Regroup(a: seq<byte>, b: seq<byte>, c: seq<byte>, d: seq<byte>, e: seq<byte>,
                p: seq<byte>, q: seq<byte>, r: seq<byte>, s: seq<byte>)
    ensures a + (b + (c + (d + (e + p + q + r + s)))) == a + (b + (c + (d + e))) + p + q + r + s
  {
    assert a + (b + (c + (d + (e + p + q + r + s)))) == a + b + c + d + e + p + q + r + s;
    assert a + (b + (c + (d + e))) == a + b + c + d + e;
  }

  method PushEscaped(out: seq<byte>, c: scalar) returns (r: seq<byte>)
    ensures r == out + Escape(c)
  {
    hide UnitEscape;
    if c == 34 {
      r := out + [BACKSLASH, QUOTE];
    } else if c == 92 {
      r := out + [BACKSLASH, BACKSLASH];
    } else if c == 10 {
      r := out + [BACKSLASH, 110];
    } else if c == 13 {
      r := out + [BACKSLASH, 114];
    } else if c == 9 {
      r := out + [BACKSLASH, 116];
    } else if c == 8 {
      r := out + [BACKSLASH, 98];
    } else if c == 12 {
      r := out + [BACKSLASH, 102];
    } else if c < 0x20 || c > 0x7e {
      if c > 0xFFFF {
        var v := c - 0x10000;
        r := out + UnitEscape(0xD800 + v / 1024);
        r := r + UnitEscape(0xDC00 + v % 1024);
      } else {
        r := out + UnitEscape(c);
      }
    } else {
      r := out + [c];
    }
  }

  /** The string in quotes, escaped: what reads back as it. */
  method WritePyString(out: seq<byte>, s: seq<scalar>) returns (r: seq<byte>)
    ensures r == out + StringText(s) && ReadString(r, |out|) == Got(s, |r|)
  {
    hide Escape, Body, ReadString;
    r := out + [QUOTE];
    NoText();
    for i := 0 to |s|
      invariant r == out + [QUOTE] + Body(s[..i])
    {
      BodySnoc(s, i);
      r := PushEscaped(r, s[i]);
    }
    assert s[..|s|] == s;
    r := r + [QUOTE];
    assert r[|out|..|out| + |StringText(s)|] == StringText(s);
    StringReads(r, |out|, s);
  }

  lemma NoText()
    ensures Body([]) == [] && ItemsText([], true) == []
  {
  }

  lemma NoFields(v: Json)
    requires v.Obj?
    ensures FieldsText(v, [], true) == []
  {
  }

  method WriteValue(out: seq<byte>, v: Json) returns (r: seq<byte>)
    ensures r == out + Text(v)
    decreases v, 1
  {
    hide ItemsText, FieldsText, StringText, Keys;
    match v
    case Null => r := out + NULL_TEXT;
    case Bool(b) => r := out + if b then TRUE_TEXT else FALSE_TEXT;
    case Int(n) => r := out + Numeral(n);
    case Str(s) => r := WritePyString(out, s);
    case Arr(items) =>
      r := WriteItems(out + [91], items);
      r := r + [93];
    case Obj(_) =>
      r := WriteFields(out + [123], v);
      r := r + [125];
  }

  method WriteItems(out: seq<byte>, items: seq<Json>) returns (r: seq<byte>)
    ensures r == out + ItemsText(items, true)
    decreases items, 0
  {
    hide ItemsText, Text;
    r := out;
    NoText();
    for i := 0 to |items|
      invariant r == out + ItemsText(items[..i], true)
    {
      ItemsSnoc(items, i, true);
      if i > 0 {
        r := r + [COMMA, SPACE];
      }
      r := WriteValue(r, items[i]);
    }
    assert items[..|items|] == items;
  }

  lemma Gather(out: seq<byte>, a: seq<byte>, b: seq<byte>, c: seq<byte>, d: seq<byte>, e: seq<byte>)
    ensures out + a + b + c + d + e == out + (a + b + c + d + e)
    ensures out + a + [] == out + a
  {
  }

  method WriteFields(out: seq<byte>, v: Json) returns (r: seq<byte>)
    requires v.Obj?
    ensures r == out + FieldsText(v, Keys(v), true)
    decreases v, 0
  {
    hide FieldsText, Text, StringText, Increasing, Keys;
    var keys := SortKeys(v.fields.Keys);
    assert keys == Keys(v) by { IncreasingUnique(keys, Keys(v)); }
    r := out;
    NoFields(v);
    for i := 0 to |keys|
      invariant r == out + FieldsText(v, keys[..i], true)
    {
      ghost var before := FieldsText(v, keys[..i], true);
      FieldsSnoc(v, keys, i, true);
      Gather(out, before, Separator(i == 0), StringText(keys[i]), [COLON, SPACE], Text(v.fields[keys[i]]));
      if i > 0 {
        r := r + [COMMA, SPACE];
      }
      r := WritePyString(r, keys[i]);
      r := r + [COLON, SPACE];
      r := WriteValue(r, v.fields[keys[i]]);
    }
    assert keys[..|keys|] == keys;
  }

  /** The text of a value: printable, and the one text that reads as the value. */
  method DumpsSorted(v: Json) returns (r: seq<byte>)
    ensures r == Text(v) && Printable(r) && forall w :: Text(w) == r ==> w == v
    ensures ReadText(r) == Some(v) && forall t :: ReadText(t) == Some(v) ==> t == r
  {
    hide Text, Printable, ReadText;
    forall t
      ensures ReadText(t) == Some(v) <==> t == Text(v)
    {
      ReadsAsIff(t, v);
    }
    r := WriteValue([], v);
    TextPrintable(v);
    forall w | Text(w) == r
      ensures w == v
    {
      TextInjective(v, w);
    }
  }
}
