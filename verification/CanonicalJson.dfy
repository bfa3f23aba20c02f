/** The text that signatures cover: JSON with sorted keys, `", "` and `": "` separators and ASCII escapes. */
module CanonicalJson {
  import opened Prelude
  import opened Lex
  import opened Sorting
  import opened Unicode
  import opened Decimal
  import opened Hex

  datatype Json =
    | Null
    | Bool(b: bool)
    | Int(n: int)
    | Str(s: seq<scalar>)
    | Arr(items: seq<Json>)
    | Obj(fields: map<seq<scalar>, Json>)

  const QUOTE: byte := 34
  const COMMA: byte := 44
  const SPACE: byte := 32
  const COLON: byte := 58
  const BACKSLASH: byte := 92
  const NULL_TEXT: seq<byte> := [110, 117, 108, 108]
  const TRUE_TEXT: seq<byte> := [116, 114, 117, 101]
  const FALSE_TEXT: seq<byte> := [102, 97, 108, 115, 101]

  /** Four lower-case hexadecimal digits. */
  function Hex4(n: nat): (r: seq<byte>)
    requires n < 0x10000
  {
    [HexDigit(n / 4096), HexDigit((n / 256) % 16), HexDigit((n / 16) % 16), HexDigit(n % 16)]
  }

  function UnitEscape(n: nat): (r: seq<byte>)
    requires n < 0x10000
  {
    [BACKSLASH, 117] + Hex4(n)
  }

  /** What one character of a string becomes. */
  function Escape(c: scalar): (r: seq<byte>)
  {
    if c == 34 then [BACKSLASH, QUOTE]
    else if c == 92 then [BACKSLASH, BACKSLASH]
    else if c == 10 then [BACKSLASH, 110]
    else if c == 13 then [BACKSLASH, 114]
    else if c == 9 then [BACKSLASH, 116]
    else if c == 8 then [BACKSLASH, 98]
    else if c == 12 then [BACKSLASH, 102]
    else if c < 0x20 || c > 0x7e then
      if c > 0xFFFF then
        var v := c - 0x10000;
        UnitEscape(0xD800 + v / 1024) + UnitEscape(0xDC00 + v % 1024)
      else UnitEscape(c)
    else [c]
  }

  function Body(s: seq<scalar>): (r: seq<byte>)
  {
    if s == [] then [] else Escape(s[0]) + Body(s[1..])
  }

  function StringText(s: seq<scalar>): (r: seq<byte>) { [QUOTE] + (Body(s) + [QUOTE]) }

  /** The keys of an object in code-point order. */
  ghost function Keys(v: Json): (r: seq<seq<scalar>>)
    requires v.Obj?
    ensures Increasing(r) && forall k :: k in r <==> k in v.fields
  {
    var all: seq<seq<int>> := Ordered(v.fields.Keys);
    assert forall i :: 0 <= i < |all| ==> all[i] in v.fields.Keys;
    all
  }

  ghost function Text(v: Json): (r: seq<byte>)
    decreases v, 1, 0
  {
    match v
    case Null => NULL_TEXT
    case Bool(b) => if b then TRUE_TEXT else FALSE_TEXT
    case Int(n) => Numeral(n)
    case Str(s) => StringText(s)
    case Arr(items) => [91] + (ItemsText(items, true) + [93])
    case Obj(_) => [123] + (FieldsText(v, Keys(v), true) + [125])
  }

  function Separator(first: bool): (r: seq<byte>) { if first then [] else [COMMA, SPACE] }

  /** Items joined by `", "`; `first` says that no separator is due before the first. */
  ghost function ItemsText(items: seq<Json>, first: bool): (r: seq<byte>)
    decreases items, 0, 0
  {
    if items == [] then [] else Separator(first) + (Text(items[0]) + ItemsText(items[1..], false))
  }

  ghost function FieldsText(v: Json, keys: seq<seq<scalar>>, first: bool): (r: seq<byte>)
    requires v.Obj? && forall i :: 0 <= i < |keys| ==> keys[i] in v.fields
    decreases v, 0, |keys|
  {
    if keys == [] then []
    else
      Separator(first) + (StringText(keys[0]) + ([COLON, SPACE] + (Text(v.fields[keys[0]]) + FieldsText(v, keys[1..], false))))
  }
}
