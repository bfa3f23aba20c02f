/**
 * A reader of JSON texts in the sense of RFC 8259, narrowed to one style: one space behind every comma and colon and no
 * other white space, keys in increasing order, a character of 0x20 to 0x7e as itself where it may stand so, a short
 * escape where there is one, and `\u` with lower-case digits for everything else. It shares nothing with the writer.
 */
module CanonicalReader {
  import opened Prelude
  import opened Lex
  import opened Sorting
  import opened Unicode
  import opened Decimal
  import opened CanonicalJson

  /** What was read, and where reading goes on. */
  datatype Read<+T> = Got(value: T, next: nat) | Bad

  /** One byte, if it stands at `pos`. */
  predicate Has(buf: seq<byte>, pos: nat, b: int) { pos < |buf| && buf[pos] == b }

  // ---- section 7: strings ----

  function HexOf(b: byte): (r: Option<nat>)
    ensures r.Some? ==> r.value < 16
  {
    if 48 <= b <= 57 then Some(b - 48) else if 97 <= b <= 102 then Some(b - 97 + 10) else None
  }

  /** `\uXXXX`: a UTF-16 unit. */
  function ReadUnit(buf: seq<byte>, pos: nat): (r: Read<nat>)
    ensures r.Got? ==> r.value < 0x10000 && r.next == pos + 6 <= |buf|
  {
    if pos + 6 > |buf| || buf[pos] != 92 || buf[pos + 1] != 117 then Bad
    else
      var a, b, c, d := HexOf(buf[pos + 2]), HexOf(buf[pos + 3]), HexOf(buf[pos + 4]), HexOf(buf[pos + 5]);
      if a.None? || b.None? || c.None? || d.None? then Bad
      else Got(0x1000 * a.value + 0x100 * b.value + 0x10 * c.value + d.value, pos + 6)
  }

  /** The character a two-byte escape stands for. */
  function ShortEscape(e: byte): (r: Option<scalar>)
  {
    if e == 34 then Some(0x22) // "
    else if e == 92 then Some(0x5c) // \
    else if e == 98 then Some(0x08) // b: backspace
    else if e == 102 then Some(0x0c) // f: form feed
    else if e == 110 then Some(0x0a) // n: line feed
    else if e == 114 then Some(0x0d) // r: carriage return
    else if e == 116 then Some(0x09) // t: tab
    else None
  }

  /** A character that may be spelled with `\u`: it has no other spelling. */
  predicate NeedsUnit(c: int)
  {
    !(0x20 <= c <= 0x7e) && c != 0x08 && c != 0x09 && c != 0x0a && c != 0x0c && c != 0x0d
  }

  /** `\u` escapes: one unit, or two that are a surrogate pair. */
  function ReadUnits(buf: seq<byte>, pos: nat): (r: Read<scalar>)
    ensures r.Got? ==> pos < r.next <= |buf|
  {
    match ReadUnit(buf, pos)
    case Bad => Bad
    case Got(u, mid) =>
      if 0xD800 <= u < 0xDC00 then
        match ReadUnit(buf, mid)
        case Bad => Bad
        case Got(l, next) =>
          if 0xDC00 <= l < 0xE000 then Got(0x10000 + (u - 0xD800) * 0x400 + (l - 0xDC00), next) else Bad
      else if 0xDC00 <= u < 0xE000 || !NeedsUnit(u) then Bad
      else Got(u, mid)
  }

  function ReadChar(buf: seq<byte>, pos: nat): (r: Read<scalar>)
    ensures r.Got? ==> pos < r.next <= |buf|
  {
    if pos >= |buf| then Bad
    else if buf[pos] == 92 then
      if pos + 1 >= |buf| then Bad
      else if buf[pos + 1] == 117 then ReadUnits(buf, pos)
      else if ShortEscape(buf[pos + 1]).Some? then Got(ShortEscape(buf[pos + 1]).value, pos + 2)
      else Bad
    else if buf[pos] == 34 || buf[pos] < 0x20 || buf[pos] > 0x7e then Bad
    else Got(buf[pos], pos + 1)
  }

  /** From just behind the opening quote. */
  function ReadBody(buf: seq<byte>, pos: nat): (r: Read<seq<scalar>>)
    ensures r.Got? ==> pos < r.next <= |buf|
    decreases |buf| - pos
  {
    if Has(buf, pos, 34) then Got([], pos + 1)
    else
      match ReadChar(buf, pos)
      case Bad => Bad
      case Got(c, mid) =>
        match ReadBody(buf, mid)
        case Bad => Bad
        case Got(s, next) => Got([c] + s, next)
  }

  function ReadString(buf: seq<byte>, pos: nat): (r: Read<seq<scalar>>)
    ensures r.Got? ==> pos < r.next <= |buf|
  {
    if Has(buf, pos, 34) then ReadBody(buf, pos + 1) else Bad
  }

  // ---- section 6: integers ----

  /** Where the digits at `pos` end. */
  function DigitsEnd(buf: seq<byte>, pos: nat): (end: nat)
    requires pos <= |buf|
    ensures pos <= end <= |buf| && AllDigits(buf[pos..end]) && (end < |buf| ==> !IsDigit(buf[end]))
    decreases |buf| - pos
  {
    if pos < |buf| && IsDigit(buf[pos]) then
      var end := DigitsEnd(buf, pos + 1);
      assert buf[pos..end] == [buf[pos]] + buf[pos + 1..end];
      end
    else pos
  }

  /** Digits without a leading zero but in `0` itself. */
  function ReadNat(buf: seq<byte>, pos: nat): (r: Read<nat>)
    ensures r.Got? ==> pos < r.next <= |buf|
  {
    if pos > |buf| then Bad
    else
      var end := DigitsEnd(buf, pos);
      if end == pos || (buf[pos] == 48 && end > pos + 1) then Bad else Got(Number(buf[pos..end]), end)
  }

  function ReadInt(buf: seq<byte>, pos: nat): (r: Read<int>)
    ensures r.Got? ==> pos < r.next <= |buf|
  {
    if Has(buf, pos, 45) then
      match ReadNat(buf, pos + 1)
      case Bad => Bad
      case Got(n, next) => if n == 0 then Bad else (var m: int := n; Got(-m, next))
    else
      match ReadNat(buf, pos)
      case Bad => Bad
      case Got(n, next) => Got(n, next)
  }

  // ---- sections 3 to 5: values ----

  /** The bytes `w` at `pos`. */
  predicate Word(buf: seq<byte>, pos: nat, w: seq<byte>)
  {
    pos + |w| <= |buf| && buf[pos..pos + |w|] == w
  }

  datatype Field = Field(key: seq<scalar>, val: Json)

  function MapOf(fields: seq<Field>): (m: map<seq<scalar>, Json>)
  {
    if fields == [] then map[] else MapOf(fields[1..])[fields[0].key := fields[0].val]
  }

  function ReadValue(buf: seq<byte>, pos: nat): (r: Read<Json>)
    ensures r.Got? ==> pos < r.next <= |buf|
    decreases |buf| - pos, 0
  {
    if pos >= |buf| then Bad
    else if buf[pos] == 110 then if Word(buf, pos, [110, 117, 108, 108]) then Got(Null, pos + 4) else Bad // null
    else if buf[pos] == 116 then if Word(buf, pos, [116, 114, 117, 101]) then Got(Bool(true), pos + 4) else Bad // true
    else if buf[pos] == 102 then if Word(buf, pos, [102, 97, 108, 115, 101]) then Got(Bool(false), pos + 5) else Bad // false
    else if buf[pos] == 34 then
      match ReadString(buf, pos) { case Bad => Bad case Got(s, next) => Got(Str(s), next) }
    else if buf[pos] == 91 then // [
      match ReadItems(buf, pos + 1, true) { case Bad => Bad case Got(items, next) => Got(Arr(items), next) }
    else if buf[pos] == 123 then // {
      match ReadFields(buf, pos + 1, None) { case Bad => Bad case Got(fields, next) => Got(Obj(MapOf(fields)), next) }
    else
      match ReadInt(buf, pos) { case Bad => Bad case Got(n, next) => Got(Int(n), next) }
  }

  /** Items up to the closing bracket; all but the first behind a comma and one space. */
  function ReadItems(buf: seq<byte>, pos: nat, first: bool): (r: Read<seq<Json>>)
    ensures r.Got? ==> pos < r.next <= |buf|
    decreases |buf| - pos, 1
  {
    if Has(buf, pos, 93) then Got([], pos + 1) // ]
    else if !first && !Word(buf, pos, [44, 32]) then Bad
    else
      match ReadValue(buf, if first then pos else pos + 2)
      case Bad => Bad
      case Got(v, mid) =>
        match ReadItems(buf, mid, false)
        case Bad => Bad
        case Got(rest, next) => Got([v] + rest, next)
  }

  /** Members up to the closing brace, keys increasing, each followed by a colon and one space. */
  function ReadFields(buf: seq<byte>, pos: nat, last: Option<seq<scalar>>): (r: Read<seq<Field>>)
    ensures r.Got? ==> pos < r.next <= |buf|
    decreases |buf| - pos, 1
  {
    if Has(buf, pos, 125) then Got([], pos + 1) // }
    else if last.Some? && !Word(buf, pos, [44, 32]) then Bad
    else
      match ReadString(buf, if last.None? then pos else pos + 2)
      case Bad => Bad
      case Got(key, colon) =>
        if !Word(buf, colon, [58, 32]) || (last.Some? && !Less(last.value, key)) then Bad
        else
          match ReadValue(buf, colon + 2)
          case Bad => Bad
          case Got(v, mid) =>
            match ReadFields(buf, mid, Some(key))
            case Bad => Bad
            case Got(rest, next) => Got([Field(key, v)] + rest, next)
  }

  /** A whole text. */
  function ReadText(text: seq<byte>): (r: Option<Json>)
  {
    match ReadValue(text, 0)
    case Bad => None
    case Got(v, next) => if next == |text| then Some(v) else None
  }
}
