/**
 * Bencode. `ParseValue` is the grammar the decoder accepts, written over positions of one buffer; `Encoding` is the
 * canonical form. The class below holds the decoder as it runs, a cursor moving through loops.
 */
module Bencode {
  import opened Prelude
  import opened Decimal
  import opened Lex

  const USIZE_MAX: nat := 0xFFFF_FFFF_FFFF_FFFF

  const COLON: byte := 58
  const LOWER_D: byte := 100
  const LOWER_E: byte := 101
  const LOWER_I: byte := 105
  const LOWER_L: byte := 108
  const INFO: seq<byte> := [105, 110, 102, 111]

  /** A value. A dictionary is the entry sequence of its sorted map. */
  datatype Value =
    | Int(n: i64)
    | Bytes(b: seq<byte>)
    | List(items: seq<Value>)
    | Dict(entries: seq<Entry>)

  datatype Entry = Entry(key: seq<byte>, val: Value)

  datatype Error = Eof | BadInt | BadLen | Unexpected(b: byte, at: nat) | Trailing | BadDictKey

  datatype Parsed<+T> = Ok(value: T, next: nat) | Err(error: Error)

  /** The keys strictly increase. */
  ghost predicate Sorted(entries: seq<Entry>)
  {
    forall i, j :: 0 <= i < j < |entries| ==> Less(entries[i].key, entries[j].key)
  }

  /** Every dictionary inside is a sorted map. */
  ghost predicate Canonical(v: Value)
  {
    match v
    case Int(_) => true
    case Bytes(_) => true
    case List(items) => forall i :: 0 <= i < |items| ==> Canonical(items[i])
    case Dict(entries) => Sorted(entries) && forall i :: 0 <= i < |entries| ==> Canonical(entries[i].val)
  }

  // ---- the canonical form ----

  function EncodedBytes(b: seq<byte>): (s: seq<byte>) { Digits(|b|) + [COLON] + b }

  function Encoding(v: Value): (s: seq<byte>)
    decreases v
  {
    match v
    case Int(n) => [LOWER_I] + Numeral(n) + [LOWER_E]
    case Bytes(b) => EncodedBytes(b)
    case List(items) => [LOWER_L] + EncodedItems(items) + [LOWER_E]
    case Dict(entries) => [LOWER_D] + EncodedEntries(entries) + [LOWER_E]
  }

  function EncodedItems(items: seq<Value>): (s: seq<byte>)
    decreases items
  {
    if items == [] then [] else Encoding(items[0]) + EncodedItems(items[1..])
  }

  function EncodedEntries(entries: seq<Entry>): (s: seq<byte>)
    decreases entries
  {
    if entries == [] then []
    else EncodedBytes(entries[0].key) + (Encoding(entries[0].val) + EncodedEntries(entries[1..]))
  }

  // ---- the accepted grammar ----

  /** The first `b` at or after `pos`. */
  function Find(buf: seq<byte>, pos: nat, b: byte): (r: Option<nat>)
    requires pos <= |buf|
    ensures r.Some? ==> pos <= r.value < |buf| && buf[r.value] == b && b !in buf[pos..r.value]
    ensures r.None? ==> b !in buf[pos..]
    decreases |buf| - pos
  {
    if pos == |buf| then None
    else if buf[pos] == b then Some(pos)
    else
      assert forall k :: pos < k <= |buf| ==> buf[pos..k] == [buf[pos]] + buf[pos + 1..k];
      assert buf[pos..] == [buf[pos]] + buf[pos + 1..];
      Find(buf, pos + 1, b)
  }

  /** Leading zeros and a negative zero are refused. */
  predicate PlainNumeral(s: seq<byte>)
  {
    && s != [] && s != [45, 48]
    && !(s[0] == 48 && |s| > 1)
    && !(|s| > 2 && s[0] == 45 && s[1] == 48)
  }

  /** From just behind the `i`. */
  function ParseInt(buf: seq<byte>, pos: nat): (r: Parsed<Value>)
    requires pos <= |buf|
    ensures r.Ok? ==> pos < r.next <= |buf|
  {
    match Find(buf, pos, LOWER_E)
    case None => Err(Eof)
    case Some(k) =>
      var s := buf[pos..k];
      if !PlainNumeral(s) then Err(BadInt)
      else match ParseSigned(s)
           case None => Err(BadInt)
           case Some(n) => Ok(Int(n), k + 1)
  }

  /** Where the digits at `pos` end, if a colon ends them. */
  function ScanLength(buf: seq<byte>, pos: nat): (r: Parsed<nat>)
    requires pos <= |buf|
    ensures r.Ok? ==> pos <= r.value < |buf| && r.next == r.value + 1 && buf[r.value] == COLON && AllDigits(buf[pos..r.value])
    decreases |buf| - pos
  {
    if pos == |buf| then Err(Eof)
    else if buf[pos] == COLON then Ok(pos, pos + 1)
    else if !IsDigit(buf[pos]) then Err(BadLen)
    else
      assert forall k :: pos < k <= |buf| ==> buf[pos..k] == [buf[pos]] + buf[pos + 1..k];
      ScanLength(buf, pos + 1)
  }

  function ParseBytes(buf: seq<byte>, pos: nat): (r: Parsed<seq<byte>>)
    requires pos <= |buf|
    ensures r.Ok? ==> pos < r.next <= |buf|
  {
    match ScanLength(buf, pos)
    case Err(e) => Err(e)
    case Ok(k, start) =>
      match ParseUnsigned(buf[pos..k], USIZE_MAX)
      case None => Err(BadLen)
      case Some(len) =>
        if start + len > USIZE_MAX then Err(BadLen)
        else if start + len > |buf| then Err(Eof)
        else Ok(buf[start..start + len], start + len)
  }

  function ParseValue(buf: seq<byte>, pos: nat): (r: Parsed<Value>)
    requires pos <= |buf|
    ensures r.Ok? ==> pos < r.next <= |buf|
    decreases |buf| - pos, 0
  {
    if pos == |buf| then Err(Eof)
    else if buf[pos] == LOWER_I then ParseInt(buf, pos + 1)
    else if buf[pos] == LOWER_L then
      match ParseItems(buf, pos + 1)
      case Err(e) => Err(e)
      case Ok(items, next) => Ok(List(items), next)
    else if buf[pos] == LOWER_D then
      match ParseFields(buf, pos + 1, None)
      case Err(e) => Err(e)
      case Ok(fields, next) => Ok(Dict(EntriesOf(fields)), next)
    else if IsDigit(buf[pos]) then
      match ParseBytes(buf, pos)
      case Err(e) => Err(e)
      case Ok(b, next) => Ok(Bytes(b), next)
    else Err(Unexpected(buf[pos], pos))
  }

  function ParseItems(buf: seq<byte>, pos: nat): (r: Parsed<seq<Value>>)
    requires pos <= |buf|
    ensures r.Ok? ==> pos < r.next <= |buf|
    decreases |buf| - pos, 1
  {
    if pos == |buf| then Err(Eof)
    else if buf[pos] == LOWER_E then Ok([], pos + 1)
    else match ParseValue(buf, pos)
         case Err(e) => Err(e)
         case Ok(v, mid) =>
           match ParseItems(buf, mid)
           case Err(e) => Err(e)
           case Ok(rest, next) => Ok([v] + rest, next)
  }

  /** A dictionary entry with the span of its value. */
  datatype Field = Field(key: seq<byte>, val: Value, start: nat, end: nat)

  function EntriesOf(fields: seq<Field>): (r: seq<Entry>)
    ensures |r| == |fields|
    ensures forall i :: 0 <= i < |r| ==> r[i] == Entry(fields[i].key, fields[i].val)
  {
    seq(|fields|, i requires 0 <= i < |fields| => Entry(fields[i].key, fields[i].val))
  }

  function ParseFields(buf: seq<byte>, pos: nat, last: Option<seq<byte>>): (r: Parsed<seq<Field>>)
    requires pos <= |buf|
    ensures r.Ok? ==> pos < r.next <= |buf|
    decreases |buf| - pos, 1
  {
    if pos == |buf| then Err(Eof)
    else if buf[pos] == LOWER_E then Ok([], pos + 1)
    else if !IsDigit(buf[pos]) then Err(BadDictKey)
    else match ParseBytes(buf, pos)
         case Err(e) => Err(e)
         case Ok(key, start) =>
           if last.Some? && !Less(last.value, key) then Err(BadDictKey)
           else match ParseValue(buf, start)
                case Err(e) => Err(e)
                case Ok(v, end) =>
                  match ParseFields(buf, end, Some(key))
                  case Err(e) => Err(e)
                  case Ok(rest, next) => Ok([Field(key, v, start, end)] + rest, next)
  }

  // ---- the three entry points ----

  function DecodePrefixOf(input: seq<byte>): (r: Parsed<Value>) { ParseValue(input, 0) }

  function DecodeOf(input: seq<byte>): (r: Parsed<Value>)
  {
    var r := ParseValue(input, 0);
    if r.Ok? && r.next != |input| then Err(Trailing) else r
  }

  datatype Span = Span(start: nat, end: nat)

  /** The span of the `info` field. */
  function InfoSpan(fields: seq<Field>): (r: Option<Span>)
  {
    if fields == [] then None
    else if fields[0].key == INFO then Some(Span(fields[0].start, fields[0].end))
    else InfoSpan(fields[1..])
  }

  datatype Torrent = Torrent(root: Value, info: Option<Span>)

  function DecodeTorrentOf(input: seq<byte>): (r: Parsed<Torrent>)
  {
    if input != [] && input[0] == LOWER_D then
      match ParseFields(input, 1, None)
      case Err(e) => Err(e)
      case Ok(fields, next) => Ok(Torrent(Dict(EntriesOf(fields)), InfoSpan(fields)), next)
    else
      match ParseValue(input, 0)
      case Err(e) => Err(e)
      case Ok(v, next) => Ok(Torrent(v, None), next)
  }

  /** `Value::get`. */
  function Get(v: Value, key: seq<byte>): (r: Option<Value>)
  {
    if v.Dict? then Lookup(v.entries, key) else None
  }

  function Lookup(entries: seq<Entry>, key: seq<byte>): (r: Option<Value>)
  {
    if entries == [] then None else if entries[0].key == key then Some(entries[0].val) else Lookup(entries[1..], key)
  }
}
