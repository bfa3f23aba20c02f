/** The decoder as a cursor over a buffer, and the encoder as appends to an output. */
module BencodeCodec {
  import opened Prelude
  import opened Decimal
  import opened Lex
  import opened Bencode
  import opened BencodeProofs
  import opened BencodeGrammar
  import opened BencodeErrors

  datatype Outcome<+T> = Done(value: T) | Failed(error: Error)

  /** The cursor program did what the grammar says: value and new position, or the error. */
  ghost predicate Tells<T(!new)>(spec: Parsed<T>, r: Outcome<T>, pos: nat)
  {
    match spec
    case Ok(v, next) => r == Done(v) && pos == next
    case Err(e) => r == Failed(e)
  }

  ghost function Prepend<T>(done: seq<T>, r: Parsed<seq<T>>): Parsed<seq<T>>
  {
    match r
    case Ok(rest, next) => Ok(done + rest, next)
    case Err(e) => Err(e)
  }

  lemma PrependNothing<T>(r: Parsed<seq<T>>)
    ensures Prepend([], r) == r
  {
    if r.Ok? {
      assert [] + r.value == r.value;
    }
  }

  /** One more item read: what is left to parse shrinks by it. */
  lemma ItemsStep(buf: seq<byte>, pos: nat, done: seq<Value>)
    requires pos < |buf| && buf[pos] != LOWER_E
    ensures var v := ParseValue(buf, pos);
            Prepend(done, ParseItems(buf, pos)) ==
              if v.Err? then Err(v.error) else Prepend(done + [v.value], ParseItems(buf, v.next))
  {
    hide ParseValue;
    var v := ParseValue(buf, pos);
    if v.Ok? && ParseItems(buf, v.next).Ok? {
      var rest := ParseItems(buf, v.next).value;
      assert done + ([v.value] + rest) == done + [v.value] + rest;
    }
  }

  lemma ItemsEnd(buf: seq<byte>, pos: nat, done: seq<Value>)
    requires pos <= |buf| && (pos == |buf| || buf[pos] == LOWER_E)
    ensures Prepend(done, ParseItems(buf, pos)) == if pos == |buf| then Err(Eof) else Ok(done, pos + 1)
  {
    assert done + [] == done;
  }

  lemma FieldsEnd(buf: seq<byte>, pos: nat, last: Option<seq<byte>>, done: seq<Field>)
    requires pos <= |buf| && (pos == |buf| || buf[pos] == LOWER_E || !IsDigit(buf[pos]))
    ensures Prepend(done, ParseFields(buf, pos, last)) ==
            if pos == |buf| then Err(Eof) else if buf[pos] == LOWER_E then Ok(done, pos + 1) else Err(BadDictKey)
  {
    assert done + [] == done;
  }

  lemma FieldsStep(buf: seq<byte>, pos: nat, last: Option<seq<byte>>, done: seq<Field>)
    requires pos < |buf| && IsDigit(buf[pos])
    ensures var key := ParseBytes(buf, pos);
            Prepend(done, ParseFields(buf, pos, last)) ==
              if key.Err? then Err(key.error)
              else if last.Some? && !Less(last.value, key.value) then Err(BadDictKey)
              else
                var v := ParseValue(buf, key.next);
                if v.Err? then Err(v.error)
                else Prepend(done + [Field(key.value, v.value, key.next, v.next)], ParseFields(buf, v.next, Some(key.value)))
  {
    hide ParseValue, ParseBytes, Less;
    var key := ParseBytes(buf, pos);
    if key.Ok? && ParseValue(buf, key.next).Ok? {
      var v := ParseValue(buf, key.next);
      var f := Field(key.value, v.value, key.next, v.next);
      var tail := ParseFields(buf, v.next, Some(key.value));
      if tail.Ok? {
        assert done + ([f] + tail.value) == done + [f] + tail.value;
      }
    }
  }

  lemma {:induction false} InfoSpanSnoc(fields: seq<Field>, f: Field)
    ensures InfoSpan(fields + [f]) ==
            if InfoSpan(fields).Some? then InfoSpan(fields)
            else if f.key == INFO then Some(Span(f.start, f.end)) else None
  {
    if fields == [] {
      assert (fields + [f])[1..] == [];
    } else {
      assert (fields + [f])[1..] == fields[1..] + [f];
      InfoSpanSnoc(fields[1..], f);
    }
  }

  /** Keys increase, so `info` is met at most once and no later key can be it. */
  ghost predicate PastInfo(info: Option<Span>, last: Option<seq<byte>>)
  {
    info.Some? ==> last.Some? && (last.value == INFO || Less(INFO, last.value))
  }

  lemma PastInfoStep(info: Option<Span>, last: Option<seq<byte>>, key: seq<byte>)
    requires PastInfo(info, last) && (last.Some? ==> Less(last.value, key))
    ensures info.Some? ==> key != INFO
    ensures PastInfo(info, Some(key))
  {
    if info.Some? {
      LessIrreflexive(INFO);
      if last.value != INFO {
        LessTransitive(INFO, last.value, key);
      }
    }
  }

  lemma EntriesSnoc(fields: seq<Field>, f: Field)
    ensures EntriesOf(fields + [f]) == EntriesOf(fields) + [Entry(f.key, f.val)]
  {
  }

  class Parser {
    const buf: seq<byte>
    var pos: nat

    constructor (input: seq<byte>)
      ensures buf == input && pos == 0
    {
      buf := input;
      pos := 0;
    }

    method Integer() returns (r: Outcome<Value>)
      requires pos < |buf|
      modifies this`pos
      ensures pos <= |buf| && Tells(ParseInt(buf, old(pos) + 1), r, pos)
    {
      pos := pos + 1;
      var start := pos;
      while pos < |buf| && buf[pos] != LOWER_E
        invariant start <= pos <= |buf| && Find(buf, start, LOWER_E) == Find(buf, pos, LOWER_E)
        decreases |buf| - pos
      {
        pos := pos + 1;
      }
      if pos == |buf| {
        return Failed(Eof);
      }
      var s := buf[start..pos];
      if s == [] || s == [45, 48] || (s[0] == 48 && |s| > 1) || (|s| > 2 && s[0] == 45 && s[1] == 48) {
        return Failed(BadInt);
      }
      match ParseSigned(s)
      case None => return Failed(BadInt);
      case Some(n) =>
        pos := pos + 1;
        return Done(Int(n));
    }

    method ByteString() returns (r: Outcome<seq<byte>>)
      requires pos <= |buf|
      modifies this`pos
      ensures pos <= |buf| && Tells(ParseBytes(buf, old(pos)), r, pos)
    {
      var start := pos;
      while pos < |buf| && buf[pos] != COLON
        invariant start <= pos <= |buf| && ScanLength(buf, start) == ScanLength(buf, pos)
        decreases |buf| - pos
      {
        if !IsDigit(buf[pos]) {
          return Failed(BadLen);
        }
        pos := pos + 1;
      }
      if pos == |buf| {
        return Failed(Eof);
      }
      var parsed := ParseUnsigned(buf[start..pos], USIZE_MAX);
      if parsed.None? {
        return Failed(BadLen);
      }
      pos := pos + 1;
      var end := pos + parsed.value;
      if end > USIZE_MAX {
        return Failed(BadLen);
      }
      if end > |buf| {
        return Failed(Eof);
      }
      var out := buf[pos..end];
      pos := end;
      return Done(out);
    }

    method Value() returns (r: Outcome<Value>)
      requires pos <= |buf|
      modifies this`pos
      ensures pos <= |buf| && Tells(ParseValue(buf, old(pos)), r, pos)
      decreases |buf| - pos, 1
    {
      hide ParseInt, ParseItems, ParseFields, ParseBytes;
      if pos == |buf| {
        return Failed(Eof);
      }
      if buf[pos] == LOWER_I {
        r := Integer();
      } else if buf[pos] == LOWER_L {
        r := List();
      } else if buf[pos] == LOWER_D {
        var info;
        r, info := Dict();
      } else if IsDigit(buf[pos]) {
        var s := ByteString();
        r := match s case Done(b) => Done(Bytes(b)) case Failed(e) => Failed(e);
      } else {
        r := Failed(Unexpected(buf[pos], pos));
      }
    }

    method List() returns (r: Outcome<Value>)
      requires pos < |buf|
      modifies this`pos
      ensures pos <= |buf|
      ensures match ParseItems(buf, old(pos) + 1)
              case Ok(items, next) => r == Done(Bencode.Value.List(items)) && pos == next
              case Err(e) => r == Failed(e)
      decreases |buf| - pos, 0
    {
      hide ParseValue, ParseItems;
      ghost var was := pos;
      pos := pos + 1;
      var out: seq<Value> := [];
      PrependNothing(ParseItems(buf, pos));
      while pos < |buf| && buf[pos] != LOWER_E
        invariant was < pos <= |buf|
        invariant Prepend(out, ParseItems(buf, pos)) == ParseItems(buf, was + 1)
        decreases |buf| - pos
      {
        ItemsStep(buf, pos, out);
        var v := Value();
        if v.Failed? {
          return Failed(v.error);
        }
        out := out + [v.value];
      }
      ItemsEnd(buf, pos, out);
      if pos == |buf| {
        return Failed(Eof);
      }
      pos := pos + 1;
      return Done(Bencode.Value.List(out));
    }

    /** The dictionary at the cursor, with the span of its `info` value. */
    method Dict() returns (r: Outcome<Value>, info: Option<Span>)
      requires pos < |buf|
      modifies this`pos
      ensures pos <= |buf|
      ensures match ParseFields(buf, old(pos) + 1, None)
              case Ok(fields, next) =>
                r == Done(Bencode.Value.Dict(EntriesOf(fields))) && pos == next && info == InfoSpan(fields)
              case Err(e) => r == Failed(e)
      decreases |buf| - pos, 0
    {
      hide ParseValue, ParseFields, ParseBytes, Less, PastInfo, InfoSpan, EntriesOf;
      ghost var was := pos;
      pos := pos + 1;
      info := None;
      var out: seq<Entry> := [];
      var lastKey: Option<seq<byte>> := None;
      ghost var fields: seq<Field> := [];
      NothingYet(buf, pos);
      while pos < |buf| && buf[pos] != LOWER_E
        invariant was < pos <= |buf|
        invariant Prepend(fields, ParseFields(buf, pos, lastKey)) == ParseFields(buf, was + 1, None)
        invariant out == EntriesOf(fields) && info == InfoSpan(fields) && PastInfo(info, lastKey)
        decreases |buf| - pos
      {
        if !IsDigit(buf[pos]) {
          FieldsEnd(buf, pos, lastKey, fields);
          return Failed(BadDictKey), info;
        }
        FieldsStep(buf, pos, lastKey, fields);
        var key := ByteString();
        if key.Failed? {
          return Failed(key.error), info;
        }
        if lastKey.Some? && !Less(lastKey.value, key.value) {
          return Failed(BadDictKey), info;
        }
        var valStart := pos;
        var val := Value();
        if val.Failed? {
          return Failed(val.error), info;
        }
        var valEnd := pos;
        ghost var f := Field(key.value, val.value, valStart, valEnd);
        PastInfoStep(info, lastKey, key.value);
        InfoSpanSnoc(fields, f);
        EntriesSnoc(fields, f);
        FreshInfo(key.value);
        if key.value == INFO {
          info := Some(Span(valStart, valEnd));
        }
        lastKey := Some(key.value);
        out := out + [Entry(key.value, val.value)];
        fields := fields + [f];
      }
      FieldsEnd(buf, pos, lastKey, fields);
      if pos == |buf| {
        return Failed(Eof), info;
      }
      pos := pos + 1;
      return Done(Bencode.Value.Dict(out)), info;
    }

    method ValueTrackingInfo() returns (r: Outcome<Torrent>)
      requires pos == 0
      modifies this`pos
      ensures pos <= |buf| && Tells(DecodeTorrentOf(buf), r, pos)
    {
      hide ParseValue, ParseFields;
      var v: Outcome<Value>, info: Option<Span> := Failed(Eof), None;
      if pos < |buf| && buf[pos] == LOWER_D {
        v, info := Dict();
      } else {
        v := Value();
      }
      r := match v case Done(root) => Done(Torrent(root, info)) case Failed(e) => Failed(e);
    }
  }

  lemma FreshInfo(key: seq<byte>)
    ensures key == INFO ==> forall span :: PastInfo(Some(span), Some(key))
  {
  }

  lemma NothingYet(buf: seq<byte>, pos: nat)
    requires pos <= |buf|
    ensures Prepend([], ParseFields(buf, pos, None)) == ParseFields(buf, pos, None)
    ensures EntriesOf([]) == [] && InfoSpan([]) == None && PastInfo(None, None)
  {
    hide ParseFields;
    PrependNothing(ParseFields(buf, pos, None));
  }

  method DecodePrefix(input: seq<byte>) returns (r: Outcome<(Value, nat)>)
    ensures match DecodePrefixOf(input)
            case Ok(v, n) => r == Done((v, n))
            case Err(e) => r == Failed(e)
    ensures |input| <= USIZE_MAX ==> forall v, n: nat :: r == Done((v, n)) <==> n <= |input| && Spells(v, input[..n])
    ensures |input| <= USIZE_MAX ==> forall e :: r == Failed(e) <==> Breaks(input, 0, e)
  {
    hide ParseValue, DecodePrefixOf, Spells, Breaks;
    forall e | |input| <= USIZE_MAX
      ensures DecodePrefixOf(input) == Err(e) <==> Breaks(input, 0, e)
    {
      RefusedIff(input, e);
    }
    assert DecodePrefixOf(input) == ParseValue(input, 0) by { PrefixIs(input); }
    forall v, n: nat | |input| <= USIZE_MAX
      ensures DecodePrefixOf(input) == Ok(v, n) <==> n <= |input| && Spells(v, input[..n])
    {
      AcceptsIff(input, v, n);
    }
    var p := new Parser(input);
    var v := p.Value();
    r := match v case Done(x) => Done((x, p.pos)) case Failed(e) => Failed(e);
  }

  lemma PrefixIs(input: seq<byte>)
    ensures DecodePrefixOf(input) == ParseValue(input, 0)
  {
  }

  method Decode(input: seq<byte>) returns (r: Outcome<Value>)
    ensures match DecodeOf(input)
            case Ok(v, n) => r == Done(v) && n == |input|
            case Err(e) => r == Failed(e)
    ensures forall v :: Canonical(v) && input == Encoding(v) && |input| <= USIZE_MAX ==> r == Done(v)
    ensures |input| <= USIZE_MAX ==> forall v :: r == Done(v) <==> Spells(v, input)
    ensures |input| <= USIZE_MAX ==> forall e :: r == Failed(e) <==> Breaks(input, 0, e) || (e == Trailing && Trails(input))
  {
    hide ParseValue, Canonical, Encoding, Spells, Breaks, Trails;
    forall e | |input| <= USIZE_MAX
      ensures DecodeOf(input) == Err(e) <==> Breaks(input, 0, e) || (e == Trailing && Trails(input))
    {
      RefusedIff(input, e);
    }
    forall v | |input| <= USIZE_MAX
      ensures DecodeOf(input) == Ok(v, |input|) <==> Spells(v, input)
    {
      AcceptsIff(input, v, |input|);
    }
    var p := new Parser(input);
    r := p.Value();
    if r.Done? && p.pos != |input| {
      r := Failed(Trailing);
    }
    forall v | Canonical(v) && input == Encoding(v) && |input| <= USIZE_MAX
      ensures r == Done(v)
    {
      DecodeInvertsEncode(v, []);
      assert Encoding(v) + [] == Encoding(v);
    }
  }

  method DecodeTorrent(input: seq<byte>) returns (r: Outcome<Torrent>)
    requires |input| <= USIZE_MAX
    ensures r.Done? <==> DecodeTorrentOf(input).Ok?
    ensures r.Done? ==> r.value == DecodeTorrentOf(input).value && r.value.root == DecodePrefixOf(input).value
    ensures r.Failed? ==> r.error == DecodePrefixOf(input).error
    ensures r.Done? && r.value.info.Some? ==>
              var span := r.value.info.value;
              && span.start < span.end <= |input| && Get(r.value.root, INFO).Some?
              && DecodeOf(input[span.start..span.end]) == Ok(Get(r.value.root, INFO).value, span.end - span.start)
    ensures r.Done? && r.value.info.None? ==> Get(r.value.root, INFO).None?
  {
    hide ParseValue, ParseFields, DecodeTorrentOf, DecodePrefixOf, DecodeOf, Get;
    var p := new Parser(input);
    r := p.ValueTrackingInfo();
    TorrentRoot(input);
    if r.Done? {
      InfoSpanDecodes(input);
    }
  }

  // ---- the encoder ----

  lemma {:induction false} ItemsSplit(items: seq<Value>, i: nat)
    requires i < |items|
    ensures EncodedItems(items[..i + 1]) == EncodedItems(items[..i]) + Encoding(items[i])
  {
    hide Encoding;
    if i == 0 {
      assert items[..1][1..] == [];
    } else {
      ItemsSplit(items[1..], i - 1);
      assert items[..i + 1][1..] == items[1..][..i] && items[..i][1..] == items[1..][..i - 1];
    }
  }

  lemma {:induction false} EntriesSplit(entries: seq<Entry>, i: nat)
    requires i < |entries|
    ensures EncodedEntries(entries[..i + 1]) ==
            EncodedEntries(entries[..i]) + EncodedBytes(entries[i].key) + Encoding(entries[i].val)
  {
    hide Encoding, EncodedBytes;
    if i == 0 {
      assert entries[..1][1..] == [];
    } else {
      EntriesSplit(entries[1..], i - 1);
      assert entries[..i + 1][1..] == entries[1..][..i] && entries[..i][1..] == entries[1..][..i - 1];
    }
  }

  /** Append the encoding of `value` to `out`. */
  method EncodeInto(value: Value, out: seq<byte>) returns (r: seq<byte>)
    ensures r == out + Encoding(value)
    decreases value
  {
    match value
    case Int(n) =>
      r := out + [LOWER_I];
      r := r + Numeral(n);
      r := r + [LOWER_E];
    case Bytes(b) =>
      r := out + Digits(|b|);
      r := r + [COLON];
      r := r + b;
    case List(items) =>
      r := EncodeItems(items, out + [LOWER_L]);
      r := r + [LOWER_E];
    case Dict(entries) =>
      r := EncodeEntries(entries, out + [LOWER_D]);
      r := r + [LOWER_E];
  }

  method EncodeItems(items: seq<Value>, out: seq<byte>) returns (r: seq<byte>)
    ensures r == out + EncodedItems(items)
    decreases items
  {
    hide Encoding, EncodedItems;
    r := out;
    assert EncodedItems(items[..0]) == [] by { NoItems(); }
    for i := 0 to |items|
      invariant r == out + EncodedItems(items[..i])
    {
      ItemsSplit(items, i);
      r := EncodeInto(items[i], r);
    }
    assert items[..|items|] == items;
  }

  lemma NoItems()
    ensures EncodedItems([]) == [] && EncodedEntries([]) == []
  {
  }

  method EncodeEntries(entries: seq<Entry>, out: seq<byte>) returns (r: seq<byte>)
    ensures r == out + EncodedEntries(entries)
    decreases entries
  {
    hide Encoding, EncodedEntries;
    r := out;
    assert EncodedEntries(entries[..0]) == [] by { NoItems(); }
    for i := 0 to |entries|
      invariant r == out + EncodedEntries(entries[..i])
    {
      EntriesSplit(entries, i);
      ghost var before := r;
      r := r + Digits(|entries[i].key|);
      r := r + [COLON];
      r := r + entries[i].key;
      assert r == before + EncodedBytes(entries[i].key);
      r := EncodeInto(entries[i].val, r);
    }
    assert entries[..|entries|] == entries;
  }

  /** What is encoded decodes to the value it came from, and is its one shortest spelling. */
  method Encode(value: Value) returns (r: seq<byte>)
    ensures r == Encoding(value)
    ensures Canonical(value) && |r| <= USIZE_MAX ==> DecodeOf(r) == Ok(value, |r|) && Spells(value, r)
    ensures forall s :: Spells(value, s) ==> |r| <= |s| && (|r| == |s| ==> s == r)
  {
    hide Encoding, Spells;
    r := EncodeInto(value, []);
    forall s | Spells(value, s)
      ensures |r| <= |s| && (|r| == |s| ==> s == r)
    {
      EncodingShortest(value, s);
    }
    if Canonical(value) && |r| <= USIZE_MAX {
      DecodeInvertsEncode(value, []);
      EncodingSpells(value);
    }
  }
}
