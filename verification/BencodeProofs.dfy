/** Decoding inverts encoding, and what a parse yields depends on nothing but the bytes it consumed. */
module BencodeProofs {
  import opened Prelude
  import opened Decimal
  import opened Lex
  import opened Placement
  import opened Bencode

  // ---- round trip ----

  lemma {:induction false} FindIs(buf: seq<byte>, pos: nat, b: byte, k: nat)
    requires pos <= k < |buf| && buf[k] == b && b !in buf[pos..k]
    ensures Find(buf, pos, b) == Some(k)
    decreases k - pos
  {
    if pos < k {
      assert buf[pos..k][0] == buf[pos];
      assert buf[pos + 1..k] == buf[pos..k][1..];
      FindIs(buf, pos + 1, b, k);
    }
  }

  lemma {:induction false} ScanIs(buf: seq<byte>, pos: nat, k: nat)
    requires pos <= k < |buf| && buf[k] == COLON && AllDigits(buf[pos..k])
    ensures ScanLength(buf, pos) == Ok(k, k + 1)
    decreases k - pos
  {
    if pos < k {
      assert buf[pos..k][0] == buf[pos];
      assert buf[pos + 1..k] == buf[pos..k][1..];
      ScanIs(buf, pos + 1, k);
    }
  }

  lemma BytesRead(buf: seq<byte>, pos: nat, b: seq<byte>)
    requires At(buf, pos, EncodedBytes(b)) && |buf| <= USIZE_MAX
    ensures ParseBytes(buf, pos) == Ok(b, pos + |EncodedBytes(b)|)
    ensures pos < |buf| && IsDigit(buf[pos])
  {
    DigitsRead(|b|);
    var digits := Digits(|b|);
    var k := pos + |digits|;
    AtSplit(buf, pos, digits + [COLON], b);
    AtSplit(buf, pos, digits, [COLON]);
    AtIndex(buf, k, [COLON], 0);
    AtIndex(buf, pos, digits, 0);
    ScanIs(buf, pos, k);
    assert ParseUnsigned(buf[pos..k], USIZE_MAX) == Some(|b|);
  }

  lemma IntRead(buf: seq<byte>, pos: nat, n: i64)
    requires At(buf, pos, Encoding(Int(n)))
    ensures ParseValue(buf, pos) == Ok(Int(n), pos + |Encoding(Int(n))|)
  {
    hide Numeral, ParseSigned, ParseItems, ParseFields, ParseBytes, Find;
    NumeralRead(n);
    var numeral := Numeral(n);
    AtSplit(buf, pos, [LOWER_I] + numeral, [LOWER_E]);
    AtSplit(buf, pos, [LOWER_I], numeral);
    AtIndex(buf, pos, [LOWER_I], 0);
    AtIndex(buf, pos + 1 + |numeral|, [LOWER_E], 0);
    assert LOWER_E !in numeral;
    FindIs(buf, pos + 1, LOWER_E, pos + 1 + |numeral|);
  }

  lemma FirstByte(v: Value)
    ensures Encoding(v) != [] && Encoding(v)[0] != LOWER_E
  {
    match v
    case Int(_) =>
    case Bytes(b) => DigitsRead(|b|);
    case List(_) =>
    case Dict(_) =>
  }

  // One step of the mutually recursive parsers, for proofs that keep them folded.

  lemma ItemsNil(buf: seq<byte>, pos: nat)
    requires pos < |buf| && buf[pos] == LOWER_E
    ensures ParseItems(buf, pos) == Ok([], pos + 1)
  {
  }

  lemma FieldsNil(buf: seq<byte>, pos: nat, last: Option<seq<byte>>)
    requires pos < |buf| && buf[pos] == LOWER_E
    ensures ParseFields(buf, pos, last) == Ok([], pos + 1)
  {
  }

  lemma ItemsCons(buf: seq<byte>, pos: nat)
    requires pos < |buf| && buf[pos] != LOWER_E
    requires ParseValue(buf, pos).Ok? && ParseItems(buf, ParseValue(buf, pos).next).Ok?
    ensures ParseItems(buf, pos) ==
            Ok([ParseValue(buf, pos).value] + ParseItems(buf, ParseValue(buf, pos).next).value,
               ParseItems(buf, ParseValue(buf, pos).next).next)
  {
    hide ParseValue;
  }

  lemma ItemsUncons(buf: seq<byte>, pos: nat)
    requires pos < |buf| && buf[pos] != LOWER_E && ParseItems(buf, pos).Ok?
    ensures ParseValue(buf, pos).Ok? && ParseItems(buf, ParseValue(buf, pos).next).Ok?
  {
    hide ParseValue;
  }

  lemma FieldsCons(buf: seq<byte>, pos: nat, last: Option<seq<byte>>, key: seq<byte>, start: nat, val: Value, end: nat)
    requires pos < |buf| && IsDigit(buf[pos])
    requires ParseBytes(buf, pos) == Ok(key, start) && (last.Some? ==> Less(last.value, key))
    requires ParseValue(buf, start) == Ok(val, end) && ParseFields(buf, end, Some(key)).Ok?
    ensures ParseFields(buf, pos, last) ==
            Ok([Field(key, val, start, end)] + ParseFields(buf, end, Some(key)).value,
               ParseFields(buf, end, Some(key)).next)
  {
    hide ParseValue, ParseBytes;
  }

  lemma FieldsUncons(buf: seq<byte>, pos: nat, last: Option<seq<byte>>) returns (f: Field)
    requires pos <= |buf| && ParseFields(buf, pos, last).Ok? && buf[pos] != LOWER_E
    ensures pos < f.start < f.end <= |buf| && IsDigit(buf[pos])
    ensures ParseBytes(buf, pos) == Ok(f.key, f.start) && (last.Some? ==> Less(last.value, f.key))
    ensures ParseValue(buf, f.start) == Ok(f.val, f.end)
    ensures ParseFields(buf, f.end, Some(f.key)).Ok?
    ensures ParseFields(buf, pos, last) ==
            Ok([f] + ParseFields(buf, f.end, Some(f.key)).value, ParseFields(buf, f.end, Some(f.key)).next)
  {
    hide ParseValue, ParseBytes;
    var key := ParseBytes(buf, pos);
    var val := ParseValue(buf, key.next);
    f := Field(key.value, val.value, key.next, val.next);
  }

  /** Wherever an encoding stands, the parser reads back the value and stops right behind it. */
  lemma {:induction false} ValueRead(buf: seq<byte>, pos: nat, v: Value)
    requires Canonical(v) && At(buf, pos, Encoding(v)) && |buf| <= USIZE_MAX
    ensures ParseValue(buf, pos) == Ok(v, pos + |Encoding(v)|)
    decreases v
  {
    hide ParseBytes, ParseInt, ParseItems, ParseFields, At, Sorted, EncodedBytes, EncodedItems, EncodedEntries;
    AtInside(buf, pos, Encoding(v));
    match v
    case Int(n) => IntRead(buf, pos, n);
    case Bytes(b) => BytesRead(buf, pos, b);
    case List(items) =>
      AtSplit(buf, pos, [LOWER_L] + EncodedItems(items), [LOWER_E]);
      AtSplit(buf, pos, [LOWER_L], EncodedItems(items));
      AtIndex(buf, pos, [LOWER_L], 0);
      ItemsRead(buf, pos + 1, items);
    case Dict(entries) =>
      AtSplit(buf, pos, [LOWER_D] + EncodedEntries(entries), [LOWER_E]);
      AtSplit(buf, pos, [LOWER_D], EncodedEntries(entries));
      AtIndex(buf, pos, [LOWER_D], 0);
      EntriesRead(buf, pos + 1, None, entries);
      var fields := ParseFields(buf, pos + 1, None).value;
      assert EntriesOf(fields) == entries;
  }

  lemma {:induction false} ItemsRead(buf: seq<byte>, pos: nat, items: seq<Value>)
    requires forall i :: 0 <= i < |items| ==> Canonical(items[i])
    requires At(buf, pos, EncodedItems(items)) && At(buf, pos + |EncodedItems(items)|, [LOWER_E]) && |buf| <= USIZE_MAX
    ensures ParseItems(buf, pos) == Ok(items, pos + |EncodedItems(items)| + 1)
    decreases items
  {
    hide ParseValue, ParseItems, Canonical, Encoding, At;
    AtInside(buf, pos + |EncodedItems(items)|, [LOWER_E]);
    if items == [] {
      AtIndex(buf, pos, [LOWER_E], 0);
      ItemsNil(buf, pos);
    } else {
      var first, rest := Encoding(items[0]), EncodedItems(items[1..]);
      AtSplit(buf, pos, first, rest);
      FirstByte(items[0]);
      AtIndex(buf, pos, first, 0);
      ValueRead(buf, pos, items[0]);
      ItemsRead(buf, pos + |first|, items[1..]);
      ItemsCons(buf, pos);
      assert [items[0]] + items[1..] == items;
    }
  }

  lemma {:induction false} EntriesRead(buf: seq<byte>, pos: nat, last: Option<seq<byte>>, entries: seq<Entry>)
    requires Sorted(entries) && forall i :: 0 <= i < |entries| ==> Canonical(entries[i].val)
    requires last.Some? && entries != [] ==> Less(last.value, entries[0].key)
    requires At(buf, pos, EncodedEntries(entries)) && At(buf, pos + |EncodedEntries(entries)|, [LOWER_E])
    requires |buf| <= USIZE_MAX
    ensures ParseFields(buf, pos, last).Ok?
    ensures ParseFields(buf, pos, last).next == pos + |EncodedEntries(entries)| + 1
    ensures EntriesOf(ParseFields(buf, pos, last).value) == entries
    decreases entries
  {
    hide ParseValue, ParseFields, ParseBytes, Canonical, Encoding, EncodedBytes, Less, At;
    AtInside(buf, pos + |EncodedEntries(entries)|, [LOWER_E]);
    if entries == [] {
      AtIndex(buf, pos, [LOWER_E], 0);
      FieldsNil(buf, pos, last);
    } else {
      var e := entries[0];
      var key, val, rest := EncodedBytes(e.key), Encoding(e.val), EncodedEntries(entries[1..]);
      AtSplit(buf, pos, key, val + rest);
      AtSplit(buf, pos + |key|, val, rest);
      BytesRead(buf, pos, e.key);
      ValueRead(buf, pos + |key|, e.val);
      EntriesRead(buf, pos + |key| + |val|, Some(e.key), entries[1..]);
      FieldsCons(buf, pos, last, e.key, pos + |key|, e.val, pos + |key| + |val|);
      ConsEntries(e, ParseFields(buf, pos, last).value, entries);
    }
  }

  lemma ConsEntries(e: Entry, fields: seq<Field>, entries: seq<Entry>)
    requires fields != [] && Entry(fields[0].key, fields[0].val) == e
    requires entries != [] && entries[0] == e && EntriesOf(fields[1..]) == entries[1..]
    ensures EntriesOf(fields) == entries
  {
    assert entries == [e] + entries[1..];
    assert EntriesOf(fields) == [e] + EntriesOf(fields[1..]);
  }

  /** For every value and every trailer: the value comes back, with its length. */
  lemma DecodeInvertsEncode(v: Value, rest: seq<byte>)
    requires Canonical(v) && |Encoding(v) + rest| <= USIZE_MAX
    ensures DecodePrefixOf(Encoding(v) + rest) == Ok(v, |Encoding(v)|)
    ensures DecodeOf(Encoding(v)) == Ok(v, |Encoding(v)|)
    ensures rest != [] ==> DecodeOf(Encoding(v) + rest) == Err(Trailing)
  {
    ValueRead(Encoding(v) + rest, 0, v);
    ValueRead(Encoding(v), 0, v);
  }

  /** No encoding is a proper prefix of another, and equal encodings are of equal values. */
  lemma PrefixFree(v: Value, w: Value)
    requires Canonical(v) && Canonical(w) && |Encoding(v)| <= USIZE_MAX && |Encoding(w)| <= USIZE_MAX
    requires Encoding(v) <= Encoding(w)
    ensures v == w
  {
    var rest := Encoding(w)[|Encoding(v)|..];
    assert Encoding(w) == Encoding(v) + rest;
    DecodeInvertsEncode(v, rest);
    DecodeInvertsEncode(w, []);
    assert Encoding(w) + [] == Encoding(w);
  }

  // ---- locality ----

  /** `n` bytes agree. */
  predicate Agree(a: seq<byte>, p: nat, b: seq<byte>, q: nat, n: nat)
  {
    p + n <= |a| && q + n <= |b| && a[p..p + n] == b[q..q + n]
  }

  lemma AgreeWithin(a: seq<byte>, p: nat, b: seq<byte>, q: nat, n: nat, off: nat, m: nat)
    requires Agree(a, p, b, q, n) && off + m <= n
    ensures Agree(a, p + off, b, q + off, m)
  {
    var s, t := a[p + off..p + off + m], b[q + off..q + off + m];
    forall i | 0 <= i < m
      ensures s[i] == t[i]
    {
      AgreeAt(a, p, b, q, n, off + i);
    }
  }

  lemma AgreeAt(a: seq<byte>, p: nat, b: seq<byte>, q: nat, n: nat, off: nat)
    requires Agree(a, p, b, q, n) && off < n
    ensures a[p + off] == b[q + off]
  {
    assert a[p + off] == a[p..p + n][off];
    assert b[q + off] == b[q..q + n][off];
  }

  lemma BytesLocal(a: seq<byte>, p: nat, b: seq<byte>, q: nat)
    requires p <= |a| && q <= |b| <= USIZE_MAX && ParseBytes(a, p).Ok?
    requires Agree(a, p, b, q, ParseBytes(a, p).next - p)
    ensures ParseBytes(b, q) == Ok(ParseBytes(a, p).value, q + (ParseBytes(a, p).next - p))
  {
    hide Agree, ScanLength, ParseUnsigned;
    var n := ParseBytes(a, p).next - p;
    var k := ScanLength(a, p).value - p;
    AgreeInside(a, p, b, q, n);
    AgreeSlice(a, p, b, q, n, 0, k);
    AgreeAt(a, p, b, q, n, k);
    ScanIs(b, q, q + k);
    assert a[p..p + k] == b[q..q + k];
    AgreeSlice(a, p, b, q, n, k + 1, n - k - 1);
  }

  lemma AgreeSlice(a: seq<byte>, p: nat, b: seq<byte>, q: nat, n: nat, off: nat, m: nat)
    requires Agree(a, p, b, q, n) && off + m <= n
    ensures p + n <= |a| && q + n <= |b| && a[p + off..p + off + m] == b[q + off..q + off + m]
  {
    AgreeWithin(a, p, b, q, n, off, m);
  }

  lemma IntLocal(a: seq<byte>, p: nat, b: seq<byte>, q: nat)
    requires p <= |a| && q <= |b| && ParseInt(a, p).Ok?
    requires Agree(a, p, b, q, ParseInt(a, p).next - p)
    ensures ParseInt(b, q) == Ok(ParseInt(a, p).value, q + (ParseInt(a, p).next - p))
  {
    hide ParseSigned, PlainNumeral, Agree;
    var n := ParseInt(a, p).next - p;
    var k := Find(a, p, LOWER_E).value - p;
    AgreeSlice(a, p, b, q, n, 0, k);
    AgreeAt(a, p, b, q, n, k);
    FindIs(b, q, LOWER_E, q + k);
  }

  /** A successful parse gives the same value on any buffer that holds the bytes it consumed. */
  lemma {:induction false} ValueLocal(a: seq<byte>, p: nat, b: seq<byte>, q: nat)
    requires p <= |a| && q <= |b| <= USIZE_MAX && ParseValue(a, p).Ok?
    requires Agree(a, p, b, q, ParseValue(a, p).next - p)
    ensures ParseValue(b, q) == Ok(ParseValue(a, p).value, q + (ParseValue(a, p).next - p))
    decreases |a| - p, 0
  {
    hide ParseInt, ParseItems, ParseFields, ParseBytes, Agree;
    var n := ParseValue(a, p).next - p;
    AgreeAt(a, p, b, q, n, 0);
    assert q + n <= |b| by { AgreeInside(a, p, b, q, n); }
    AgreeWithin(a, p, b, q, n, 1, n - 1);
    if a[p] == LOWER_I {
      IntLocal(a, p + 1, b, q + 1);
    } else if a[p] == LOWER_L {
      ItemsLocal(a, p + 1, b, q + 1);
    } else if a[p] == LOWER_D {
      FieldsLocal(a, p + 1, b, q + 1, None);
    } else {
      BytesLocal(a, p, b, q);
    }
  }

  lemma AgreeInside(a: seq<byte>, p: nat, b: seq<byte>, q: nat, n: nat)
    requires Agree(a, p, b, q, n)
    ensures p + n <= |a| && q + n <= |b|
  {
  }

  lemma {:induction false} ItemsLocal(a: seq<byte>, p: nat, b: seq<byte>, q: nat)
    requires p <= |a| && q <= |b| <= USIZE_MAX && ParseItems(a, p).Ok?
    requires Agree(a, p, b, q, ParseItems(a, p).next - p)
    ensures ParseItems(b, q) == Ok(ParseItems(a, p).value, q + (ParseItems(a, p).next - p))
    decreases |a| - p, 1
  {
    hide ParseValue, ParseItems, Agree;
    var n := ParseItems(a, p).next - p;
    AgreeInside(a, p, b, q, n);
    AgreeAt(a, p, b, q, n, 0);
    if a[p] == LOWER_E {
      ItemsNil(a, p);
      ItemsNil(b, q);
    } else {
      ItemsUncons(a, p);
      ItemsCons(a, p);
      var k := ParseValue(a, p).next - p;
      AgreeWithin(a, p, b, q, n, 0, k);
      ValueLocal(a, p, b, q);
      AgreeWithin(a, p, b, q, n, k, n - k);
      ItemsLocal(a, p + k, b, q + k);
      ItemsCons(b, q);
    }
  }

  lemma {:induction false} FieldsLocal(a: seq<byte>, p: nat, b: seq<byte>, q: nat, last: Option<seq<byte>>)
    requires p <= |a| && q <= |b| <= USIZE_MAX && ParseFields(a, p, last).Ok?
    requires Agree(a, p, b, q, ParseFields(a, p, last).next - p)
    ensures ParseFields(b, q, last).Ok? && ParseFields(b, q, last).next == q + (ParseFields(a, p, last).next - p)
    ensures EntriesOf(ParseFields(b, q, last).value) == EntriesOf(ParseFields(a, p, last).value)
    decreases |a| - p, 1
  {
    hide ParseValue, ParseFields, ParseBytes, Agree, Less;
    var n := ParseFields(a, p, last).next - p;
    AgreeInside(a, p, b, q, n);
    AgreeAt(a, p, b, q, n, 0);
    if a[p] == LOWER_E {
      FieldsNil(a, p, last);
      FieldsNil(b, q, last);
    } else {
      var f := FieldsUncons(a, p, last);
      var k, m := f.start - p, f.end - p;
      AgreeWithin(a, p, b, q, n, 0, k);
      BytesLocal(a, p, b, q);
      AgreeWithin(a, p, b, q, n, k, m - k);
      ValueLocal(a, p + k, b, q + k);
      AgreeWithin(a, p, b, q, n, m, n - m);
      FieldsLocal(a, p + m, b, q + m, Some(f.key));
      FieldsCons(b, q, last, f.key, q + k, f.val, q + m);
      SameEntries(ParseFields(a, p, last).value, ParseFields(b, q, last).value);
    }
  }

  lemma SameEntries(f: seq<Field>, g: seq<Field>)
    requires f != [] && g != [] && f[0].key == g[0].key && f[0].val == g[0].val
    requires EntriesOf(f[1..]) == EntriesOf(g[1..])
    ensures EntriesOf(f) == EntriesOf(g)
  {
    assert EntriesOf(f) == [Entry(f[0].key, f[0].val)] + EntriesOf(f[1..]);
    assert EntriesOf(g) == [Entry(g[0].key, g[0].val)] + EntriesOf(g[1..]);
  }

  // ---- what the parser accepts ----

  /** Every accepted value is canonical: its dictionaries came strictly sorted. */
  lemma {:induction false} ValueCanonical(a: seq<byte>, p: nat)
    requires p <= |a| && ParseValue(a, p).Ok?
    ensures Canonical(ParseValue(a, p).value)
    decreases |a| - p, 0
  {
    hide ParseInt, ParseItems, ParseFields, ParseBytes, Sorted;
    if a[p] == LOWER_L {
      ItemsCanonical(a, p + 1);
    } else if a[p] == LOWER_D {
      FieldsCanonical(a, p + 1, None);
    } else if a[p] == LOWER_I {
      IntIsInt(a, p + 1);
    }
  }

  lemma IntIsInt(a: seq<byte>, p: nat)
    requires p <= |a| && ParseInt(a, p).Ok?
    ensures ParseInt(a, p).value.Int?
  {
  }

  lemma {:induction false} ItemsCanonical(a: seq<byte>, p: nat)
    requires p <= |a| && ParseItems(a, p).Ok?
    ensures forall i :: 0 <= i < |ParseItems(a, p).value| ==> Canonical(ParseItems(a, p).value[i])
    decreases |a| - p, 1
  {
    if a[p] != LOWER_E {
      hide ParseValue, ParseItems, Canonical;
      ItemsUncons(a, p);
      ItemsCons(a, p);
      ValueCanonical(a, p);
      ItemsCanonical(a, ParseValue(a, p).next);
    }
  }

  lemma {:induction false} FieldsCanonical(a: seq<byte>, p: nat, last: Option<seq<byte>>)
    requires p <= |a| && ParseFields(a, p, last).Ok?
    ensures Sorted(EntriesOf(ParseFields(a, p, last).value))
    ensures forall i :: 0 <= i < |ParseFields(a, p, last).value| ==> Canonical(ParseFields(a, p, last).value[i].val)
    ensures last.Some? ==>
              forall i :: 0 <= i < |ParseFields(a, p, last).value| ==> Less(last.value, ParseFields(a, p, last).value[i].key)
    decreases |a| - p, 1
  {
    if a[p] != LOWER_E {
      hide ParseValue, ParseFields, ParseBytes, Canonical, Less;
      var f := FieldsUncons(a, p, last);
      ValueCanonical(a, f.start);
      FieldsCanonical(a, f.end, Some(f.key));
      var rest := ParseFields(a, f.end, Some(f.key)).value;
      var all := ParseFields(a, p, last).value;
      assert all == [f] + rest;
      assert EntriesOf(all)[1..] == EntriesOf(rest);
      forall i | 0 <= i < |all|
        ensures last.Some? ==> Less(last.value, all[i].key)
      {
        if last.Some? && i > 0 {
          assert all[i] == rest[i - 1];
          LessTransitive(last.value, f.key, rest[i - 1].key);
        }
      }
    }
  }

  /** Decoding, re-encoding and decoding again changes nothing. */
  lemma ReencodeDecodes(input: seq<byte>)
    requires DecodePrefixOf(input).Ok? && |Encoding(DecodePrefixOf(input).value)| <= USIZE_MAX
    ensures DecodeOf(Encoding(DecodePrefixOf(input).value)).Ok?
    ensures DecodeOf(Encoding(DecodePrefixOf(input).value)).value == DecodePrefixOf(input).value
  {
    ValueCanonical(input, 0);
    DecodeInvertsEncode(DecodePrefixOf(input).value, []);
  }

  // ---- the info span ----

  /** The tracking decoder decodes as the plain one does. */
  lemma TorrentRoot(input: seq<byte>)
    ensures DecodeTorrentOf(input).Ok? <==> DecodePrefixOf(input).Ok?
    ensures DecodeTorrentOf(input).Ok? ==>
              Ok(DecodeTorrentOf(input).value.root, DecodeTorrentOf(input).next) == DecodePrefixOf(input)
    ensures DecodeTorrentOf(input).Err? ==> DecodeTorrentOf(input).error == DecodePrefixOf(input).error
  {
  }

  lemma FieldsOpen(a: seq<byte>, p: nat, last: Option<seq<byte>>)
    requires p <= |a| && ParseFields(a, p, last).Ok?
    ensures p < |a| && (a[p] == LOWER_E <==> ParseFields(a, p, last).value == [])
  {
    hide ParseValue, ParseBytes;
  }

  /** Each field's span holds the field's own value. */
  lemma {:induction false} FieldSpans(a: seq<byte>, p: nat, last: Option<seq<byte>>, i: nat)
    requires p <= |a| <= USIZE_MAX && ParseFields(a, p, last).Ok? && i < |ParseFields(a, p, last).value|
    ensures var f := ParseFields(a, p, last).value[i];
            p < f.start < f.end <= |a| && ParseValue(a, f.start) == Ok(f.val, f.end)
    decreases |a| - p
  {
    hide ParseValue, ParseFields, ParseBytes, Less;
    FieldsOpen(a, p, last);
    var f := FieldsUncons(a, p, last);
    if i > 0 {
      FieldSpans(a, f.end, Some(f.key), i - 1);
    }
  }

  lemma {:induction false} InfoIsField(fields: seq<Field>)
    ensures InfoSpan(fields).None? <==> Lookup(EntriesOf(fields), INFO).None?
    ensures InfoSpan(fields).Some? ==>
              exists i :: 0 <= i < |fields| && fields[i].start == InfoSpan(fields).value.start &&
                fields[i].end == InfoSpan(fields).value.end && Lookup(EntriesOf(fields), INFO) == Some(fields[i].val)
  {
    if fields != [] {
      assert EntriesOf(fields)[1..] == EntriesOf(fields[1..]);
      if fields[0].key != INFO {
        InfoIsField(fields[1..]);
        if InfoSpan(fields).Some? {
          var rest := fields[1..];
          var i :| 0 <= i < |rest| && rest[i].start == InfoSpan(rest).value.start &&
            rest[i].end == InfoSpan(rest).value.end && Lookup(EntriesOf(rest), INFO) == Some(rest[i].val);
          assert fields[i + 1] == rest[i];
        }
      }
    }
  }

  lemma SliceDecodes(a: seq<byte>, p: nat, q: nat, v: Value)
    requires p <= |a| <= USIZE_MAX && ParseValue(a, p) == Ok(v, q)
    ensures DecodeOf(a[p..q]) == Ok(v, q - p)
  {
    hide ParseValue;
    assert a[p..q][0..0 + (q - p)] == a[p..p + (q - p)];
    ValueLocal(a, p, a[p..q], 0);
  }

  lemma InfoFieldDecodes(input: seq<byte>)
    requires 0 < |input| <= USIZE_MAX && ParseFields(input, 1, None).Ok?
    requires InfoSpan(ParseFields(input, 1, None).value).Some?
    ensures var fields := ParseFields(input, 1, None).value;
            var span := InfoSpan(fields).value;
            && 0 < span.start < span.end <= |input|
            && Lookup(EntriesOf(fields), INFO).Some?
            && DecodeOf(input[span.start..span.end]) == Ok(Lookup(EntriesOf(fields), INFO).value, span.end - span.start)
  {
    hide ParseFields, ParseValue, InfoSpan, Lookup, DecodeOf;
    var fields := ParseFields(input, 1, None).value;
    InfoIsField(fields);
    var i :| 0 <= i < |fields| && fields[i].start == InfoSpan(fields).value.start &&
      fields[i].end == InfoSpan(fields).value.end && Lookup(EntriesOf(fields), INFO) == Some(fields[i].val);
    FieldSpans(input, 1, None, i);
    SliceDecodes(input, fields[i].start, fields[i].end, fields[i].val);
  }

  /** The reported span decodes, on its own, to the `info` value of the decoded torrent. */
  lemma InfoSpanDecodes(input: seq<byte>)
    requires |input| <= USIZE_MAX && DecodeTorrentOf(input).Ok?
    ensures var t := DecodeTorrentOf(input).value;
            && (t.info.None? <==> Get(t.root, INFO).None?)
            && (t.info.Some? ==>
                  && 0 < t.info.value.start < t.info.value.end <= |input|
                  && Get(t.root, INFO).Some?
                  && DecodeOf(input[t.info.value.start..t.info.value.end]) ==
                       Ok(Get(t.root, INFO).value, t.info.value.end - t.info.value.start))
  {
    hide ParseFields, ParseValue, InfoSpan, Lookup, DecodeOf;
    if input != [] && input[0] == LOWER_D {
      InfoIsField(ParseFields(input, 1, None).value);
      if InfoSpan(ParseFields(input, 1, None).value).Some? {
        InfoFieldDecodes(input);
      }
    } else {
      NotDict(input, 0);
    }
  }

  lemma NotDict(a: seq<byte>, p: nat)
    requires p <= |a| && (p < |a| ==> a[p] != LOWER_D) && ParseValue(a, p).Ok?
    ensures !ParseValue(a, p).value.Dict?
  {
    hide ParseItems, ParseFields, ParseBytes;
    if a[p] == LOWER_I {
      IntIsInt(a, p + 1);
    }
  }
}
