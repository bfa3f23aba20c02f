/** The info-hash part of metainfo parsing: which bytes are hashed, and what is refused. */
module Metainfo {
  import opened Prelude
  import opened Decimal
  import opened Lex
  import opened Placement
  import opened Bencode
  import opened BencodeProofs

  /** The SHA-1 of an info dictionary; its length plays no part here. */
  type InfoHash = seq<byte>

  datatype InfoResult =
    | Info(hash: InfoHash, dict: seq<Entry>)
    | BadBencode(error: Error)
    | NoInfo
    | HashMismatch

  /** `parse`, up to the point where the fields of the info dictionary are read. */
  function ParseInfo(bytes: seq<byte>, expected: Option<InfoHash>, sha1: seq<byte> -> InfoHash): (r: InfoResult)
    requires |bytes| <= USIZE_MAX
  {
    match DecodeTorrentOf(bytes)
    case Err(e) => BadBencode(e)
    case Ok(t, _) =>
      if t.info.None? then NoInfo
      else
        InfoSpanDecodes(bytes);
        var hash := sha1(bytes[t.info.value.start..t.info.value.end]);
        if expected.Some? && expected.value != hash then HashMismatch
        else
          var info := Get(t.root, INFO);
          if info.Some? && info.value.Dict? then Info(hash, info.value.entries) else NoInfo
  }

  /** The one-key torrent around an info dictionary. */
  function Wrapped(info: seq<byte>): (s: seq<byte>)
  {
    [LOWER_D] + EncodedBytes(INFO) + info + [LOWER_E]
  }

  method FromInfoDict(info: seq<byte>, expected: InfoHash, sha1: seq<byte> -> InfoHash) returns (r: InfoResult)
    requires |info| + 8 <= USIZE_MAX
    ensures r == ParseInfo(Wrapped(info), Some(expected), sha1)
    ensures DecodeOf(info).Ok? ==>
              r == if sha1(info) != expected then HashMismatch
                   else if DecodeOf(info).value.Dict? then Info(expected, DecodeOf(info).value.entries)
                   else NoInfo
    ensures r.Info? ==> DecodePrefixOf(info).Ok? && DecodePrefixOf(info).value == Dict(r.dict) &&
                        sha1(info[..DecodePrefixOf(info).next]) == r.hash == expected
  {
    var torrent: seq<byte> := [100, 52, 58, 105, 110, 102, 111];
    torrent := torrent + info;
    torrent := torrent + [101];
    assert torrent == Wrapped(info) by { WrappedIs(info); }
    r := ParseInfo(torrent, Some(expected), sha1);
    WrappedParses(info, expected, sha1);
  }

  lemma WrappedIs(info: seq<byte>)
    ensures Wrapped(info) == [100, 52, 58, 105, 110, 102, 111] + info + [101]
    ensures |EncodedBytes(INFO)| == 6 && |Wrapped(info)| == |info| + 8
  {
    assert Digits(4) == [52];
    assert EncodedBytes(INFO) == [52, 58, 105, 110, 102, 111];
  }

  lemma WrappedAgrees(info: seq<byte>, n: nat)
    requires n <= |info|
    ensures Agree(info, 0, Wrapped(info), 7, n)
    ensures |Wrapped(info)| == |info| + 8 && Wrapped(info)[0] == LOWER_D
    ensures Wrapped(info)[7 + |info|] == LOWER_E && At(Wrapped(info), 1, EncodedBytes(INFO))
  {
    WrappedIs(info);
  }

  /** The first field read from the wrapper is `info`, from offset 7. */
  lemma WrappedFields(info: seq<byte>)
    requires |info| + 8 <= USIZE_MAX
    ensures var w := Wrapped(info);
            && |w| == |info| + 8 && w[0] == LOWER_D
            && (ParseFields(w, 1, None).Ok? <==> ParseValue(w, 7).Ok? && ParseFields(w, ParseValue(w, 7).next, Some(INFO)).Ok?)
            && (ParseFields(w, 1, None).Ok? ==>
                  ParseFields(w, 1, None).value ==
                    [Field(INFO, ParseValue(w, 7).value, 7, ParseValue(w, 7).next)] +
                    ParseFields(w, ParseValue(w, 7).next, Some(INFO)).value)
  {
    hide ParseValue, ParseBytes, EncodedBytes, At, Agree;
    var w := Wrapped(info);
    WrappedIs(info);
    WrappedAgrees(info, 0);
    BytesRead(w, 1, INFO);
    NotClosed(w, 1, None);
  }

  lemma NotClosed(a: seq<byte>, p: nat, last: Option<seq<byte>>)
    requires p < |a| && IsDigit(a[p]) && ParseBytes(a, p).Ok?
    requires last.None?
    ensures ParseFields(a, p, last).Ok? <==>
              ParseValue(a, ParseBytes(a, p).next).Ok? &&
              ParseFields(a, ParseValue(a, ParseBytes(a, p).next).next, Some(ParseBytes(a, p).value)).Ok?
    ensures ParseFields(a, p, last).Ok? ==>
              ParseFields(a, p, last).value ==
                [Field(ParseBytes(a, p).value, ParseValue(a, ParseBytes(a, p).next).value, ParseBytes(a, p).next,
                       ParseValue(a, ParseBytes(a, p).next).next)] +
                ParseFields(a, ParseValue(a, ParseBytes(a, p).next).next, Some(ParseBytes(a, p).value)).value
  {
    hide ParseValue, ParseBytes;
  }

  /** The value the wrapper holds under `info` is the one at the front of the bytes handed in. */
  lemma WrappedValue(info: seq<byte>)
    requires |info| + 8 <= USIZE_MAX
    ensures |Wrapped(info)| == |info| + 8
    ensures DecodePrefixOf(info).Ok? ==>
              ParseValue(Wrapped(info), 7) == Ok(DecodePrefixOf(info).value, 7 + DecodePrefixOf(info).next)
    ensures ParseValue(Wrapped(info), 7).Ok? && ParseValue(Wrapped(info), 7).next <= 7 + |info| ==> DecodePrefixOf(info).Ok?
  {
    hide ParseValue, Wrapped;
    var w := Wrapped(info);
    WrappedAgrees(info, 0);
    if DecodePrefixOf(info).Ok? {
      WrappedAgrees(info, DecodePrefixOf(info).next);
      ValueLocal(info, 0, w, 7);
    }
    if ParseValue(w, 7).Ok? && ParseValue(w, 7).next <= 7 + |info| {
      WrappedAgrees(info, ParseValue(w, 7).next - 7);
      ValueLocal(w, 7, info, 0);
    }
  }

  /**
   * Bytes that are one complete value are hashed exactly as they came. In general what is hashed is the value at the
   * front; so all of `info` is hashed if and only if nothing trails that value.
   */
  lemma WrappedParses(info: seq<byte>, expected: InfoHash, sha1: seq<byte> -> InfoHash)
    requires |info| + 8 <= USIZE_MAX
    ensures |Wrapped(info)| == |info| + 8
    ensures DecodeOf(info).Ok? ==>
              ParseInfo(Wrapped(info), Some(expected), sha1) ==
                if sha1(info) != expected then HashMismatch
                else if DecodeOf(info).value.Dict? then Info(expected, DecodeOf(info).value.entries)
                else NoInfo
    ensures var r := ParseInfo(Wrapped(info), Some(expected), sha1);
            r.Info? ==> DecodePrefixOf(info).Ok? && DecodePrefixOf(info).value == Dict(r.dict) &&
                        sha1(info[..DecodePrefixOf(info).next]) == r.hash == expected
  {
    hide ParseValue, Wrapped, ParseFields;
    var w := Wrapped(info);
    WrappedValue(info);
    WrappedFields(info);
    WrappedAgrees(info, 0);
    if DecodeOf(info).Ok? {
      FieldsNil(w, 7 + |info|, Some(INFO));
    }
    if DecodePrefixOf(info).Ok? {
      var n := DecodePrefixOf(info).next;
      assert w[7..7 + n] == info[..n] by { WrappedAgrees(info, n); }
      assert DecodeOf(info).Ok? ==> info[..n] == info;
    }
    if ParseFields(w, 1, None).Ok? {
      var fields := ParseFields(w, 1, None).value;
      assert EntriesOf(fields)[0] == Entry(INFO, ParseValue(w, 7).value);
    }
  }

  /**
   * Bytes that trail the dictionary as further sorted keys are accepted and not covered by the hash: this whole
   * family passes the check against the hash of its first value alone.
   */
  lemma TrailingKeysUnhashed(dict: seq<Entry>, extra: seq<Entry>, sha1: seq<byte> -> InfoHash)
    requires Canonical(Dict(dict)) && Canonical(Dict(extra)) && (extra != [] ==> Less(INFO, extra[0].key))
    requires |Encoding(Dict(dict)) + EncodedEntries(extra)| + 8 <= USIZE_MAX
    ensures |Wrapped(Encoding(Dict(dict)) + EncodedEntries(extra))| <= USIZE_MAX
    ensures var hash := sha1(Encoding(Dict(dict)));
            ParseInfo(Wrapped(Encoding(Dict(dict)) + EncodedEntries(extra)), Some(hash), sha1) == Info(hash, dict)
  {
    hide ParseValue, Wrapped, ParseFields, Encoding, EncodedEntries, Less, Canonical, At;
    var front, back := Encoding(Dict(dict)), EncodedEntries(extra);
    var info := front + back;
    var w := Wrapped(info);
    DecodeInvertsEncode(Dict(dict), back);
    WrappedValue(info);
    WrappedFields(info);
    WrappedHolds(front, back);
    assert ParseFields(w, 7 + |front|, Some(INFO)).Ok? by {
      assert Sorted(extra) && forall i :: 0 <= i < |extra| ==> Canonical(extra[i].val) by { DictCanonical(extra); }
      EntriesRead(w, 7 + |front|, Some(INFO), extra);
    }
    var fields := ParseFields(w, 1, None).value;
    assert EntriesOf(fields)[0] == Entry(INFO, Dict(dict));
  }

  lemma DictCanonical(entries: seq<Entry>)
    requires Canonical(Dict(entries))
    ensures Sorted(entries) && forall i :: 0 <= i < |entries| ==> Canonical(entries[i].val)
  {
  }

  lemma WrappedHolds(front: seq<byte>, back: seq<byte>)
    ensures var w := Wrapped(front + back);
            && |w| == |front| + |back| + 8 && w[7..7 + |front|] == front
            && At(w, 7 + |front|, back) && At(w, 7 + |front| + |back|, [LOWER_E])
  {
    WrappedIs(front + back);
  }
}
