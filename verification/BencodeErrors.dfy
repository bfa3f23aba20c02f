/** Where a text that spells no value stops doing so, and the error that is reported for it. */
module BencodeErrors {
  import opened Prelude
  import opened Decimal
  import opened Lex
  import opened Bencode
  import opened BencodeGrammar

  /** Behind an `i`: no `e` follows, or what stands before the first one is no integer. */
  ghost predicate BreaksInt(buf: seq<byte>, pos: nat, e: Error)
    requires pos <= |buf|
  {
    if 'e' as int !in buf[pos..] then e == Eof else e == BadInt && exists k :: NoIntUpTo(buf, pos, k)
  }

  ghost predicate NoIntUpTo(buf: seq<byte>, pos: nat, k: nat)
  {
    && pos <= k < |buf| && buf[k] == 'e' as int && 'e' as int !in buf[pos..k]
    && forall n :: !SpellsInt(n, buf[pos..k])
  }

  /** At a digit: the digits run to the end, or into something else than a colon, or give a length there are not as many bytes for. */
  ghost predicate BreaksBytes(buf: seq<byte>, pos: nat, e: Error)
  {
    exists k :: BreaksLength(buf, pos, k, e)
  }

  ghost predicate BreaksLength(buf: seq<byte>, pos: nat, k: nat, e: Error)
  {
    && pos < k <= |buf| && AllDigits(buf[pos..k])
    && if k == |buf| then e == Eof
       else if buf[k] != ':' as int then !IsDigit(buf[k]) && e == BadLen
       else
         var end := k + 1 + Number(buf[pos..k]);
         if end > USIZE_MAX then e == BadLen else end > |buf| && e == Eof
  }

  /** No value can be read at `pos`. */
  ghost predicate Breaks(buf: seq<byte>, pos: nat, e: Error)
    requires pos <= |buf|
    decreases |buf| - pos, 0
  {
    if pos == |buf| then e == Eof
    else if buf[pos] == 'i' as int then BreaksInt(buf, pos + 1, e)
    else if buf[pos] == 'l' as int then BreaksItems(buf, pos + 1, e)
    else if buf[pos] == 'd' as int then BreaksFields(buf, pos + 1, None, e)
    else if '0' as int <= buf[pos] <= '9' as int then BreaksBytes(buf, pos, e)
    else e == Unexpected(buf[pos], pos)
  }

  /** The text ends before the `e` of a list, or an item cannot be read, the first one or one behind others. */
  ghost predicate BreaksItems(buf: seq<byte>, pos: nat, e: Error)
    requires pos <= |buf|
    decreases |buf| - pos, 1
  {
    if pos == |buf| then e == Eof
    else if buf[pos] == 'e' as int then false
    else
      || Breaks(buf, pos, e)
      || exists v, mid :: pos < mid <= |buf| && Spells(v, buf[pos..mid]) && BreaksItems(buf, mid, e)
  }

  /** The text ends before the `e` of a dictionary, or a key is none or not behind the one before it, or a value cannot be read. */
  ghost predicate BreaksFields(buf: seq<byte>, pos: nat, last: Option<seq<byte>>, e: Error)
    requires pos <= |buf|
    decreases |buf| - pos, 1
  {
    if pos == |buf| then e == Eof
    else if buf[pos] == 'e' as int then false
    else if !('0' as int <= buf[pos] <= '9' as int) then e == BadDictKey
    else
      || BreaksBytes(buf, pos, e)
      || exists key: seq<byte>, start ::
           pos < start <= |buf| && SpellsBytes(key, buf[pos..start]) && BreaksBehind(buf, start, last, key, e)
  }

  /** The same behind a key that ends at `start`. */
  ghost predicate BreaksBehind(buf: seq<byte>, start: nat, last: Option<seq<byte>>, key: seq<byte>, e: Error)
    requires start <= |buf|
    decreases |buf| - start, 2
  {
    if last.Some? && !Less(last.value, key) then e == BadDictKey
    else
      || Breaks(buf, start, e)
      || exists v, mid :: start < mid <= |buf| && Spells(v, buf[start..mid]) && BreaksFields(buf, mid, Some(key), e)
  }

  // ---- the parser's errors are these ----

  lemma InSlice(buf: seq<byte>, pos: nat, k: nat, j: nat)
    requires pos <= j < k <= |buf|
    ensures buf[j] in buf[pos..k]
  {
    assert buf[pos..k][j - pos] == buf[j];
  }

  lemma DigitAt(buf: seq<byte>, pos: nat, k: nat, j: nat)
    requires pos <= j < k <= |buf| && AllDigits(buf[pos..k])
    ensures IsDigit(buf[j])
  {
    assert buf[pos..k][j - pos] == buf[j];
  }

  lemma FindFirst(buf: seq<byte>, pos: nat, b: byte)
    requires pos <= |buf|
    ensures Find(buf, pos, b).None? <==> b !in buf[pos..]
    ensures forall k: nat :: Find(buf, pos, b) == Some(k) <==> pos <= k < |buf| && buf[k] == b && b !in buf[pos..k]
  {
    var r := Find(buf, pos, b);
    if r.Some? {
      assert buf[pos..][r.value - pos] == b;
      forall k: nat | pos <= k < |buf| && buf[k] == b && b !in buf[pos..k]
        ensures r == Some(k)
      {
        if r.value < k {
          InSlice(buf, pos, k, r.value);
        }
        if k < r.value {
          InSlice(buf, pos, r.value, k);
        }
      }
    } else {
      forall k: nat | pos <= k < |buf|
        ensures buf[k] != b
      {
        assert buf[pos..][k - pos] == buf[k];
      }
    }
  }

  lemma IntError(buf: seq<byte>, pos: nat, e: Error)
    requires pos <= |buf|
    ensures ParseInt(buf, pos) == Err(e) <==> BreaksInt(buf, pos, e)
  {
    hide PlainNumeral, ParseSigned, SpellsInt, Find;
    FindFirst(buf, pos, LOWER_E);
    match Find(buf, pos, LOWER_E)
    case None =>
    case Some(k) =>
      IntRead(buf[pos..k]);
      assert NoIntUpTo(buf, pos, k) <==> forall n :: !SpellsInt(n, buf[pos..k]);
  }

  lemma IntRead(t: seq<byte>)
    ensures PlainNumeral(t) && ParseSigned(t).Some? <==> exists n :: SpellsInt(n, t)
  {
    hide PlainNumeral, ParseSigned;
    if PlainNumeral(t) && ParseSigned(t).Some? {
      IntIff(t, ParseSigned(t).value);
    }
    forall n | SpellsInt(n, t)
      ensures PlainNumeral(t) && ParseSigned(t).Some?
    {
      IntInRange(n, t);
      IntIff(t, n);
    }
  }

  lemma IntInRange(n: int, t: seq<byte>)
    requires SpellsInt(n, t)
    ensures I64_MIN <= n <= I64_MAX
  {
    hide Number;
  }

  /** Where a run of digits ends. */
  lemma {:induction false} ScanTo(buf: seq<byte>, pos: nat) returns (k: nat)
    requires pos <= |buf|
    ensures pos <= k <= |buf| && AllDigits(buf[pos..k]) && (k < |buf| ==> !IsDigit(buf[k]))
    ensures ScanLength(buf, pos) == if k == |buf| then Err(Eof) else if buf[k] == COLON then Ok(k, k + 1) else Err(BadLen)
    decreases |buf| - pos
  {
    if pos < |buf| && IsDigit(buf[pos]) {
      k := ScanTo(buf, pos + 1);
      assert buf[pos..k] == [buf[pos]] + buf[pos + 1..k];
    } else {
      k := pos;
    }
  }

  lemma OneRun(buf: seq<byte>, pos: nat, j: nat, k: nat)
    requires pos <= j <= |buf| && pos <= k <= |buf| && AllDigits(buf[pos..j]) && AllDigits(buf[pos..k])
    requires (j < |buf| ==> !IsDigit(buf[j])) && (k < |buf| ==> !IsDigit(buf[k]))
    ensures j == k
  {
    if j < k {
      DigitAt(buf, pos, k, j);
    }
    if k < j {
      DigitAt(buf, pos, j, k);
    }
  }

  lemma BytesError(buf: seq<byte>, pos: nat, e: Error)
    requires pos < |buf| && IsDigit(buf[pos])
    ensures ParseBytes(buf, pos) == Err(e) <==> BreaksBytes(buf, pos, e)
  {
    hide Number, ScanLength;
    var k := ScanTo(buf, pos);
    var digits := buf[pos..k];
    assert digits != [] && digits[0] == buf[pos];
    assert digits[0] != 43;
    forall j: nat | BreaksLength(buf, pos, j, e)
      ensures j == k
    {
      OneRun(buf, pos, j, k);
    }
    assert ParseBytes(buf, pos) == Err(e) <==> BreaksLength(buf, pos, k, e);
  }

  /** An error is reported for a value if and only if the value breaks with it. */
  lemma {:induction false} ValueError(buf: seq<byte>, pos: nat, e: Error)
    requires pos <= |buf| <= USIZE_MAX
    ensures ParseValue(buf, pos) == Err(e) <==> Breaks(buf, pos, e)
    decreases |buf| - pos, 0
  {
    hide ParseInt, ParseBytes, ParseItems, ParseFields, BreaksInt, BreaksBytes, BreaksItems, BreaksFields;
    if pos < |buf| {
      if buf[pos] == LOWER_I {
        IntError(buf, pos + 1, e);
      } else if buf[pos] == LOWER_L {
        ItemsError(buf, pos + 1, e);
      } else if buf[pos] == LOWER_D {
        FieldsError(buf, pos + 1, None, e);
      } else if IsDigit(buf[pos]) {
        BytesError(buf, pos, e);
      }
    }
  }

  lemma {:induction false} ItemsError(buf: seq<byte>, pos: nat, e: Error)
    requires pos <= |buf| <= USIZE_MAX
    ensures ParseItems(buf, pos) == Err(e) <==> BreaksItems(buf, pos, e)
    decreases |buf| - pos, 1
  {
    hide ParseValue, Spells, Breaks;
    if pos < |buf| && buf[pos] != LOWER_E {
      ValueError(buf, pos, e);
      var r := ParseValue(buf, pos);
      if r.Ok? {
        ValueSpelled(buf, pos);
        ItemsError(buf, r.next, e);
      }
      forall v, mid | pos < mid <= |buf| && Spells(v, buf[pos..mid])
        ensures r == Ok(v, mid)
      {
        ValueAccepted(buf, pos, v, mid);
      }
    }
  }

  lemma {:induction false} FieldsError(buf: seq<byte>, pos: nat, last: Option<seq<byte>>, e: Error)
    requires pos <= |buf| <= USIZE_MAX
    ensures ParseFields(buf, pos, last) == Err(e) <==> BreaksFields(buf, pos, last, e)
    decreases |buf| - pos, 1
  {
    hide ParseValue, ParseBytes, SpellsBytes, BreaksBehind, BreaksBytes, Less;
    if pos < |buf| && buf[pos] != LOWER_E && IsDigit(buf[pos]) {
      BytesError(buf, pos, e);
      var k := ParseBytes(buf, pos);
      forall key: seq<byte>, start | pos < start <= |buf| && SpellsBytes(key, buf[pos..start])
        ensures k == Ok(key, start)
      {
        BytesAccepted(buf, pos, key, start);
      }
      if k.Ok? {
        BytesSpelled(buf, pos);
        FieldError(buf, last, k.value, k.next, e);
      }
    }
  }

  /** The error behind a key: of its place, of its value, or of the fields behind that. */
  ghost function BehindOf(buf: seq<byte>, start: nat, last: Option<seq<byte>>, key: seq<byte>): (r: Option<Error>)
    requires start <= |buf|
  {
    if last.Some? && !Less(last.value, key) then Some(BadDictKey)
    else match ParseValue(buf, start)
         case Err(e) => Some(e)
         case Ok(v, end) =>
           match ParseFields(buf, end, Some(key))
           case Err(e) => Some(e)
           case Ok(_, _) => None
  }

  lemma {:induction false} FieldError(buf: seq<byte>, last: Option<seq<byte>>, key: seq<byte>, start: nat, e: Error)
    requires 0 < start <= |buf| <= USIZE_MAX
    ensures BehindOf(buf, start, last, key) == Some(e) <==> BreaksBehind(buf, start, last, key, e)
    decreases |buf| - start, 2
  {
    hide ParseValue, Spells, Breaks, ParseFields, BreaksFields, Less;
    ValueError(buf, start, e);
    var r := ParseValue(buf, start);
    if r.Ok? {
      ValueSpelled(buf, start);
      FieldsError(buf, r.next, Some(key), e);
    }
    forall v, mid | start < mid <= |buf| && Spells(v, buf[start..mid])
      ensures r == Ok(v, mid)
    {
      ValueAccepted(buf, start, v, mid);
    }
  }

  /** Behind a whole value something trails it. */
  ghost predicate Trails(input: seq<byte>)
  {
    exists v, n :: 0 <= n < |input| && Spells(v, input[..n])
  }

  /** What a whole buffer is refused with. */
  lemma RefusedIff(input: seq<byte>, e: Error)
    requires |input| <= USIZE_MAX
    ensures DecodePrefixOf(input) == Err(e) <==> Breaks(input, 0, e)
    ensures DecodeOf(input) == Err(e) <==> Breaks(input, 0, e) || (e == Trailing && Trails(input))
  {
    hide ParseValue, Spells, Breaks;
    ValueError(input, 0, e);
    ValueError(input, 0, Trailing);
    forall v, n | 0 <= n < |input| && Spells(v, input[..n])
      ensures ParseValue(input, 0) == Ok(v, n)
    {
      AcceptsIff(input, v, n);
    }
    if ParseValue(input, 0).Ok? {
      var r := ParseValue(input, 0);
      AcceptsIff(input, r.value, r.next);
    }
  }
}
