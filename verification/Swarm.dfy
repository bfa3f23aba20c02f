/** Fetching one piece from several peers at once. */
module Swarm {
  import opened Prelude
  import opened Arithmetic
  import opened TorrentLayout

  const BLOCK: nat := 16384
  const MAX_PARALLEL: nat := 8
  const U32_RANGE: nat := 0x1_0000_0000

  datatype Segment = Segment(begin: nat, len: nat)

  // ---- dividing a piece ----

  /** Contiguous, non-empty, block-aligned segments from 0 to `upTo`. */
  ghost predicate TilesPiece(segments: seq<Segment>, upTo: nat)
  {
    && (segments == [] ==> upTo == 0)
    && (segments != [] ==> segments[0].begin == 0 && segments[|segments| - 1].begin + segments[|segments| - 1].len == upTo)
    && (forall i :: 0 <= i < |segments| ==> segments[i].len > 0 && segments[i].begin % BLOCK == 0)
    && (forall i, j :: 0 <= i && j == i + 1 && j < |segments| ==> segments[j].begin == segments[i].begin + segments[i].len)
  }

  /** The length of all segments but the last. */
  function SegmentSize(pieceLen: nat, parts: nat): (n: nat)
  {
    DivCeil(DivCeil(pieceLen, BLOCK), Max(parts, 1)) * BLOCK
  }

  lemma CeilCovers(a: nat, n: nat)
    requires n > 0
    ensures a <= n * DivCeil(a, n)
  {
    if a > 0 {
      CeilBounds(a, n);
    }
  }

  /** As many segments as parts cover the piece. */
  lemma SegmentsCover(pieceLen: nat, parts: nat)
    ensures pieceLen <= SegmentSize(pieceLen, parts) * Max(parts, 1)
    ensures SegmentSize(pieceLen, parts) % BLOCK == 0
    ensures pieceLen > 0 ==> SegmentSize(pieceLen, parts) > 0
  {
    var blocks, n := DivCeil(pieceLen, BLOCK), Max(parts, 1);
    CeilCovers(pieceLen, BLOCK);
    CeilCovers(blocks, n);
    var per := DivCeil(blocks, n);
    MulMono(blocks, n * per, BLOCK);
    assert BLOCK * (n * per) == per * BLOCK * n;
    QuotientIs(per * BLOCK, BLOCK, per);
  }

  lemma Aligned(k: nat, size: nat)
    requires size % BLOCK == 0
    ensures (k * size) % BLOCK == 0
  {
    Division(size, BLOCK);
    assert k * size == BLOCK * (k * (size / BLOCK));
    QuotientIs(k * size, BLOCK, k * (size / BLOCK));
  }

  lemma TilesSnoc(segments: seq<Segment>, upTo: nat, len: nat)
    requires TilesPiece(segments, upTo) && len > 0 && upTo % BLOCK == 0
    ensures TilesPiece(segments + [Segment(upTo, len)], upTo + len)
  {
  }

  /** A full segment was cut each time, so parts are left while bytes are. */
  lemma PartsLeft(k: nat, n: nat, seg: nat, pieceLen: nat)
    requires k * seg < pieceLen <= seg * n
    ensures k < n && k * seg + seg == (k + 1) * seg
  {
    assert k >= n ==> seg * n <= seg * k by { if k >= n { MulMono(n, k, seg); } }
  }

  /** Segments for up to `parts` peers; the segment size must fit 32 bits. */
  method SegmentBounds(pieceLen: nat, parts: nat) returns (out: seq<Segment>)
    requires SegmentSize(pieceLen, parts) < U32_RANGE
    ensures TilesPiece(out, pieceLen) && |out| <= Max(parts, 1)
    ensures pieceLen > 0 ==> EvenlySplit(out, pieceLen, Max(parts, 1))
  {
    hide TilesPiece, DivCeil;
    var totalBlocks := DivCeil(pieceLen, BLOCK);
    var blocksPer := DivCeil(totalBlocks, Max(parts, 1));
    var seg := blocksPer * BLOCK;
    assert seg == SegmentSize(pieceLen, parts);
    out := [];
    var begin := 0;
    SegmentsCover(pieceLen, parts);
    assert TilesPiece([], 0) by { NoSegments(); }
    while begin < pieceLen
      invariant 0 <= begin <= pieceLen && TilesPiece(out, begin)
      invariant begin == pieceLen || begin == |out| * seg
      invariant |out| <= Max(parts, 1)
      invariant forall k :: 0 <= k < |out| ==> out[k].len <= seg && (k < |out| - 1 || begin < pieceLen ==> out[k].len == seg)
      decreases pieceLen - begin
    {
      var len := Min(seg, pieceLen - begin);
      Aligned(|out|, seg);
      PartsLeft(|out|, Max(parts, 1), seg, pieceLen);
      TilesSnoc(out, begin, len);
      out := out + [Segment(begin, len)];
      begin := begin + len;
    }
    if pieceLen > 0 {
      LeastSize(pieceLen, parts);
      assert EvenlyBy(out, pieceLen, Max(parts, 1), seg);
    }
  }

  /**
   * All segments but the last have the length `seg` and the last is no longer: the least multiple of the block with
   * which `n` segments cover the piece.
   */
  ghost predicate EvenlyBy(segments: seq<Segment>, pieceLen: nat, n: nat, seg: nat)
  {
    && seg % BLOCK == 0 && pieceLen <= n * seg && n * (seg - BLOCK) < pieceLen
    && (forall k :: 0 <= k < |segments| ==> segments[k].len <= seg)
    && (forall k :: 0 <= k < |segments| - 1 ==> segments[k].len == seg)
  }

  ghost predicate EvenlySplit(segments: seq<Segment>, pieceLen: nat, n: nat)
  {
    exists seg: nat :: EvenlyBy(segments, pieceLen, n, seg)
  }

  lemma LeastSize(pieceLen: nat, parts: nat)
    requires pieceLen > 0
    ensures var seg, n := SegmentSize(pieceLen, parts), Max(parts, 1);
            seg % BLOCK == 0 && pieceLen <= n * seg && n * (seg - BLOCK) < pieceLen
  {
    var blocks, n := DivCeil(pieceLen, BLOCK), Max(parts, 1);
    SegmentsCover(pieceLen, parts);
    CeilBounds(pieceLen, BLOCK);
    CeilBounds(blocks, n);
    var per := DivCeil(blocks, n);
    hide DivCeil, SegmentSize;
    assert SegmentSize(pieceLen, parts) == per * BLOCK by { SizeIs(pieceLen, parts); }
    MulAssoc(n, per - 1, BLOCK);
    assert per * BLOCK - BLOCK == (per - 1) * BLOCK;
  }

  lemma SizeIs(pieceLen: nat, parts: nat)
    ensures SegmentSize(pieceLen, parts) == DivCeil(DivCeil(pieceLen, BLOCK), Max(parts, 1)) * BLOCK
  {
  }

  lemma NoSegments()
    ensures TilesPiece([], 0)
  {
  }

  // ---- one peer ----

  datatype Message = Unchoke | Choke | PieceBlock(index: nat, begin: nat, block: seq<byte>) | Other

  datatype Sent = Interested | RequestBlock(index: nat, begin: nat, len: nat)

  /** The peer answers for piece `index` with whole aligned blocks of its true bytes, in any order and any number. */
  ghost predicate Truthful(messages: seq<Message>, index: nat, piece: seq<byte>)
  {
    forall i :: 0 <= i < |messages| && messages[i].PieceBlock? && messages[i].index == index ==>
      TruthfulBlock(messages[i], piece)
  }

  ghost predicate TruthfulBlock(m: Message, piece: seq<byte>)
    requires m.PieceBlock?
  {
    && m.begin % BLOCK == 0 && m.begin < |piece|
    && m.block == piece[m.begin..Min(m.begin + BLOCK, |piece|)]
  }

  /** A range whose ends are block boundaries or the end of the piece. */
  ghost predicate BlockRange(begin: nat, length: nat, pieceLen: nat)
  {
    begin % BLOCK == 0 && length > 0 && begin + length <= pieceLen && (length % BLOCK == 0 || begin + length == pieceLen)
  }

  /** Every present block is in the buffer. */
  ghost predicate Filled(buf: seq<byte>, have: seq<bool>, begin: nat, length: nat, piece: seq<byte>)
    requires begin + length <= |piece|
  {
    && |buf| == length && |have| == DivCeil(length, BLOCK)
    && forall i :: 0 <= i < length && i / BLOCK < |have| && have[i / BLOCK] ==> buf[i] == piece[begin + i]
  }

  /** Block `k` of the range is among the messages. */
  ghost predicate Arrived(messages: seq<Message>, index: nat, at: nat)
  {
    exists i :: 0 <= i < |messages| && messages[i].PieceBlock? && messages[i].index == index && messages[i].begin == at
  }

  /** Exactly the blocks that arrived are present. */
  ghost predicate Tracks(have: seq<bool>, messages: seq<Message>, index: nat, begin: nat)
  {
    forall k :: 0 <= k < |have| ==> (have[k] <==> Arrived(messages, index, begin + k * BLOCK))
  }

  /** The bytes of one segment. */
  ghost predicate RightBytes(bytes: seq<byte>, s: Segment, piece: seq<byte>)
  {
    s.begin + s.len <= |piece| && bytes == piece[s.begin..s.begin + s.len]
  }

  /** All blocks of a range are on their way. */
  ghost predicate Delivers(messages: seq<Message>, index: nat, s: Segment)
  {
    forall k :: 0 <= k < DivCeil(s.len, BLOCK) ==> Arrived(messages, index, s.begin + k * BLOCK)
  }

  lemma BlockFits(m: Message, begin: nat, length: nat, piece: seq<byte>)
    requires m.PieceBlock? && TruthfulBlock(m, piece) && BlockRange(begin, length, |piece|) && begin <= m.begin < begin + length
    ensures var rel := m.begin - begin;
            && rel / BLOCK * BLOCK == rel && |m.block| == Min(BLOCK, length - rel) && rel / BLOCK < DivCeil(length, BLOCK)
  {
    var rel := m.begin - begin;
    Division(m.begin, BLOCK);
    Division(begin, BLOCK);
    var k := m.begin / BLOCK - begin / BLOCK;
    assert rel == BLOCK * k;
    QuotientIs(rel, BLOCK, k);
    CeilBounds(length, BLOCK);
    Division(length, BLOCK);
  }

  lemma FillStep(buf: seq<byte>, have: seq<bool>, begin: nat, length: nat, piece: seq<byte>, m: Message)
    requires m.PieceBlock? && TruthfulBlock(m, piece) && BlockRange(begin, length, |piece|) && begin <= m.begin < begin + length
    requires Filled(buf, have, begin, length, piece)
    ensures var rel := m.begin - begin;
            && rel + |m.block| <= |buf| && rel / BLOCK < |have|
            && Filled(Splice(buf, rel, m.block), have[rel / BLOCK := true], begin, length, piece)
  {
    hide Splice, DivCeil;
    var rel := m.begin - begin;
    BlockFits(m, begin, length, piece);
    var next, now := Splice(buf, rel, m.block), have[rel / BLOCK := true];
    forall i | 0 <= i < length && i / BLOCK < |now| && now[i / BLOCK]
      ensures next[i] == piece[begin + i]
    {
      SpliceAt(buf, rel, m.block, i);
      if i / BLOCK == rel / BLOCK {
        Division(i, BLOCK);
      }
    }
  }

  lemma TrackStep(have: seq<bool>, messages: seq<Message>, index: nat, begin: nat, m: Message, j: nat)
    requires Tracks(have, messages, index, begin) && j < |have| && m.PieceBlock? && m.index == index && m.begin == begin + j * BLOCK
    ensures Tracks(have[j := true], messages + [m], index, begin)
  {
    hide Arrived;
    forall k | 0 <= k < |have|
      ensures Arrived(messages + [m], index, begin + k * BLOCK) <==> Arrived(messages, index, begin + k * BLOCK) || k == j
    {
      ArrivedStep(messages, index, begin + k * BLOCK, m);
    }
  }

  lemma TrackSkip(have: seq<bool>, messages: seq<Message>, index: nat, begin: nat, m: Message)
    requires Tracks(have, messages, index, begin)
    requires m.PieceBlock? && m.index == index ==> m.begin < begin || begin + |have| * BLOCK <= m.begin
    ensures Tracks(have, messages + [m], index, begin)
  {
    hide Arrived;
    forall k | 0 <= k < |have|
      ensures Arrived(messages + [m], index, begin + k * BLOCK) <==> Arrived(messages, index, begin + k * BLOCK)
    {
      ArrivedStep(messages, index, begin + k * BLOCK, m);
    }
  }

  lemma ArrivedStep(messages: seq<Message>, index: nat, at: nat, m: Message)
    ensures Arrived(messages + [m], index, at) <==>
              Arrived(messages, index, at) || (m.PieceBlock? && m.index == index && m.begin == at)
  {
    var all := messages + [m];
    if Arrived(messages, index, at) {
      var i :| 0 <= i < |messages| && messages[i].PieceBlock? && messages[i].index == index && messages[i].begin == at;
      assert all[i] == messages[i];
    }
    assert all[|messages|] == m;
  }

  lemma AllFilled(buf: seq<byte>, have: seq<bool>, begin: nat, length: nat, piece: seq<byte>)
    requires begin + length <= |piece| && Filled(buf, have, begin, length, piece) && forall k :: 0 <= k < |have| ==> have[k]
    ensures buf == piece[begin..begin + length]
  {
    if length > 0 {
      CeilBounds(length, BLOCK);
    }
    forall i | 0 <= i < length
      ensures buf[i] == piece[begin + i]
    {
      Division(i, BLOCK);
      assert i / BLOCK < |have|;
    }
  }

  // ---- what is sent ----

  /** One request for each block of the range, in order: whole blocks from its start, the last one cut to its end. */
  ghost predicate IsBatch(batch: seq<Sent>, index: nat, begin: nat, length: nat)
  {
    && |batch| == DivCeil(length, BLOCK)
    && forall k :: 0 <= k < |batch| ==>
         && batch[k].RequestBlock? && batch[k].index == index
         && batch[k].begin == begin + k * BLOCK && batch[k].len == Min(BLOCK, length - k * BLOCK)
  }

  lemma BatchUnique(a: seq<Sent>, b: seq<Sent>, index: nat, begin: nat, length: nat)
    requires IsBatch(a, index, begin, length) && IsBatch(b, index, begin, length)
    ensures a == b
  {
    forall k | 0 <= k < |a|
      ensures a[k] == b[k]
    {
    }
  }

  /** Whether the peer has us choked when `r` messages have been read. */
  ghost predicate ChokedAt(choked: bool, messages: seq<Message>, r: nat)
    requires r <= |messages|
  {
    || (choked && forall k :: 0 <= k < r ==> !messages[k].Unchoke?)
    || exists j :: 0 <= j < r && messages[j].Choke? && forall k :: j < k < r ==> !messages[k].Unchoke?
  }

  lemma ChokedStep(choked: bool, messages: seq<Message>, r: nat)
    requires r < |messages|
    ensures ChokedAt(choked, messages, 0) == choked
    ensures ChokedAt(choked, messages, r + 1) ==
            if messages[r].Choke? then true else if messages[r].Unchoke? then false else ChokedAt(choked, messages, r)
  {
  }

  /** Round `r` finds us unchoked, for the first time or again. */
  ghost predicate AsksAt(choked: bool, messages: seq<Message>, r: nat)
    requires r <= |messages|
  {
    !ChokedAt(choked, messages, r) && (r == 0 || ChokedAt(choked, messages, r - 1))
  }

  ghost function AskingRounds(choked: bool, messages: seq<Message>, rounds: nat): set<nat>
    requires rounds <= |messages| + 1
  {
    set r: nat | r < rounds && AsksAt(choked, messages, r)
  }

  lemma RoundsStep(choked: bool, messages: seq<Message>, r: nat)
    requires r <= |messages|
    ensures |AskingRounds(choked, messages, r + 1)| ==
            |AskingRounds(choked, messages, r)| + if AsksAt(choked, messages, r) then 1 else 0
  {
    hide AsksAt;
    var before, after := AskingRounds(choked, messages, r), AskingRounds(choked, messages, r + 1);
    if AsksAt(choked, messages, r) {
      assert after == before + {r};
    } else {
      assert after == before;
    }
  }

  function Repeat(batch: seq<Sent>, n: nat): (r: seq<Sent>)
  {
    if n == 0 then [] else Repeat(batch, n - 1) + batch
  }

  /**
   * What a fetch adds to the messages sent: `Interested` first, if it was never sent, and then one batch for each round
   * that finds us newly unchoked, nothing else.
   */
  ghost predicate AskedFor(before: seq<Sent>, after: seq<Sent>, interested: bool, choked: bool, messages: seq<Message>,
                           rounds: nat, index: nat, begin: nat, length: nat)
    requires rounds <= |messages| + 1
  {
    exists batch ::
      && IsBatch(batch, index, begin, length)
      && after == before + (if interested then [] else [Interested]) + Repeat(batch, |AskingRounds(choked, messages, rounds)|)
  }

  /** The same for a fetch that left `rest` of the messages unread; one that read them all may have gone round once more. */
  ghost predicate Asked(before: seq<Sent>, after: seq<Sent>, interested: bool, choked: bool, messages: seq<Message>,
                        rest: seq<Message>, index: nat, s: Segment)
  {
    exists rounds: nat ::
      && rounds <= |messages| + 1 && (rounds + |rest| == |messages| || (rest == [] && rounds == |messages| + 1))
      && AskedFor(before, after, interested, choked, messages, rounds, index, s.begin, s.len)
  }

  lemma BatchStep(sent: seq<Sent>, index: nat, begin: nat, end: nat, off: nat)
    requires off < end && off == begin + |sent| * BLOCK && begin <= end
    requires forall k :: 0 <= k < |sent| ==>
               && sent[k].RequestBlock? && sent[k].index == index
               && sent[k].begin == begin + k * BLOCK && sent[k].len == Min(BLOCK, end - begin - k * BLOCK)
    ensures end - off < BLOCK ==> |sent| + 1 == DivCeil(end - begin, BLOCK)
    ensures end - off == BLOCK ==> |sent| + 1 == DivCeil(end - begin, BLOCK)
  {
    var n, length := |sent| + 1, end - begin;
    if end - off <= BLOCK {
      CeilIs(length, BLOCK, n);
    }
  }

  class Peer {
    var choked: bool
    var interestedSent: bool
    /** The messages that arrive before the deadline, oldest first. */
    var inbox: seq<Message>
    var outbox: seq<Sent>

    constructor (messages: seq<Message>)
      ensures choked && !interestedSent && inbox == messages && outbox == []
    {
      choked, interestedSent, inbox, outbox := true, false, messages, [];
    }

    /** Take one message; the choke state follows it. */
    method ReadMessage() returns (m: Message)
      requires inbox != []
      modifies this`inbox, this`choked
      ensures m == old(inbox)[0] && inbox == old(inbox)[1..]
      ensures choked == if m.Choke? then true else if m.Unchoke? then false else old(choked)
    {
      m := inbox[0];
      inbox := inbox[1..];
      choked := if m.Choke? then true else if m.Unchoke? then false else choked;
    }

    /** Pipeline every block of the range at once. */
    method RequestAll(index: nat, begin: nat, end: nat) returns (ghost batch: seq<Sent>)
      requires begin <= end
      modifies this`outbox
      ensures outbox == old(outbox) + batch && IsBatch(batch, index, begin, end - begin)
    {
      var off := begin;
      batch := [];
      while off < end
        invariant begin <= off <= end && outbox == old(outbox) + batch
        invariant off == begin + |batch| * BLOCK || (off == end && |batch| == DivCeil(end - begin, BLOCK))
        invariant off == end ==> |batch| == DivCeil(end - begin, BLOCK)
        invariant forall k :: 0 <= k < |batch| ==>
                    && batch[k].RequestBlock? && batch[k].index == index
                    && batch[k].begin == begin + k * BLOCK && batch[k].len == Min(BLOCK, end - begin - k * BLOCK)
        decreases end - off
      {
        var len := Min(end - off, BLOCK);
        BatchStep(batch, index, begin, end, off);
        outbox := outbox + [RequestBlock(index, off, len)];
        batch := batch + [RequestBlock(index, off, len)];
        off := off + len;
      }
    }

    /** Copy a block of the range into the buffer, if it fits, and mark it present; `done` when nothing is missing then. */
    static method TakeBlock(buf: seq<byte>, have: seq<bool>, index: nat, begin: nat, m: Message)
      returns (b: seq<byte>, h: seq<bool>, done: bool)
      ensures Took(buf, have, index, begin, m, b, h, done)
    {
      b, h, done := buf, have, false;
      if m.PieceBlock? && m.index == index && begin <= m.begin < begin + |buf| {
        var rel := m.begin - begin;
        if rel + |m.block| <= |buf| {
          b := Splice(buf, rel, m.block);
          if rel / BLOCK < |have| {
            h := have[rel / BLOCK := true];
          }
        }
        done := forall k :: 0 <= k < |h| ==> h[k];
      }
    }

    /**
     * Bytes `begin .. begin + length` of piece `index`. From a truthful peer they come exactly when every block of the
     * range arrives, whatever the order, the duplicates and the choking, and they are the piece's bytes. Each round asks
     * for all blocks when it finds us newly unchoked; a fetch that gives up has gone round once more than messages came.
     */
    method FetchRange(index: nat, begin: nat, length: nat, ghost piece: seq<byte>)
      returns (r: Option<seq<byte>>, ghost rounds: nat)
      modifies this
      ensures r.Some? ==> |r.value| == length
      ensures Truthful(old(inbox), index, piece) && BlockRange(begin, length, |piece|) ==>
                && (r.Some? ==> RightBytes(r.value, Segment(begin, length), piece))
                && (r.Some? <==> Delivers(old(inbox), index, Segment(begin, length)))
      ensures interestedSent && |inbox| <= |old(inbox)| && inbox == old(inbox)[|old(inbox)| - |inbox|..]
      ensures rounds == |old(inbox)| - |inbox| + (if r.None? then 1 else 0) && (r.None? ==> inbox == [])
      ensures AskedFor(old(outbox), outbox, old(interestedSent), old(choked), old(inbox), rounds, index, begin, length)
    {
      hide Truthful, BlockRange, DivCeil, Delivers, RightBytes, IsBatch, AskedFor, Repeat, Sending, Took, Receiving;
      ghost var was, choked0, all := outbox, choked, inbox;
      if !interestedSent {
        outbox := outbox + [Interested];
        interestedSent := true;
      }
      ghost var start := outbox;
      var buf: seq<byte> := seq(length, _ => 0);
      var have: seq<bool> := seq(DivCeil(length, BLOCK), _ => false);
      var requested := false;
      ghost var i := 0;
      ghost var asked := 0;
      ghost var batch := SomeBatch(index, begin, length);
      NoRepeat(start, batch);
      SendingStarts(choked0, all);
      ReceivingStarts(all, index, buf, have, begin, length, piece);
      while true
        invariant 0 <= i <= |all| && inbox == all[i..] && |buf| == length
        invariant Receiving(all, i, index, buf, have, begin, length, piece)
        invariant interestedSent && Sending(choked0, all, i, choked, requested, asked)
        invariant IsBatch(batch, index, begin, length) && outbox == start + Repeat(batch, asked)
        decreases |inbox|
      {
        RoundBegins(choked0, all, i, choked, requested, asked);
        if !choked && !requested {
          ghost var sent := RequestAll(index, begin, begin + length);
          BatchUnique(sent, batch, index, begin, length);
          OnceMore(start, batch, asked);
          asked := asked + 1;
          requested := true;
        }
        if inbox == [] {
          assert i == |all| && asked == |AskingRounds(choked0, all, i + 1)|;
          break;
        }
        var m := ReadMessage();
        RoundEnds(choked0, all, i, choked, requested && !m.Choke?, asked);
        i := i + 1;
        if m.Choke? {
          requested := false;
          ReceivingChoke(all, i - 1, index, buf, have, begin, length, piece);
        } else {
          var done;
          ghost var buf0, have0 := buf, have;
          buf, have, done := TakeBlock(buf, have, index, begin, m);
          ReceivingTook(all, i - 1, index, buf0, have0, buf, have, done, begin, length, piece);
          if done {
            SentSoFar(choked0, all, i, choked, requested, asked);
            AskedBatches(was, start, outbox, old(interestedSent), choked0, all, i, index, begin, length, batch);
            return Some(buf), i;
          }
        }
      }
      ReceivingEnds(all, index, buf, have, begin, length, piece);
      AskedBatches(was, start, outbox, old(interestedSent), choked0, all, i + 1, index, begin, length, batch);
      return None, i + 1;
    }
  }

  /** After `i` messages of a truthful peer the buffer and the marks are what they should be, and something is missing. */
  ghost predicate Receiving(all: seq<Message>, i: nat, index: nat, buf: seq<byte>, have: seq<bool>, begin: nat, length: nat, piece: seq<byte>)
  {
    && i <= |all| && |buf| == length && |have| == DivCeil(length, BLOCK)
    && (Truthful(all, index, piece) && BlockRange(begin, length, |piece|) ==>
          OnTrack(all[..i], index, buf, have, begin, length, piece) && exists k :: 0 <= k < |have| && !have[k])
  }

  lemma ReceivingStarts(all: seq<Message>, index: nat, buf: seq<byte>, have: seq<bool>, begin: nat, length: nat, piece: seq<byte>)
    requires |buf| == length && |have| == DivCeil(length, BLOCK) && forall k :: 0 <= k < |have| ==> !have[k]
    ensures Receiving(all, 0, index, buf, have, begin, length, piece)
  {
    hide Truthful, BlockRange, OnTrack, DivCeil;
    assert all[..0] == [];
    if BlockRange(begin, length, |piece|) {
      NothingYet(buf, have, begin, length, piece, index);
    }
  }

  lemma ReceivingChoke(all: seq<Message>, i: nat, index: nat, buf: seq<byte>, have: seq<bool>, begin: nat, length: nat, piece: seq<byte>)
    requires i < |all| && all[i].Choke? && Receiving(all, i, index, buf, have, begin, length, piece)
    ensures Receiving(all, i + 1, index, buf, have, begin, length, piece)
  {
    hide Truthful, BlockRange, OnTrack, DivCeil;
    if Truthful(all, index, piece) && BlockRange(begin, length, |piece|) {
      SkippedChoke(all, i, buf, have, begin, length, piece, index);
    }
  }

  lemma ReceivingTook(all: seq<Message>, i: nat, index: nat, buf: seq<byte>, have: seq<bool>, b: seq<byte>, h: seq<bool>, done: bool,
                      begin: nat, length: nat, piece: seq<byte>)
    requires i < |all| && Receiving(all, i, index, buf, have, begin, length, piece) && Took(buf, have, index, begin, all[i], b, h, done)
    ensures |b| == length
    ensures !done ==> Receiving(all, i + 1, index, b, h, begin, length, piece)
    ensures done && Truthful(all, index, piece) && BlockRange(begin, length, |piece|) ==>
              RightBytes(b, Segment(begin, length), piece) && Delivers(all, index, Segment(begin, length))
  {
    hide Truthful, BlockRange, OnTrack, DivCeil, Took, RightBytes, Delivers;
    TookSizes(buf, have, index, begin, all[i], b, h, done);
    if Truthful(all, index, piece) && BlockRange(begin, length, |piece|) {
      OneMessage(all, i, buf, have, b, h, done, begin, length, piece, index);
    }
  }

  lemma ReceivingEnds(all: seq<Message>, index: nat, buf: seq<byte>, have: seq<bool>, begin: nat, length: nat, piece: seq<byte>)
    requires Receiving(all, |all|, index, buf, have, begin, length, piece)
    ensures Truthful(all, index, piece) && BlockRange(begin, length, |piece|) ==> !Delivers(all, index, Segment(begin, length))
  {
    hide Truthful, BlockRange, OnTrack, DivCeil, Delivers;
    assert all[..|all|] == all;
    if Truthful(all, index, piece) && BlockRange(begin, length, |piece|) {
      NotDelivered(all, buf, have, begin, length, piece, index);
    }
  }

  /** Where a fetch stands before round `i`: choked or not, a batch outstanding or not, so many batches sent. */
  ghost predicate Sending(choked0: bool, all: seq<Message>, i: nat, choked: bool, requested: bool, asked: nat)
  {
    && i <= |all| && choked == ChokedAt(choked0, all, i)
    && (requested <==> i > 0 && !ChokedAt(choked0, all, i - 1) && !choked)
    && asked == |AskingRounds(choked0, all, i)|
  }

  lemma SentSoFar(choked0: bool, all: seq<Message>, i: nat, choked: bool, requested: bool, asked: nat)
    requires Sending(choked0, all, i, choked, requested, asked)
    ensures i <= |all| && asked == |AskingRounds(choked0, all, i)|
  {
    hide ChokedAt, AskingRounds;
  }

  lemma SendingStarts(choked: bool, all: seq<Message>)
    ensures Sending(choked, all, 0, choked, false, 0)
  {
    hide AsksAt;
    NoRounds(choked, all);
  }

  lemma RoundBegins(choked0: bool, all: seq<Message>, i: nat, choked: bool, requested: bool, asked: nat)
    requires Sending(choked0, all, i, choked, requested, asked)
    ensures i <= |all| && choked == ChokedAt(choked0, all, i) && asked == |AskingRounds(choked0, all, i)|
    ensures |AskingRounds(choked0, all, i + 1)| == if !choked && !requested then asked + 1 else asked
    ensures requested ==> !choked
  {
    hide ChokedAt, AskingRounds;
    RoundsStep(choked0, all, i);
  }

  lemma RoundEnds(choked0: bool, all: seq<Message>, i: nat, choked: bool, requested: bool, asked: nat)
    requires i < |all| && asked == |AskingRounds(choked0, all, i + 1)|
    requires choked == if all[i].Choke? then true else if all[i].Unchoke? then false else ChokedAt(choked0, all, i)
    requires requested <==> !ChokedAt(choked0, all, i) && !all[i].Choke?
    ensures Sending(choked0, all, i + 1, choked, requested, asked)
  {
    hide ChokedAt, AskingRounds;
    ChokedStep(choked0, all, i);
  }

  lemma NoRepeat(start: seq<Sent>, batch: seq<Sent>)
    ensures start + Repeat(batch, 0) == start
  {
  }

  lemma OnceMore(start: seq<Sent>, batch: seq<Sent>, n: nat)
    ensures start + Repeat(batch, n) + batch == start + Repeat(batch, n + 1)
  {
  }

  lemma AskedBatches(before: seq<Sent>, start: seq<Sent>, after: seq<Sent>, interested: bool, choked: bool, messages: seq<Message>,
                     rounds: nat, index: nat, begin: nat, length: nat, batch: seq<Sent>)
    requires rounds <= |messages| + 1 && IsBatch(batch, index, begin, length)
    requires start == (if interested then before else before + [Interested])
    requires after == start + Repeat(batch, |AskingRounds(choked, messages, rounds)|)
    ensures AskedFor(before, after, interested, choked, messages, rounds, index, begin, length)
  {
    hide IsBatch, AskingRounds, Repeat;
    assert before + [] == before;
  }

  lemma NoRounds(choked: bool, messages: seq<Message>)
    ensures AskingRounds(choked, messages, 0) == {} && ChokedAt(choked, messages, 0) == choked
  {
  }

  lemma SomeBatch(index: nat, begin: nat, length: nat) returns (batch: seq<Sent>)
    ensures IsBatch(batch, index, begin, length)
  {
    batch := [];
    var n := DivCeil(length, BLOCK);
    while |batch| < n
      invariant |batch| <= n
      invariant forall k :: 0 <= k < |batch| ==>
                  && batch[k].RequestBlock? && batch[k].index == index
                  && batch[k].begin == begin + k * BLOCK && batch[k].len == Min(BLOCK, length - k * BLOCK)
    {
      batch := batch + [RequestBlock(index, begin + |batch| * BLOCK, Min(BLOCK, length - |batch| * BLOCK))];
    }
  }

  function MarkBlock(have: seq<bool>, k: nat): (r: seq<bool>)
    ensures |r| == |have|
  {
    if k < |have| then have[k := true] else have
  }

  /** After `messages` the buffer and the marks are what they should be. */
  ghost predicate OnTrack(messages: seq<Message>, index: nat, buf: seq<byte>, have: seq<bool>, begin: nat, length: nat, piece: seq<byte>)
  {
    begin + length <= |piece| && Filled(buf, have, begin, length, piece) && Tracks(have, messages, index, begin)
  }

  lemma NothingYet(buf: seq<byte>, have: seq<bool>, begin: nat, length: nat, piece: seq<byte>, index: nat)
    requires BlockRange(begin, length, |piece|) && |buf| == length && |have| == DivCeil(length, BLOCK)
    requires forall k :: 0 <= k < |have| ==> !have[k]
    ensures OnTrack([], index, buf, have, begin, length, piece)
    ensures |have| > 0 && !have[0]
  {
    CeilBounds(length, BLOCK);
  }

  /** What a message does to the buffer and the marks. */
  ghost predicate Took(buf: seq<byte>, have: seq<bool>, index: nat, begin: nat, m: Message, b: seq<byte>, h: seq<bool>, done: bool)
  {
    if m.PieceBlock? && m.index == index && begin <= m.begin < begin + |buf| then
      var rel := m.begin - begin;
      && (if rel + |m.block| <= |buf| then b == Splice(buf, rel, m.block) && h == MarkBlock(have, rel / BLOCK) else b == buf && h == have)
      && (done <==> forall k :: 0 <= k < |h| ==> h[k])
    else b == buf && h == have && !done
  }

  lemma TookSizes(buf: seq<byte>, have: seq<bool>, index: nat, begin: nat, m: Message, b: seq<byte>, h: seq<bool>, done: bool)
    requires Took(buf, have, index, begin, m, b, h, done)
    ensures |b| == |buf| && |h| == |have|
  {
  }

  /** Nothing but blocks counts. */
  lemma SkippedChoke(all: seq<Message>, i: nat, buf: seq<byte>, have: seq<bool>, begin: nat, length: nat, piece: seq<byte>, index: nat)
    requires i < |all| && OnTrack(all[..i], index, buf, have, begin, length, piece)
    ensures all[i].Choke? ==> OnTrack(all[..i + 1], index, buf, have, begin, length, piece)
  {
    hide Filled, Tracks;
    assert all[..i + 1] == all[..i] + [all[i]];
    if all[i].Choke? {
      TrackSkip(have, all[..i], index, begin, all[i]);
    }
  }

  /** What one message of a truthful peer does. */
  lemma OneMessage(all: seq<Message>, i: nat, buf: seq<byte>, have: seq<bool>, b: seq<byte>, h: seq<bool>, done: bool,
                   begin: nat, length: nat, piece: seq<byte>, index: nat)
    requires i < |all| && Truthful(all, index, piece) && BlockRange(begin, length, |piece|)
    requires OnTrack(all[..i], index, buf, have, begin, length, piece) && Took(buf, have, index, begin, all[i], b, h, done)
    requires exists k :: 0 <= k < |have| && !have[k]
    ensures OnTrack(all[..i + 1], index, b, h, begin, length, piece)
    ensures if done then RightBytes(b, Segment(begin, length), piece) && Delivers(all, index, Segment(begin, length))
            else exists k :: 0 <= k < |h| && !h[k]
  {
    hide TruthfulBlock, BlockRange, Filled, Tracks, Splice, RightBytes, Delivers, DivCeil;
    var m := all[i];
    assert all[..i + 1] == all[..i] + [m];
    FilledSize(buf, have, begin, length, piece);
    if m.PieceBlock? && m.index == index && begin <= m.begin < begin + length {
      FillStep(buf, have, begin, length, piece, m);
      BlockFits(m, begin, length, piece);
      TrackStep(have, all[..i], index, begin, m, (m.begin - begin) / BLOCK);
      if done {
        Completed(all, i + 1, b, h, begin, length, piece, index);
      }
    } else {
      if m.PieceBlock? && m.index == index {
        OutsideBlock(m, begin, length, piece);
      }
      TrackSkip(have, all[..i], index, begin, m);
    }
  }

  lemma Completed(all: seq<Message>, i: nat, buf: seq<byte>, have: seq<bool>, begin: nat, length: nat, piece: seq<byte>, index: nat)
    requires i <= |all| && OnTrack(all[..i], index, buf, have, begin, length, piece)
    requires forall k :: 0 <= k < |have| ==> have[k]
    ensures RightBytes(buf, Segment(begin, length), piece) && Delivers(all, index, Segment(begin, length))
  {
    hide Arrived, Tracks;
    AllFilled(buf, have, begin, length, piece);
    AllArrived(have, all[..i], all, index, begin);
  }

  lemma NotDelivered(all: seq<Message>, buf: seq<byte>, have: seq<bool>, begin: nat, length: nat, piece: seq<byte>, index: nat)
    requires OnTrack(all, index, buf, have, begin, length, piece) && exists k :: 0 <= k < |have| && !have[k]
    ensures !Delivers(all, index, Segment(begin, length))
  {
    hide Arrived;
    NotArrived(have, all, index, begin);
    var k :| 0 <= k < |have| && !Arrived(all, index, begin + k * BLOCK);
    assert k < DivCeil(length, BLOCK);
  }

  lemma FilledSize(buf: seq<byte>, have: seq<bool>, begin: nat, length: nat, piece: seq<byte>)
    requires begin + length <= |piece| && Filled(buf, have, begin, length, piece)
    ensures |have| == DivCeil(length, BLOCK) && |buf| == length
  {
  }

  /** A block of the piece that starts outside the range is none of its blocks. */
  lemma OutsideBlock(m: Message, begin: nat, length: nat, piece: seq<byte>)
    requires m.PieceBlock? && TruthfulBlock(m, piece) && BlockRange(begin, length, |piece|)
    requires !(begin <= m.begin < begin + length)
    ensures m.begin < begin || begin + DivCeil(length, BLOCK) * BLOCK <= m.begin
  {
    Division(length, BLOCK);
  }

  lemma AllArrived(have: seq<bool>, messages: seq<Message>, all: seq<Message>, index: nat, begin: nat)
    requires Tracks(have, messages, index, begin) && messages <= all && forall k :: 0 <= k < |have| ==> have[k]
    ensures forall k :: 0 <= k < |have| ==> Arrived(all, index, begin + k * BLOCK)
  {
    forall k | 0 <= k < |have|
      ensures Arrived(all, index, begin + k * BLOCK)
    {
      assert have[k];
      assert Arrived(messages, index, begin + k * BLOCK);
      var i :| 0 <= i < |messages| && messages[i].PieceBlock? && messages[i].index == index &&
        messages[i].begin == begin + k * BLOCK;
      assert all[i] == messages[i];
    }
  }

  lemma NotArrived(have: seq<bool>, messages: seq<Message>, index: nat, begin: nat)
    requires Tracks(have, messages, index, begin) && exists k :: 0 <= k < |have| && !have[k]
    ensures exists k :: 0 <= k < |have| && !Arrived(messages, index, begin + k * BLOCK)
  {
    hide Arrived;
  }

  // ---- all peers at once ----

  lemma {:induction false} SegmentsOrdered(segments: seq<Segment>, upTo: nat, i: nat, j: nat)
    requires TilesPiece(segments, upTo) && i < j < |segments|
    ensures segments[i].begin + segments[i].len <= segments[j].begin
    decreases j
  {
    if i < j - 1 {
      SegmentsOrdered(segments, upTo, i, j - 1);
    }
  }

  /** Every byte is in a segment. */
  lemma {:induction false} SegmentOf(segments: seq<Segment>, upTo: nat, x: nat) returns (k: nat)
    requires TilesPiece(segments, upTo) && x < upTo
    ensures k < |segments| && segments[k].begin <= x < segments[k].begin + segments[k].len
  {
    k := |segments| - 1;
    while x < segments[k].begin
      invariant 0 <= k < |segments| && x < segments[k].begin + segments[k].len
    {
      k := k - 1;
    }
  }

  /** A segment is a range its peer can be asked for. */
  lemma SegmentRange(segments: seq<Segment>, upTo: nat, k: nat)
    requires TilesPiece(segments, upTo) && k < |segments|
    ensures BlockRange(segments[k].begin, segments[k].len, upTo)
  {
    var s := segments[k];
    if k + 1 < |segments| {
      var t := segments[k + 1];
      SegmentsOrdered(segments, upTo, k, k + 1);
      if k + 1 < |segments| - 1 { SegmentsOrdered(segments, upTo, k + 1, |segments| - 1); }
      Division(s.begin, BLOCK);
      Division(t.begin, BLOCK);
      assert s.len == BLOCK * (t.begin / BLOCK - s.begin / BLOCK);
      QuotientIs(s.len, BLOCK, t.begin / BLOCK - s.begin / BLOCK);
    }
  }

  /** Segment `k` of the buffer is the piece's. */
  ghost predicate SegmentRight(buf: seq<byte>, s: Segment, piece: seq<byte>)
  {
    s.begin + s.len <= |buf| == |piece| && buf[s.begin..s.begin + s.len] == piece[s.begin..s.begin + s.len]
  }

  lemma SegmentInside(segments: seq<Segment>, upTo: nat, k: nat)
    requires TilesPiece(segments, upTo) && k < |segments|
    ensures segments[k].begin + segments[k].len <= upTo
  {
    if k < |segments| - 1 {
      SegmentsOrdered(segments, upTo, k, |segments| - 1);
    }
  }

  /** Copying one segment in leaves the others as they are. */
  lemma CopySegment(segments: seq<Segment>, buf: seq<byte>, piece: seq<byte>, k: nat, bytes: seq<byte>)
    requires TilesPiece(segments, |piece|) && |buf| == |piece| && k < |segments| && |bytes| == segments[k].len
    ensures segments[k].begin + |bytes| <= |buf|
    ensures bytes == piece[segments[k].begin..segments[k].begin + segments[k].len] ==>
              SegmentRight(Splice(buf, segments[k].begin, bytes), segments[k], piece)
    ensures forall j :: 0 <= j < |segments| && j != k && SegmentRight(buf, segments[j], piece) ==>
              SegmentRight(Splice(buf, segments[k].begin, bytes), segments[j], piece)
  {
    hide TilesPiece, Splice, SegmentRight;
    SegmentInside(segments, |piece|, k);
    SplicedIn(buf, segments[k].begin, bytes, segments[k], piece);
    forall j | 0 <= j < |segments| && j != k && SegmentRight(buf, segments[j], piece)
      ensures SegmentRight(Splice(buf, segments[k].begin, bytes), segments[j], piece)
    {
      if j < k { SegmentsOrdered(segments, |piece|, j, k); } else { SegmentsOrdered(segments, |piece|, k, j); }
      Untouched(buf, segments[k].begin, bytes, segments[j], piece);
    }
  }

  lemma SplicedIn(buf: seq<byte>, at: nat, bytes: seq<byte>, s: Segment, piece: seq<byte>)
    requires s.begin == at && s.len == |bytes| && at + |bytes| <= |buf| == |piece|
    ensures bytes == piece[at..at + |bytes|] ==> SegmentRight(Splice(buf, at, bytes), s, piece)
  {
    assert Splice(buf, at, bytes)[at..at + |bytes|] == bytes;
  }

  lemma Untouched(buf: seq<byte>, at: nat, bytes: seq<byte>, s: Segment, piece: seq<byte>)
    requires at + |bytes| <= |buf| && SegmentRight(buf, s, piece) && (s.begin + s.len <= at || at + |bytes| <= s.begin)
    ensures SegmentRight(Splice(buf, at, bytes), s, piece)
  {
    var next := Splice(buf, at, bytes);
    forall x | s.begin <= x < s.begin + s.len
      ensures next[x] == buf[x]
    {
      SpliceAt(buf, at, bytes, x);
    }
    assert next[s.begin..s.begin + s.len] == buf[s.begin..s.begin + s.len];
  }

  lemma AllRight(segments: seq<Segment>, buf: seq<byte>, piece: seq<byte>)
    requires TilesPiece(segments, |piece|) && |buf| == |piece|
    requires forall k :: 0 <= k < |segments| ==> SegmentRight(buf, segments[k], piece)
    ensures buf == piece
  {
    forall x | 0 <= x < |piece|
      ensures buf[x] == piece[x]
    {
      var k := SegmentOf(segments, |piece|, x);
      var s := segments[k];
      assert SegmentRight(buf, s, piece);
      assert buf[x] == buf[s.begin..s.begin + s.len][x - s.begin];
      assert piece[x] == piece[s.begin..s.begin + s.len][x - s.begin];
    }
  }

  /** One task per segment, each on a peer of its own. */
  method RunTasks(peers: seq<Peer>, index: nat, segments: seq<Segment>, ghost piece: seq<byte>)
    returns (results: seq<Option<seq<byte>>>)
    requires |segments| <= |peers| && forall i, j :: 0 <= i < j < |peers| ==> peers[i] != peers[j]
    requires TilesPiece(segments, |piece|)
    modifies peers
    ensures |results| == |segments|
    ensures forall k :: 0 <= k < |results| && results[k].Some? ==> |results[k].value| == segments[k].len
    ensures forall k :: 0 <= k < |results| ==>
              Asked(old(peers[k].outbox), peers[k].outbox, old(peers[k].interestedSent), old(peers[k].choked),
                    old(peers[k].inbox), peers[k].inbox, index, segments[k])
    ensures forall k :: |results| <= k < |peers| ==> peers[k].outbox == old(peers[k].outbox) && peers[k].inbox == old(peers[k].inbox)
    ensures forall k :: 0 <= k < |results| && Truthful(old(peers[k].inbox), index, piece) ==>
              && (results[k].Some? <==> Delivers(old(peers[k].inbox), index, segments[k]))
              && (results[k].Some? ==> RightBytes(results[k].value, segments[k], piece))
  {
    hide TilesPiece, Truthful, BlockRange, DivCeil, Arrived, AskedFor, Asked;
    results := [];
    for k := 0 to |segments|
      invariant |results| == k
      invariant forall j :: k <= j < |peers| ==>
                  && peers[j].inbox == old(peers[j].inbox) && peers[j].outbox == old(peers[j].outbox)
                  && peers[j].interestedSent == old(peers[j].interestedSent) && peers[j].choked == old(peers[j].choked)
      invariant forall j :: 0 <= j < k ==>
                  Asked(old(peers[j].outbox), peers[j].outbox, old(peers[j].interestedSent), old(peers[j].choked),
                        old(peers[j].inbox), peers[j].inbox, index, segments[j])
      invariant forall j :: 0 <= j < k && results[j].Some? ==> |results[j].value| == segments[j].len
      invariant forall j :: 0 <= j < k && Truthful(old(peers[j].inbox), index, piece) ==>
                  && (results[j].Some? <==> Delivers(old(peers[j].inbox), index, segments[j]))
                  && (results[j].Some? ==> RightBytes(results[j].value, segments[j], piece))
    {
      SegmentRange(segments, |piece|, k);
      SegmentInside(segments, |piece|, k);
      ghost var was := peers[k].outbox;
      var r, rounds := peers[k].FetchRange(index, segments[k].begin, segments[k].len, piece);
      AskedIn(was, peers[k].outbox, old(peers[k].interestedSent), old(peers[k].choked), old(peers[k].inbox), peers[k].inbox,
              rounds, index, segments[k]);
      results := results + [r];
    }
  }

  lemma AskedIn(before: seq<Sent>, after: seq<Sent>, interested: bool, choked: bool, messages: seq<Message>,
                rest: seq<Message>, rounds: nat, index: nat, s: Segment)
    requires rounds <= |messages| + 1 && (rounds + |rest| == |messages| || (rest == [] && rounds == |messages| + 1))
    requires AskedFor(before, after, interested, choked, messages, rounds, index, s.begin, s.len)
    ensures Asked(before, after, interested, choked, messages, rest, index, s)
  {
  }

  /** The segments of finished tasks are in the buffer. */
  ghost predicate InPlace(segments: seq<Segment>, results: seq<Option<seq<byte>>>, pending: set<nat>, buf: seq<byte>, piece: seq<byte>)
    requires |segments| == |results|
  {
    forall k :: 0 <= k < |results| && k !in pending && results[k].Some? ==> SegmentRight(buf, segments[k], piece)
  }

  lemma NoneInPlace(segments: seq<Segment>, results: seq<Option<seq<byte>>>, pending: set<nat>, buf: seq<byte>, piece: seq<byte>)
    requires |segments| == |results| && forall k :: 0 <= k < |results| ==> k in pending
    ensures InPlace(segments, results, pending, buf, piece)
  {
  }

  lemma PutInPlace(segments: seq<Segment>, results: seq<Option<seq<byte>>>, pending: set<nat>, k: nat, buf: seq<byte>, piece: seq<byte>)
    requires TilesPiece(segments, |piece|) && |segments| == |results| && |buf| == |piece| && k < |results|
    requires results[k].Some? && |results[k].value| == segments[k].len && RightBytes(results[k].value, segments[k], piece)
    requires InPlace(segments, results, pending + {k}, buf, piece)
    ensures segments[k].begin + |results[k].value| <= |buf|
    ensures InPlace(segments, results, pending, Splice(buf, segments[k].begin, results[k].value), piece)
  {
    hide TilesPiece, SegmentRight, Splice;
    CopySegment(segments, buf, piece, k, results[k].value);
  }

  lemma NothingToPlace(segments: seq<Segment>, results: seq<Option<seq<byte>>>, pending: set<nat>, k: nat, buf: seq<byte>, piece: seq<byte>)
    requires |segments| == |results| && k < |results| && results[k].None?
    ensures InPlace(segments, results, pending + {k}, buf, piece) ==> InPlace(segments, results, pending, buf, piece)
  {
    hide SegmentRight;
  }

  lemma AllInPlace(segments: seq<Segment>, results: seq<Option<seq<byte>>>, buf: seq<byte>, piece: seq<byte>)
    requires TilesPiece(segments, |piece|) && |segments| == |results| && |buf| == |piece|
    requires InPlace(segments, results, {}, buf, piece) && forall k :: 0 <= k < |results| ==> results[k].Some?
    ensures buf == piece
  {
    hide TilesPiece, SegmentRight;
    AllRight(segments, buf, piece);
  }

  /**
   * Assemble the piece as tasks finish, in any order. What the order is makes no difference: the piece comes out
   * exactly when every segment was fetched, and the peers that failed are dropped.
   */
  method Assemble(peers: seq<Peer>, segments: seq<Segment>, results: seq<Option<seq<byte>>>, pieceLen: nat, ghost piece: seq<byte>)
    returns (r: Option<seq<byte>>, live: seq<Peer>)
    requires |piece| == pieceLen
    requires |segments| == |results| <= |peers| && TilesPiece(segments, |piece|)
    requires forall k :: 0 <= k < |results| && results[k].Some? ==> |results[k].value| == segments[k].len
    ensures r.Some? <==> forall k :: 0 <= k < |results| ==> results[k].Some?
    ensures (forall k :: 0 <= k < |results| && results[k].Some? ==> RightBytes(results[k].value, segments[k], piece)) ==>
              (r.Some? ==> r.value == piece)
    ensures forall p :: p in live <==> p in peers && !(exists k :: 0 <= k < |results| && results[k].None? && peers[k] == p)
    ensures exists at :: IsKept(peers, live, at)
  {
    hide TilesPiece, SegmentRight, Splice, InPlace, RightBytes;
    var buf: seq<byte> := seq(pieceLen, _ => 0);
    var ok := true;
    var dead: set<Peer> := {};
    var pending := Tasks(|segments|);
    NoneInPlace(segments, results, pending, buf, piece);
    ghost var right := forall k :: 0 <= k < |results| && results[k].Some? ==> RightBytes(results[k].value, segments[k], piece);
    while pending != {}
      invariant forall k :: k in pending ==> 0 <= k < |segments|
      invariant |buf| == |piece|
      invariant ok <==> forall k :: 0 <= k < |results| && k !in pending ==> results[k].Some?
      invariant forall p :: p in dead <==> exists k :: 0 <= k < |results| && k !in pending && results[k].None? && peers[k] == p
      invariant right ==> InPlace(segments, results, pending, buf, piece)
      decreases |pending|
    {
      var k :| k in pending;
      assert pending - {k} + {k} == pending;
      pending := pending - {k};
      if results[k].Some? {
        if right {
          PutInPlace(segments, results, pending, k, buf, piece);
        }
        SegmentInside(segments, |piece|, k);
        buf := Splice(buf, segments[k].begin, results[k].value);
      } else {
        NothingToPlace(segments, results, pending, k, buf, piece);
        dead := dead + {peers[k]};
        ok := false;
      }
    }
    ghost var at;
    live, at := DropDead(peers, dead);
    if !ok {
      return None, live;
    }
    if right {
      AllInPlace(segments, results, buf, piece);
    }
    return Some(buf), live;
  }

  function Tasks(n: nat): (r: set<nat>)
    ensures forall k :: k in r <==> 0 <= k < n
  {
    if n == 0 then {} else Tasks(n - 1) + {n - 1}
  }

  /** Drop the dead, keeping the order of the others. */
  method DropDead(peers: seq<Peer>, dead: set<Peer>) returns (live: seq<Peer>, ghost at: seq<nat>)
    ensures IsKept(peers, live, at) && forall i :: 0 <= i < |peers| ==> (i in at <==> peers[i] !in dead)
    ensures forall p :: p in live <==> p in peers && p !in dead
  {
    live, at := [], [];
    for i := 0 to |peers|
      invariant IsKept(peers, live, at) && forall k :: 0 <= k < |at| ==> at[k] < i
      invariant forall k :: 0 <= k < i ==> (k in at <==> peers[k] !in dead)
      invariant forall p :: p in live <==> p in peers[..i] && p !in dead
    {
      if peers[i] !in dead {
        live, at := live + [peers[i]], at + [i];
      }
    }
  }

  /** `live` are the peers at the places `at`, in their order. */
  ghost predicate IsKept(peers: seq<Peer>, live: seq<Peer>, at: seq<nat>)
  {
    && |live| == |at|
    && (forall i :: 0 <= i < |at| ==> at[i] < |peers| && live[i] == peers[at[i]])
    && (forall i, j :: 0 <= i < j < |at| ==> at[i] < at[j])
  }

  /**
   * Over all segments together every block of the piece is asked for in exactly one place, whole, or cut to the end of
   * the piece.
   */
  lemma EveryBlockOnce(segments: seq<Segment>, pieceLen: nat, index: nat, batches: seq<seq<Sent>>, b: nat)
    returns (k: nat, i: nat)
    requires TilesPiece(segments, pieceLen) && |batches| == |segments| && b * BLOCK < pieceLen
    requires forall k :: 0 <= k < |segments| ==> IsBatch(batches[k], index, segments[k].begin, segments[k].len)
    ensures k < |batches| && i < |batches[k]|
    ensures batches[k][i] == RequestBlock(index, b * BLOCK, Min(BLOCK, pieceLen - b * BLOCK))
    ensures forall l, j :: (0 <= l < |batches| && 0 <= j < |batches[l]| && batches[l][j].RequestBlock? &&
                            batches[l][j].begin == b * BLOCK) ==> l == k && j == i
  {
    hide TilesPiece, DivCeil, IsBatch;
    var x := b * BLOCK;
    k := SegmentOf(segments, pieceLen, x);
    i := BlockIn(segments, pieceLen, index, batches[k], k, b);
    forall l, j | 0 <= l < |batches| && 0 <= j < |batches[l]| && batches[l][j].RequestBlock? && batches[l][j].begin == x
      ensures l == k && j == i
    {
      BlockPlace(batches[l], index, segments[l].begin, segments[l].len, j);
      BlockPlace(batches[k], index, segments[k].begin, segments[k].len, i);
      if l < k { SegmentsOrdered(segments, pieceLen, l, k); }
      if k < l { SegmentsOrdered(segments, pieceLen, k, l); }
    }
  }

  lemma BlockPlace(batch: seq<Sent>, index: nat, begin: nat, length: nat, i: nat)
    requires IsBatch(batch, index, begin, length) && i < |batch|
    ensures batch[i].RequestBlock? && batch[i].begin == begin + i * BLOCK && begin <= batch[i].begin < begin + length
  {
    if length > 0 {
      CeilBounds(length, BLOCK);
    }
  }

  lemma BlockIn(segments: seq<Segment>, pieceLen: nat, index: nat, batch: seq<Sent>, k: nat, b: nat) returns (i: nat)
    requires TilesPiece(segments, pieceLen) && k < |segments| && b * BLOCK < pieceLen
    requires segments[k].begin <= b * BLOCK < segments[k].begin + segments[k].len
    requires IsBatch(batch, index, segments[k].begin, segments[k].len)
    ensures i < |batch| && batch[i] == RequestBlock(index, b * BLOCK, Min(BLOCK, pieceLen - b * BLOCK))
  {
    var s := segments[k];
    SegmentRange(segments, pieceLen, k);
    Division(s.begin, BLOCK);
    Division(s.len, BLOCK);
    i := b - s.begin / BLOCK;
    CeilBounds(s.len, BLOCK);
    assert s.begin + i * BLOCK == b * BLOCK;
  }

  /** How many peers share a piece. */
  function Parts(peers: nat, pieceLen: nat): (n: nat)
    ensures n >= 1
  {
    Max(Min(Min(peers, MAX_PARALLEL), DivCeil(pieceLen, BLOCK)), 1)
  }

  /** More parts than blocks split a piece as one part a block does. */
  lemma PartsEnough(segments: seq<Segment>, peers: nat, pieceLen: nat)
    requires peers > 0 && pieceLen > 0 && EvenlySplit(segments, pieceLen, Parts(peers, pieceLen))
    ensures EvenlySplit(segments, pieceLen, Min(peers, MAX_PARALLEL))
  {
    var n, m, blocks := Parts(peers, pieceLen), Min(peers, MAX_PARALLEL), DivCeil(pieceLen, BLOCK);
    CeilBounds(pieceLen, BLOCK);
    var seg: nat :| EvenlyBy(segments, pieceLen, n, seg);
    if n < m {
      assert n == blocks;
      Division(seg, BLOCK);
      if seg / BLOCK >= 2 {
        MulMono(BLOCK, seg - BLOCK, n);
        assert false;
      }
      assert seg == BLOCK;
      MulMono(n, m, BLOCK);
      assert EvenlyBy(segments, pieceLen, m, BLOCK);
    }
  }

  /**
   * One attempt at a whole piece. With truthful peers the result is the piece, whatever order the fetches end in, and
   * it comes if and only if every asked peer delivers the blocks of its segment.
   */
  method TryFetchParallel(peers: seq<Peer>, index: nat, pieceLen: nat, ghost piece: seq<byte>)
    returns (r: Option<seq<byte>>, live: seq<Peer>, ghost segments: seq<Segment>)
    requires |piece| == pieceLen && forall i, j :: 0 <= i < j < |peers| ==> peers[i] != peers[j]
    requires SegmentSize(pieceLen, Parts(|peers|, pieceLen)) < U32_RANGE
    modifies peers
    ensures peers == [] ==> r.None? && live == []
    ensures peers != [] ==> TilesPiece(segments, pieceLen) && |segments| <= Min(|peers|, MAX_PARALLEL)
    ensures peers != [] && pieceLen > 0 ==> EvenlySplit(segments, pieceLen, Min(|peers|, MAX_PARALLEL))
    ensures exists at :: IsKept(peers, live, at)
    ensures |segments| <= |peers| && forall k :: 0 <= k < |segments| ==>
              Asked(old(peers[k].outbox), peers[k].outbox, old(peers[k].interestedSent), old(peers[k].choked),
                    old(peers[k].inbox), peers[k].inbox, index, segments[k])
    ensures forall k :: |segments| <= k < |peers| ==> peers[k].outbox == old(peers[k].outbox)
    ensures (forall i :: 0 <= i < |peers| ==> Truthful(old(peers[i].inbox), index, piece)) && peers != [] ==>
              && (r.Some? ==> r.value == piece)
              && (r.Some? <==> forall k :: 0 <= k < |segments| ==> Delivers(old(peers[k].inbox), index, segments[k]))
              && (forall k :: 0 <= k < |segments| && !Delivers(old(peers[k].inbox), index, segments[k]) ==> peers[k] !in live)
  {
    hide TilesPiece, Truthful, Delivers, DivCeil, SegmentSize, RightBytes, Asked, EvenlySplit;
    segments := [];
    if peers == [] {
      assert IsKept(peers, [], []);
      return None, [], [];
    }
    var bounds := SegmentBounds(pieceLen, Parts(|peers|, pieceLen));
    if pieceLen > 0 {
      PartsEnough(bounds, |peers|, pieceLen);
    }
    segments := bounds;
    var results := RunTasks(peers, index, bounds, piece);
    r, live := Assemble(peers, bounds, results, pieceLen, piece);
  }

  /**
   * The segment size of a 32-bit piece length passes 32 bits exactly when a single peer is asked for a piece within a
   * block of 2^32 bytes. It is then 2^32 and wraps to zero, and a loop that cuts segments of no length never ends.
   */
  lemma SegmentWrapsIff(pieceLen: nat, parts: nat)
    requires pieceLen < U32_RANGE
    ensures SegmentSize(pieceLen, parts) >= U32_RANGE <==> parts <= 1 && pieceLen + BLOCK > U32_RANGE
    ensures SegmentSize(pieceLen, parts) <= U32_RANGE
  {
    var blocks, n := DivCeil(pieceLen, BLOCK), Max(parts, 1);
    if pieceLen > 0 {
      CeilBounds(pieceLen, BLOCK);
      CeilBounds(blocks, n);
      var per := DivCeil(blocks, n);
      if n == 1 {
        assert per == blocks;
      } else {
        MulMono(2, n, per - 1);
        assert (per - 1) * n == n * (per - 1);
      }
    }
  }
}
