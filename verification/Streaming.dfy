/** A range server over a cache of verified pieces. */
module Streaming {
  import opened Prelude
  import opened Arithmetic
  import opened RangeHeader
  import opened TorrentLayout

  const MAX_CHUNK: nat := 4194304

  /** Bytes `off .. off + len` of the torrent, or nothing. */
  type Source = (nat, nat) -> Option<seq<byte>>

  /** A source that answers does so with as many bytes as it was asked for. */
  ghost predicate Exact(source: Source)
  {
    forall off: nat, len: nat :: source(off, len).Some? ==> |source(off, len).value| == len
  }

  datatype Reply = Served(start: nat, end: nat, bytes: seq<byte>) | Unsatisfiable | SourceFailed

  datatype Request = Request(header: Option<Text>, source: Source)

  /** The file being streamed, inside the torrent. */
  datatype Streamed = Streamed(layout: Layout, fileStart: nat, fileLen: nat, sha: Sha1)

  ghost predicate ValidFile(f: Streamed)
  {
    Sound(f.layout) && 0 < f.fileLen && f.fileStart + f.fileLen <= Total(f.layout)
  }

  /** Byte `k` of the file, as the verified pieces have it. */
  ghost predicate ByteFrom(f: Streamed, accepted: map<nat, seq<byte>>, k: nat, b: byte)
    requires f.layout.pieceLength > 0
  {
    var g := f.fileStart + k;
    var p := g / f.layout.pieceLength;
    p in accepted && g % f.layout.pieceLength < |accepted[p]| && accepted[p][g % f.layout.pieceLength] == b
  }

  /** Everything accepted has the length and the hash of its piece. */
  ghost predicate Verified(f: Streamed, accepted: map<nat, seq<byte>>)
  {
    forall p :: p in accepted ==>
      p < |f.layout.hashes| && |accepted[p]| == PieceSize(f.layout, p) && f.sha(accepted[p]) == f.layout.hashes[p]
  }

  /** The pieces marked present are the accepted ones, and the file holds their bytes. */
  ghost predicate Holds(f: Streamed, have: seq<bool>, file: seq<byte>, accepted: map<nat, seq<byte>>)
    requires f.layout.pieceLength > 0
  {
    && |have| == |f.layout.hashes| && |file| == f.fileLen
    && (forall p :: 0 <= p < |have| ==> (have[p] <==> p in accepted))
    && (forall k :: 0 <= k < |file| && (f.fileStart + k) / f.layout.pieceLength in accepted ==>
          ByteFrom(f, accepted, k, file[k]))
  }

  /** A reply's window is non-empty, within the limit and the file, and all its bytes come from verified pieces. */
  ghost predicate GoodWindow(f: Streamed, accepted: map<nat, seq<byte>>, reply: Reply)
    requires f.layout.pieceLength > 0
  {
    reply.Served? ==>
      && reply.start <= reply.end < f.fileLen && reply.end - reply.start + 1 <= MAX_CHUNK
      && |reply.bytes| == reply.end - reply.start + 1
      && forall k :: 0 <= k < |reply.bytes| ==> ByteFrom(f, accepted, reply.start + k, reply.bytes[k])
  }

  /** The window a header asks for: its range, or the whole file, cut to the limit. */
  ghost predicate IsWindow(f: Streamed, header: Option<Text>, start: nat, end: nat)
  {
    var range := if header.Some? then ParseRange(header.value, f.fileLen) else None;
    if range.Some? then start == range.value.start && end == Min(range.value.end, start + MAX_CHUNK - 1)
    else start == 0 && end == Min(f.fileLen, MAX_CHUNK) - 1
  }

  ghost predicate AnswersHeader(f: Streamed, header: Option<Text>, reply: Reply)
  {
    && (reply.Unsatisfiable? <==>
          header.Some? && ParseRange(header.value, f.fileLen).None? && StartsWithBytes(Trim(header.value)))
    && (reply.Served? ==> IsWindow(f, header, reply.start, reply.end))
  }

  /** The pieces that hold bytes `start` to `end` of the file. */
  predicate InWindow(f: Streamed, start: nat, end: nat, p: nat)
    requires f.layout.pieceLength > 0
  {
    (f.fileStart + start) / f.layout.pieceLength <= p <= (f.fileStart + end) / f.layout.pieceLength
  }

  /** Only missing pieces of the window were fetched, each from its own place. */
  ghost predicate FetchedFor(f: Streamed, before: map<nat, seq<byte>>, after: map<nat, seq<byte>>, source: Source, start: nat, end: nat)
    requires f.layout.pieceLength > 0
  {
    forall p: nat :: p in after && p !in before ==>
      InWindow(f, start, end, p) && source(f.layout.pieceLength * p, |after[p]|) == Some(after[p])
  }

  /** Some missing piece of the window cannot be had from the source. */
  ghost predicate WindowRefused(f: Streamed, before: map<nat, seq<byte>>, source: Source, start: nat, end: nat)
    requires ValidFile(f)
  {
    exists p: nat :: p < |f.layout.hashes| && InWindow(f, start, end, p) && p !in before && Refused(f, source, p)
  }

  /** Pieces stay as they were accepted. */
  ghost predicate Grew(before: map<nat, seq<byte>>, after: map<nat, seq<byte>>)
  {
    forall q :: q in before ==> q in after && after[q] == before[q]
  }

  /** The source failed piece `p`: no answer, or one with the wrong hash. */
  ghost predicate Refused(f: Streamed, source: Source, p: nat)
    requires ValidFile(f) && p < |f.layout.hashes|
  {
    PieceInside(f.layout, p);
    var answer := source(f.layout.pieceLength * p, PieceSize(f.layout, p));
    answer.None? || f.sha(answer.value) != f.layout.hashes[p]
  }

  /** The part of a piece from `start` on that lies in the file, and where it goes. */
  function Overlap(f: Streamed, start: nat, data: seq<byte>): (r: Option<(nat, seq<byte>)>)
    ensures r.Some? ==> r.value.0 + |r.value.1| <= f.fileLen
  {
    var from, upTo := Max(start, f.fileStart), Min(start + |data|, f.fileStart + f.fileLen);
    if from < upTo then Some((from - f.fileStart, data[from - start..upTo - start])) else None
  }

  // ---- storing one piece ----

  /** What a byte of the file is after a piece went in. */
  lemma SplicedByte(f: Streamed, file: seq<byte>, start: nat, data: seq<byte>, k: nat)
    requires |file| == f.fileLen && k < |file|
    ensures var part := Overlap(f, start, data);
            var next := if part.Some? then Splice(file, part.value.0, part.value.1) else file;
            |next| == |file| &&
            next[k] == if start <= f.fileStart + k < start + |data| then data[f.fileStart + k - start] else file[k]
  {
    hide Splice;
    var part := Overlap(f, start, data);
    if part.Some? {
      SpliceAt(file, part.value.0, part.value.1, k);
    }
  }

  lemma PieceStored(f: Streamed, have: seq<bool>, file: seq<byte>, accepted: map<nat, seq<byte>>, p: nat, data: seq<byte>, next: seq<byte>)
    requires ValidFile(f) && Holds(f, have, file, accepted) && p < |have| && !have[p]
    requires |data| == PieceSize(f.layout, p)
    requires var part := Overlap(f, f.layout.pieceLength * p, data);
             next == if part.Some? then Splice(file, part.value.0, part.value.1) else file
    ensures Holds(f, have[p := true], next, accepted[p := data])
  {
    hide Overlap, Splice, PieceSize, DivCeil, Total, ByteFrom, Sound;
    var n := f.layout.pieceLength;
    var now := accepted[p := data];
    assert n > 0 by { NotEmpty(f); }
    assert |next| == |file|;
    forall k | 0 <= k < |next| && (f.fileStart + k) / n in now
      ensures ByteFrom(f, now, k, next[k])
    {
      SplicedByte(f, file, n * p, data, k);
      assert ByteFrom(f, now, k, next[k]) by { StoredByte(f, accepted, p, data, k, file[k], next[k]); }
    }
  }

  lemma StoredByte(f: Streamed, accepted: map<nat, seq<byte>>, p: nat, data: seq<byte>, k: nat, was: byte, b: byte)
    requires ValidFile(f) && p < |f.layout.hashes| && |data| == PieceSize(f.layout, p) && k < f.fileLen
    requires (f.fileStart + k) / f.layout.pieceLength in accepted[p := data]
    requires (f.fileStart + k) / f.layout.pieceLength in accepted ==> ByteFrom(f, accepted, k, was)
    requires var start := f.layout.pieceLength * p;
             b == if start <= f.fileStart + k < start + |data| then data[f.fileStart + k - start] else was
    ensures ByteFrom(f, accepted[p := data], k, b)
  {
    hide PieceSize, DivCeil, Total;
    var g := f.fileStart + k;
    PieceOfByte(f.layout, g);
    if g / f.layout.pieceLength != p {
      OtherPiece(f.layout, p, g);
    }
  }

  lemma OtherPiece(m: Layout, p: nat, g: nat)
    requires Sound(m) && p < |m.hashes| && g < Total(m) && g / m.pieceLength != p
    ensures !(m.pieceLength * p <= g < m.pieceLength * p + PieceSize(m, p))
  {
    PieceInside(m, p);
    if m.pieceLength * p <= g < m.pieceLength * p + PieceSize(m, p) {
      QuotientIs(g, m.pieceLength, p);
    }
  }

  class PieceStore {
    /** The backing file and the pieces present in it. */
    var file: seq<byte>
    var have: seq<bool>

    constructor (len: nat, pieceCount: nat)
      ensures file == seq(len, _ => 0) && have == seq(pieceCount, _ => false)
    {
      file := seq(len, _ => 0);
      have := seq(pieceCount, _ => false);
    }

    function Has(index: nat): (r: bool)
      reads this
      ensures r <==> index < |have| && have[index]
    {
      index < |have| && have[index]
    }

    method Mark(index: nat)
      modifies this`have
      ensures have == if index < |old(have)| then old(have)[index := true] else old(have)
    {
      if index < |have| {
        have := have[index := true];
      }
    }

    method WriteAt(offset: nat, data: seq<byte>)
      requires offset + |data| <= |file|
      modifies this`file
      ensures file == Splice(old(file), offset, data)
    {
      file := file[..offset] + data + file[offset + |data|..];
    }

    method ReadAt(offset: nat, len: nat) returns (r: seq<byte>)
      ensures r == if offset <= |file| then file[offset..Min(offset + len, |file|)] else []
    {
      var avail := Min(Max(|file| - offset, 0), len);
      if avail == 0 {
        return [];
      }
      return file[offset..offset + avail];
    }
  }

  class Session {
    const streamed: Streamed
    const store: PieceStore
    /** The bytes each present piece was verified with. */
    ghost var accepted: map<nat, seq<byte>>

    ghost predicate Valid()
      reads this, store
    {
      && ValidFile(streamed)
      && Verified(streamed, accepted)
      && Holds(streamed, store.have, store.file, accepted)
    }

    constructor (f: Streamed)
      requires ValidFile(f)
      ensures Valid() && fresh(store) && streamed == f && accepted == map[]
    {
      streamed := f;
      store := new PieceStore(f.fileLen, |f.layout.hashes|);
      accepted := map[];
    }

    /** Have piece `p` in the store: fetched whole, checked against its hash, its part of the file written. */
    method EnsurePiece(p: nat, source: Source) returns (ok: bool)
      requires Valid() && p < |streamed.layout.hashes| && Exact(source)
      modifies this`accepted, store
      ensures Valid() && Grew(old(accepted), accepted)
      ensures ok ==> p in accepted
      ensures p in old(accepted) ==> accepted == old(accepted) && store.file == old(store.file) && store.have == old(store.have)
      ensures p !in old(accepted) && ok ==>
                && accepted == old(accepted)[p := accepted[p]]
                && source(streamed.layout.pieceLength * p, |accepted[p]|) == Some(accepted[p])
      ensures !ok ==> accepted == old(accepted) && p !in accepted && Refused(streamed, source, p)
    {
      hide ValidFile, Verified, Holds, Exact, Splice, Overlap, PieceSize, Sound, Total, DivCeil;
      NotEmpty(streamed);
      HoldsAt(streamed, store.have, store.file, accepted, p);
      if store.Has(p) {
        return true;
      }
      PieceBounds(streamed, p);
      var pieceStart := streamed.layout.pieceLength * p;
      var pieceSize := PieceSize(streamed.layout, p);
      var data := source(pieceStart, pieceSize);
      if data.None? || streamed.sha(data.value) != streamed.layout.hashes[p] {
        return false;
      }
      ExactAt(source, pieceStart, pieceSize);
      ghost var was := store.file;
      var part := Overlap(streamed, pieceStart, data.value);
      if part.Some? {
        store.WriteAt(part.value.0, part.value.1);
      }
      PieceStored(streamed, store.have, was, accepted, p, data.value, store.file);
      store.Mark(p);
      VerifiedMore(streamed, accepted, p, data.value);
      accepted := accepted[p := data.value];
      return true;
    }

    /** Have pieces `p0` to `p1` in the store. */
    method EnsurePieces(p0: nat, p1: nat, source: Source) returns (failed: Option<nat>)
      requires Valid() && p0 <= p1 < |streamed.layout.hashes| && Exact(source)
      modifies this`accepted, store
      ensures Valid() && Grew(old(accepted), accepted)
      ensures failed.None? ==> forall q :: p0 <= q < p1 + 1 ==> q in accepted
      ensures failed.Some? ==> p0 <= failed.value <= p1 && failed.value !in old(accepted) && Refused(streamed, source, failed.value)
      ensures forall q: nat :: q in accepted && q !in old(accepted) ==>
                p0 <= q <= p1 && source(streamed.layout.pieceLength * q, |accepted[q]|) == Some(accepted[q])
    {
      hide ValidFile, Verified, Holds, Exact, Refused;
      for p := p0 to p1 + 1
        invariant Valid() && Grew(old(accepted), accepted)
        invariant forall q :: p0 <= q < p ==> q in accepted
        invariant forall q: nat :: q in accepted && q !in old(accepted) ==>
                    p0 <= q <= p1 && source(streamed.layout.pieceLength * q, |accepted[q]|) == Some(accepted[q])
      {
        var ok := EnsurePiece(p, source);
        if !ok {
          return Some(p);
        }
      }
      return None;
    }

    /** Bytes `start` to `end` of the file. */
    method ServeWindow(start: nat, end: nat, source: Source) returns (r: Reply)
      requires Valid() && Exact(source) && start <= end < streamed.fileLen && end - start < MAX_CHUNK
      modifies this`accepted, store
      ensures Valid() && Grew(old(accepted), accepted)
      ensures GoodWindow(streamed, accepted, r)
      ensures r.SourceFailed? || (r.Served? && r.start == start && r.end == end)
      ensures streamed.layout.pieceLength > 0 && FetchedFor(streamed, old(accepted), accepted, source, start, end)
      ensures r.SourceFailed? <==> WindowRefused(streamed, old(accepted), source, start, end)
    {
      hide ValidFile, Verified, Holds, Exact, Refused, GoodWindow, Grew;
      NotEmpty(streamed);
      var p0 := (streamed.fileStart + start) / streamed.layout.pieceLength;
      var p1 := (streamed.fileStart + end) / streamed.layout.pieceLength;
      WindowPieces(streamed, start, end);
      var failed := EnsurePieces(p0, p1, source);
      if failed.Some? {
        NoWindow(streamed, accepted);
        return SourceFailed;
      }
      HoldsAt(streamed, store.have, store.file, accepted, p1);
      var bytes := store.ReadAt(start, end - start + 1);
      WindowFromPieces(streamed, store.have, store.file, accepted, start, end, bytes);
      r := Served(start, end, bytes);
      NotRefused(streamed, old(accepted), accepted, source, start, end);
    }

    /** Serve one request. */
    method Serve(header: Option<Text>, source: Source) returns (r: Reply)
      requires Valid() && Exact(source)
      modifies this`accepted, store
      ensures Valid() && Grew(old(accepted), accepted)
      ensures GoodWindow(streamed, accepted, r)
      ensures AnswersHeader(streamed, header, r)
      ensures r.Unsatisfiable? ==> accepted == old(accepted) && store.file == old(store.file)
      ensures !r.Unsatisfiable? ==>
                exists start: nat, end: nat ::
                  && IsWindow(streamed, header, start, end)
                  && FetchedFor(streamed, old(accepted), accepted, source, start, end)
                  && (r.SourceFailed? <==> WindowRefused(streamed, old(accepted), source, start, end))
    {
      hide ValidFile, Verified, Holds, Exact, Refused, GoodWindow, Grew, ParseRange, Trim, StartsWithBytes, FetchedFor, WindowRefused;
      NotEmpty(streamed);
      var total := streamed.fileLen;
      var start := 0;
      var reqEnd: Option<nat> := None;
      var parsed := if header.Some? then ParseRange(header.value, total) else None;
      if parsed.Some? {
        start, reqEnd := parsed.value.start, Some(parsed.value.end);
      } else if header.Some? && StartsWithBytes(Trim(header.value)) {
        GrewNothing(accepted);
        NoWindow(streamed, accepted);
        return Unsatisfiable;
      }
      var hardEnd := total - 1;
      var end := Min(Min(if reqEnd.Some? then reqEnd.value else hardEnd, hardEnd), start + MAX_CHUNK - 1);
      assert IsWindow(streamed, header, start, end);
      r := ServeWindow(start, end, source);
    }
  }

  lemma NotEmpty(f: Streamed)
    requires ValidFile(f)
    ensures f.fileLen > 0 && f.layout.pieceLength > 0
  {
  }

  /** A piece that the source delivered was not refused. */
  lemma NotRefused(f: Streamed, before: map<nat, seq<byte>>, after: map<nat, seq<byte>>, source: Source, start: nat, end: nat)
    requires ValidFile(f) && Verified(f, after) && FetchedFor(f, before, after, source, start, end)
    requires forall q: nat :: InWindow(f, start, end, q) ==> q in after
    ensures !WindowRefused(f, before, source, start, end)
  {
    hide PieceSize, Sound, Total, DivCeil, InWindow;
    NotEmpty(f);
    forall p: nat | p < |f.layout.hashes| && InWindow(f, start, end, p) && p !in before
      ensures !Refused(f, source, p)
    {
      PieceBounds(f, p);
    }
  }

  lemma GrewNothing(accepted: map<nat, seq<byte>>)
    ensures Grew(accepted, accepted)
  {
  }

  lemma NoWindow(f: Streamed, accepted: map<nat, seq<byte>>)
    requires f.layout.pieceLength > 0
    ensures GoodWindow(f, accepted, Unsatisfiable) && GoodWindow(f, accepted, SourceFailed)
  {
  }

  lemma WindowPieces(f: Streamed, start: nat, end: nat)
    requires ValidFile(f) && start <= end < f.fileLen
    ensures (f.fileStart + start) / f.layout.pieceLength <= (f.fileStart + end) / f.layout.pieceLength < |f.layout.hashes|
  {
    PieceOfByte(f.layout, f.fileStart + end);
    QuotientMono(f.fileStart + start, f.fileStart + end, f.layout.pieceLength);
  }

  lemma HoldsAt(f: Streamed, have: seq<bool>, file: seq<byte>, accepted: map<nat, seq<byte>>, p: nat)
    requires f.layout.pieceLength > 0 && Holds(f, have, file, accepted) && p < |f.layout.hashes|
    ensures |have| == |f.layout.hashes| && |file| == f.fileLen && (have[p] <==> p in accepted)
  {
  }

  lemma PieceBounds(f: Streamed, p: nat)
    requires ValidFile(f) && p < |f.layout.hashes|
    ensures 0 < PieceSize(f.layout, p)
  {
    PieceInside(f.layout, p);
  }

  lemma ExactAt(source: Source, off: nat, len: nat)
    requires Exact(source) && source(off, len).Some?
    ensures |source(off, len).value| == len
  {
  }

  lemma VerifiedMore(f: Streamed, accepted: map<nat, seq<byte>>, p: nat, data: seq<byte>)
    requires Verified(f, accepted) && p < |f.layout.hashes|
    requires |data| == PieceSize(f.layout, p) && f.sha(data) == f.layout.hashes[p]
    ensures Verified(f, accepted[p := data])
  {
  }

  lemma QuotientMono(a: nat, b: nat, n: nat)
    requires n > 0 && a <= b
    ensures a / n <= b / n
  {
    Division(a, n);
    Division(b, n);
    assert b / n < a / n ==> n * (b / n + 1) <= n * (a / n) by { if b / n < a / n { MulMono(b / n + 1, a / n, n); } }
    assert n * (b / n + 1) == n * (b / n) + n;
  }

  lemma WindowFromPieces(f: Streamed, have: seq<bool>, file: seq<byte>, accepted: map<nat, seq<byte>>, start: nat, end: nat,
                         bytes: seq<byte>)
    requires ValidFile(f) && Holds(f, have, file, accepted) && start <= end < f.fileLen && end - start < MAX_CHUNK
    requires forall q :: (f.fileStart + start) / f.layout.pieceLength <= q < (f.fileStart + end) / f.layout.pieceLength + 1 ==> q in accepted
    requires |file| == f.fileLen && bytes == file[start..end + 1]
    ensures GoodWindow(f, accepted, Served(start, end, bytes))
  {
    var n := f.layout.pieceLength;
    hide ByteFrom;
    forall k | 0 <= k < |bytes|
      ensures ByteFrom(f, accepted, start + k, bytes[k])
    {
      QuotientMono(f.fileStart + start, f.fileStart + start + k, n);
      QuotientMono(f.fileStart + start + k, f.fileStart + end, n);
      assert (f.fileStart + (start + k)) / n in accepted;
      assert bytes[k] == file[start + k];
    }
  }

  /** Later pieces do not change what an earlier reply was made of. */
  lemma StillGood(f: Streamed, before: map<nat, seq<byte>>, after: map<nat, seq<byte>>, r: Reply)
    requires f.layout.pieceLength > 0 && GoodWindow(f, before, r) && Grew(before, after)
    ensures GoodWindow(f, after, r)
  {
    if r.Served? {
      forall k | 0 <= k < |r.bytes|
        ensures ByteFrom(f, after, r.start + k, r.bytes[k])
      {
        assert ByteFrom(f, before, r.start + k, r.bytes[k]);
      }
    }
  }

  /** The accepted bytes of piece `p` and the true ones differ and have one digest. */
  ghost predicate Collides(f: Streamed, accepted: map<nat, seq<byte>>, data: seq<byte>, p: nat)
    requires Sound(f.layout) && |data| == Total(f.layout)
  {
    && p < |f.layout.hashes| && p in accepted
    && accepted[p] != Piece(f.layout, data, p) && f.sha(accepted[p]) == f.sha(Piece(f.layout, data, p))
  }

  lemma PieceByte(m: Layout, data: seq<byte>, g: nat)
    requires Sound(m) && |data| == Total(m) && g < Total(m)
    ensures var p := g / m.pieceLength;
            p < |m.hashes| && g % m.pieceLength < |Piece(m, data, p)| && Piece(m, data, p)[g % m.pieceLength] == data[g]
  {
    hide PieceSize, DivCeil;
    PieceOfByte(m, g);
    PieceInside(m, g / m.pieceLength);
  }

  lemma ByteIsData(f: Streamed, accepted: map<nat, seq<byte>>, data: seq<byte>, k: nat, b: byte)
    requires ValidFile(f) && Hashed(f.layout, data, f.sha) && Verified(f, accepted) && k < f.fileLen
    requires ByteFrom(f, accepted, k, b)
    requires !Collides(f, accepted, data, (f.fileStart + k) / f.layout.pieceLength)
    ensures b == data[f.fileStart + k]
  {
    hide DivCeil, Piece, PieceSize, Total;
    var g := f.fileStart + k;
    PieceByte(f.layout, data, g);
    var p := g / f.layout.pieceLength;
    assert f.sha(accepted[p]) == f.layout.hashes[p] == f.sha(Piece(f.layout, data, p));
  }

  /** The reply is the torrent's bytes, up to a hash collision in a piece of its window. */
  ghost predicate ServedRight(f: Streamed, accepted: map<nat, seq<byte>>, data: seq<byte>, r: Reply)
  {
    && Sound(f.layout) && |data| == Total(f.layout) && r.Served? && r.start <= r.end && f.fileStart + r.end < |data|
    && (r.bytes == data[f.fileStart + r.start..f.fileStart + r.end + 1] ||
        exists p :: (f.fileStart + r.start) / f.layout.pieceLength <= p <= (f.fileStart + r.end) / f.layout.pieceLength &&
          Collides(f, accepted, data, p))
  }

  /**
   * Whatever bytes the torrent's hashes were made from, a served window is exactly those bytes, or one of the pieces
   * it was cut from collides with the true piece.
   */
  lemma WindowIsData(f: Streamed, accepted: map<nat, seq<byte>>, data: seq<byte>, r: Reply)
    requires r.Served? && ValidFile(f) && Hashed(f.layout, data, f.sha) && Verified(f, accepted) && GoodWindow(f, accepted, r)
    ensures ServedRight(f, accepted, data, r)
  {
    hide PieceSize, DivCeil, Verified, Collides, GoodWindow, Piece, Hashed, Total;
    WindowInside(f, accepted, data, r);
    var lo, hi := (f.fileStart + r.start) / f.layout.pieceLength, (f.fileStart + r.end) / f.layout.pieceLength;
    if forall p :: lo <= p <= hi ==> !Collides(f, accepted, data, p) {
      WindowBytes(f, accepted, data, r, lo, hi);
    }
  }

  lemma WindowInside(f: Streamed, accepted: map<nat, seq<byte>>, data: seq<byte>, r: Reply)
    requires r.Served? && ValidFile(f) && Hashed(f.layout, data, f.sha) && GoodWindow(f, accepted, r)
    ensures r.start <= r.end && |r.bytes| == r.end - r.start + 1 && f.fileStart + r.end < |data| == Total(f.layout)
  {
    hide ByteFrom, PieceSize, Total, DivCeil;
  }

  lemma WindowBytes(f: Streamed, accepted: map<nat, seq<byte>>, data: seq<byte>, r: Reply, lo: nat, hi: nat)
    requires r.Served? && ValidFile(f) && Hashed(f.layout, data, f.sha) && Verified(f, accepted) && GoodWindow(f, accepted, r)
    requires lo == (f.fileStart + r.start) / f.layout.pieceLength && hi == (f.fileStart + r.end) / f.layout.pieceLength
    requires forall p :: lo <= p <= hi ==> !Collides(f, accepted, data, p)
    ensures f.fileStart + r.end < |data| && r.start <= r.end
    ensures r.bytes == data[f.fileStart + r.start..f.fileStart + r.end + 1]
  {
    hide Verified, Collides, GoodWindow, Hashed, ValidFile;
    WindowInside(f, accepted, data, r);
    forall k | 0 <= k < |r.bytes|
      ensures r.bytes[k] == data[f.fileStart + r.start + k]
    {
      WindowByte(f, accepted, data, r, lo, hi, k);
    }
  }

  lemma WindowByte(f: Streamed, accepted: map<nat, seq<byte>>, data: seq<byte>, r: Reply, lo: nat, hi: nat, k: nat)
    requires r.Served? && ValidFile(f) && Hashed(f.layout, data, f.sha) && Verified(f, accepted) && GoodWindow(f, accepted, r)
    requires lo == (f.fileStart + r.start) / f.layout.pieceLength && hi == (f.fileStart + r.end) / f.layout.pieceLength
    requires (forall p :: lo <= p <= hi ==> !Collides(f, accepted, data, p)) && k < |r.bytes|
    ensures r.bytes[k] == data[f.fileStart + r.start + k]
  {
    hide PieceSize, DivCeil, Verified, Collides, ByteFrom, Piece, Hashed;
    var n := f.layout.pieceLength;
    assert ByteFrom(f, accepted, r.start + k, r.bytes[k]);
    QuotientMono(f.fileStart + r.start, f.fileStart + (r.start + k), n);
    QuotientMono(f.fileStart + (r.start + k), f.fileStart + r.end, n);
    ByteIsData(f, accepted, data, r.start + k, r.bytes[k]);
  }

  /**
   * Any sequence of requests, sources failing or lying at will in between: every window served stays within bounds
   * and is made of verified pieces only.
   */
  method ServeAll(s: Session, requests: seq<Request>) returns (replies: seq<Reply>)
    requires s.Valid() && forall i :: 0 <= i < |requests| ==> Exact(requests[i].source)
    modifies s`accepted, s.store
    ensures s.Valid() && |replies| == |requests| && s.streamed.layout.pieceLength > 0
    ensures forall i :: 0 <= i < |replies| ==>
              GoodWindow(s.streamed, s.accepted, replies[i]) && AnswersHeader(s.streamed, requests[i].header, replies[i])
    ensures forall data: seq<byte>, i :: Hashed(s.streamed.layout, data, s.streamed.sha) && 0 <= i < |replies| && replies[i].Served? ==>
              ServedRight(s.streamed, s.accepted, data, replies[i])
  {
    hide ValidFile, Verified, Holds, Exact, GoodWindow, AnswersHeader, Grew, Hashed, ServedRight;
    replies := [];
    NotEmpty(s.streamed);
    for i := 0 to |requests|
      invariant s.Valid() && |replies| == i && s.streamed.layout.pieceLength > 0
      invariant forall j :: 0 <= j < |replies| ==>
                  GoodWindow(s.streamed, s.accepted, replies[j]) && AnswersHeader(s.streamed, requests[j].header, replies[j])
    {
      ghost var before := s.accepted;
      var r := s.Serve(requests[i].header, requests[i].source);
      forall j | 0 <= j < |replies|
        ensures GoodWindow(s.streamed, s.accepted, replies[j])
      {
        StillGood(s.streamed, before, s.accepted, replies[j]);
      }
      replies := replies + [r];
    }
    forall data: seq<byte>, i | Hashed(s.streamed.layout, data, s.streamed.sha) && 0 <= i < |replies| && replies[i].Served?
      ensures ServedRight(s.streamed, s.accepted, data, replies[i])
    {
      WindowIsData(s.streamed, s.accepted, data, replies[i]);
    }
  }
}
