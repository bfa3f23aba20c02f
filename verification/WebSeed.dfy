/** Reading a range of a torrent from seeds that serve one file at a time. */
module WebSeed {
  import opened Prelude
  import opened TorrentLayout

  /** One request to a seed: bytes `off .. off + len` of a file. */
  datatype FileRange = FileRange(file: nat, off: nat, len: nat)

  /** What one base answers, if anything. */
  type Base = FileRange -> Option<seq<byte>>

  type Seed = seq<Base>

  datatype ReadResult = Read(bytes: seq<byte>) | NoSource | ShortRead(got: nat, want: nat)

  /** A base delivers when it answers with as many bytes as were asked for. */
  predicate Delivers(base: Base, r: FileRange)
  {
    base(r).Some? && |base(r).value| == r.len
  }

  /** The answer to a request is the one of the first base that delivers; without one there is none. */
  ghost predicate AnswerIs(seed: Seed, r: FileRange, a: Option<seq<byte>>)
  {
    if a.None? then forall i :: 0 <= i < |seed| ==> !Delivers(seed[i], r)
    else exists i :: FirstIs(seed, r, i) && seed[i](r) == a
  }

  ghost predicate FirstIs(seed: Seed, r: FileRange, i: int)
  {
    0 <= i < |seed| && Delivers(seed[i], r) && forall j :: 0 <= j < i ==> !Delivers(seed[j], r)
  }

  lemma {:induction false} FetchIff(seed: Seed, r: FileRange, a: Option<seq<byte>>)
    ensures AnswerIs(seed, r, a) <==> Fetch(seed, r) == a
    decreases |seed|
  {
    if seed != [] && !Delivers(seed[0], r) {
      FetchIff(seed[1..], r, a);
      if a.Some? {
        if AnswerIs(seed[1..], r, a) {
          var i :| FirstIs(seed[1..], r, i) && seed[1..][i](r) == a;
          assert FirstIs(seed, r, i + 1);
        }
        if AnswerIs(seed, r, a) {
          var i :| FirstIs(seed, r, i) && seed[i](r) == a;
          assert seed[1..][i - 1] == seed[i];
          assert FirstIs(seed[1..], r, i - 1) by {
            assert forall j :: 0 <= j < i - 1 ==> seed[1..][j] == seed[j + 1];
          }
        }
      } else {
        assert AnswerIs(seed, r, a) <==> AnswerIs(seed[1..], r, a) by {
          assert forall j :: 0 <= j < |seed| - 1 ==> seed[1..][j] == seed[j + 1];
        }
      }
    } else if seed != [] {
      assert FirstIs(seed, r, 0);
    }
  }

  /** The bases are tried in order until one delivers as many bytes as were asked for. */
  function Fetch(seed: Seed, r: FileRange): (a: Option<seq<byte>>)
    ensures a.Some? ==> |a.value| == r.len
  {
    if seed == [] then None
    else
      var a := seed[0](r);
      if a.Some? && |a.value| == r.len then a else Fetch(seed[1..], r)
  }

  /** The files hold the torrent's bytes, and the seed answers with them or not at all. */
  ghost predicate Truthful(m: Layout, data: seq<byte>, seed: Seed)
    requires |data| == Total(m)
  {
    forall i: nat, off: nat, len: nat, bytes: seq<byte> ::
      i < |m.files| && off + len <= m.files[i] && AnswerIs(seed, FileRange(i, off, len), Some(bytes)) ==>
        FileStart(m, i) + off + len <= |data| && bytes == data[FileStart(m, i) + off..FileStart(m, i) + off + len]
  }

  /** The requests walk the range: each asks for at least one byte inside its file, where the one before it ended. */
  ghost predicate Tiles(m: Layout, asked: seq<FileRange>, from: nat, upTo: nat)
    decreases |asked|
  {
    if asked == [] then from == upTo
    else
      var last := asked[|asked| - 1];
      && last.file < |m.files| && 0 < last.len && last.off + last.len <= m.files[last.file]
      && FileStart(m, last.file) + last.off + last.len == upTo
      && last.len <= upTo
      && Tiles(m, asked[..|asked| - 1], from, upTo - last.len)
  }

  lemma TilesSnoc(m: Layout, asked: seq<FileRange>, from: nat, upTo: nat, next: FileRange)
    requires Tiles(m, asked, from, upTo)
    requires next.file < |m.files| && 0 < next.len && next.off + next.len <= m.files[next.file]
    requires FileStart(m, next.file) + next.off == upTo
    ensures Tiles(m, asked + [next], from, upTo + next.len)
  {
    var all := asked + [next];
    assert all[..|all| - 1] == asked;
  }

  /** How far the files before `i` reach into the range that starts at `from`. */
  function Reached(m: Layout, i: nat, from: nat, end: nat): (n: nat)
    requires i <= |m.files|
  {
    Max(from, Min(end, FileStart(m, i)))
  }

  ghost predicate Answered(seed: Seed, asked: seq<FileRange>)
  {
    forall r :: r in asked ==> exists bytes :: AnswerIs(seed, r, Some(bytes))
  }

  /** Whatever the torrent's bytes are, if the seed is truthful about them, `out` is the bytes from `from` on. */
  ghost predicate IsData(m: Layout, seed: Seed, from: nat, out: seq<byte>)
  {
    forall data: seq<byte> :: |data| == Total(m) && Truthful(m, data, seed) && out != [] ==>
      from + |out| <= |data| && out == data[from..from + |out|]
  }

  lemma IsDataStep(m: Layout, seed: Seed, from: nat, out: seq<byte>, r: FileRange)
    requires IsData(m, seed, from, out) && r.file < |m.files| && r.off + r.len <= m.files[r.file] && Fetch(seed, r).Some?
    requires FileStart(m, r.file) + r.off == from + |out|
    ensures IsData(m, seed, from, out + Fetch(seed, r).value)
  {
    hide Truthful, Fetch, Sum;
    var bytes := Fetch(seed, r).value;
    forall data: seq<byte> | |data| == Total(m) && Truthful(m, data, seed) && out + bytes != []
      ensures from + |out + bytes| <= |data| && out + bytes == data[from..from + |out + bytes|]
    {
      TruthfulAt(m, data, seed, r);
      Joins(data, from, out, bytes);
    }
  }

  lemma AnsweredSnoc(seed: Seed, asked: seq<FileRange>, r: FileRange)
    requires Answered(seed, asked) && Fetch(seed, r).Some?
    ensures Answered(seed, asked + [r])
  {
    hide Fetch, AnswerIs;
    FetchIff(seed, r, Fetch(seed, r));
  }

  lemma NothingAsked(m: Layout, seed: Seed, from: nat, end: nat)
    requires from <= end
    ensures Answered(seed, []) && IsData(m, seed, from, []) && Tiles(m, [], from, from) && Reached(m, 0, from, end) == from
    ensures FileStart(m, 0) == 0
  {
    hide Truthful, Fetch;
  }

  lemma NextFile(m: Layout, i: nat)
    requires i < |m.files|
    ensures FileStart(m, i + 1) == FileStart(m, i) + m.files[i] <= Total(m)
  {
    SumPrefix(m.files, i);
    SumBound(m.files, i + 1);
  }

  lemma LastFile(m: Layout)
    ensures FileStart(m, |m.files|) == Total(m)
  {
    assert m.files[..|m.files|] == m.files;
  }

  /**
   * Bytes `from .. from + len` of the torrent. The requests made tile exactly the part of the range that lies in the
   * torrent; a truthful seed's answers join to the torrent's bytes there; and a range that reaches beyond the torrent
   * is refused.
   */
  method ReadRange(m: Layout, from: nat, len: nat, seed: Seed) returns (r: ReadResult, ghost asked: seq<FileRange>)
    ensures r.Read? ==> |r.bytes| == len && Tiles(m, asked, from, from + len) && IsData(m, seed, from, r.bytes)
    ensures r.Read? ==> len == 0 || from + len <= Total(m)
    ensures !r.NoSource? ==> Answered(seed, asked) && (r.ShortRead? <==> len > 0 && from + len > Total(m))
    ensures !r.NoSource? ==> Tiles(m, asked, from, Max(from, Min(from + len, Total(m))))
    ensures r.NoSource? ==> exists upTo: nat :: upTo <= from + len && Tiles(m, asked, from, upTo)
    ensures r.NoSource? ==> asked != [] && AnswerIs(seed, asked[|asked| - 1], None) && Answered(seed, asked[..|asked| - 1])
  {
    hide Tiles, IsData, Fetch, FileStart, Answered, Sum, AnswerIs;
    var end := from + len;
    var out: seq<byte> := [];
    asked := [];
    var fStart := 0;
    NothingAsked(m, seed, from, end);
    for i := 0 to |m.files|
      invariant fStart == FileStart(m, i)
      invariant Tiles(m, asked, from, Reached(m, i, from, end))
      invariant |out| == Reached(m, i, from, end) - from
      invariant Answered(seed, asked) && IsData(m, seed, from, out)
    {
      NextFile(m, i);
      var fEnd := fStart + m.files[i];
      var segStart, segEnd := Max(from, fStart), Min(end, fEnd);
      if segStart < segEnd {
        var request := FileRange(i, segStart - fStart, segEnd - segStart);
        var bytes := Fetch(seed, request);
        if bytes.None? {
          FetchIff(seed, request, bytes);
          TilesSnoc(m, asked, from, Reached(m, i, from, end), request);
          assert (asked + [request])[..|asked|] == asked;
          asked := asked + [request];
          return NoSource, asked;
        }
        TilesSnoc(m, asked, from, Reached(m, i, from, end), request);
        IsDataStep(m, seed, from, out, request);
        AnsweredSnoc(seed, asked, request);
        asked := asked + [request];
        out := out + bytes.value;
      }
      fStart := fEnd;
    }
    LastFile(m);
    if |out| != len {
      return ShortRead(|out|, len), asked;
    }
    return Read(out), asked;
  }

  lemma TruthfulAt(m: Layout, data: seq<byte>, seed: Seed, r: FileRange)
    requires |data| == Total(m) && Truthful(m, data, seed)
    requires r.file < |m.files| && r.off + r.len <= m.files[r.file] && Fetch(seed, r).Some?
    ensures FileStart(m, r.file) + r.off + r.len <= |data|
    ensures Fetch(seed, r).value == data[FileStart(m, r.file) + r.off..FileStart(m, r.file) + r.off + r.len]
  {
    hide AnswerIs, Fetch;
    assert r == FileRange(r.file, r.off, r.len);
    FetchIff(seed, r, Fetch(seed, r));
  }

  lemma Joins(data: seq<byte>, from: nat, a: seq<byte>, b: seq<byte>)
    requires from + |a| + |b| <= |data|
    requires a == [] || a == data[from..from + |a|]
    requires b == data[from + |a|..from + |a| + |b|]
    ensures a + b == data[from..from + |a + b|]
  {
    if a != [] {
      assert data[from..from + |a| + |b|] == data[from..from + |a|] + data[from + |a|..from + |a| + |b|];
    }
  }
}
