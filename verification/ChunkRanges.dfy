/** From bytes and groups to the 1 KiB chunks of the verified tree. */
module ChunkRanges {
  import opened Prelude
  import opened GroupRuns
  import opened GroupBitsModel

  lemma GroupOfChunk(r: Run, c: nat)
    ensures InRun(Run(r.start * CHUNKS_PER_GROUP, r.end * CHUNKS_PER_GROUP), c) <==> InRun(r, c / CHUNKS_PER_GROUP)
  {
  }

  lemma HasAppended(rs: seq<Run>, r: Run)
    ensures forall c: nat :: Has(rs + [r], c) <==> Has(rs, c) || InRun(r, c)
  {
    forall c: nat
      ensures Has(rs + [r], c) <==> Has(rs, c) || InRun(r, c)
    {
      HasSnoc(rs, r, c);
    }
  }

  /** A chunk is asked for exactly when some non-empty range touches its group. */
  ghost predicate Wanted(ranges: seq<Run>, c: nat)
  {
    exists i :: 0 <= i < |ranges| && InRun(GroupsForBytes(ranges[i]), c / CHUNKS_PER_GROUP)
  }

  lemma WantedSnoc(ranges: seq<Run>, i: nat, c: nat)
    requires i < |ranges|
    ensures Wanted(ranges[..i + 1], c) <==> Wanted(ranges[..i], c) || InRun(GroupsForBytes(ranges[i]), c / CHUNKS_PER_GROUP)
  {
    hide GroupsForBytes;
    var all := ranges[..i + 1];
    assert all[i] == ranges[i];
    if Wanted(ranges[..i], c) {
      var k :| 0 <= k < i && InRun(GroupsForBytes(ranges[..i][k]), c / CHUNKS_PER_GROUP);
      assert all[k] == ranges[..i][k];
    }
    if Wanted(all, c) {
      var k :| 0 <= k < |all| && InRun(GroupsForBytes(all[k]), c / CHUNKS_PER_GROUP);
      assert k < i ==> ranges[..i][k] == all[k];
    }
  }

  method ChunksOfBytes(ranges: seq<Run>) returns (out: seq<Run>)
    ensures forall c: nat :: Has(out, c) <==> Wanted(ranges, c)
  {
    hide Has, Wanted;
    out := [];
    assert forall c: nat :: !Has([], c) && !Wanted([], c) by { NoRuns(); }
    for i := 0 to |ranges|
      invariant forall c: nat :: Has(out, c) <==> Wanted(ranges[..i], c)
    {
      var r := ranges[i];
      forall c: nat
        ensures Wanted(ranges[..i + 1], c) <==> Wanted(ranges[..i], c) || InRun(GroupsForBytes(r), c / CHUNKS_PER_GROUP)
      {
        WantedSnoc(ranges, i, c);
      }
      if r.start < r.end {
        var run := Run(r.start / GROUP_BYTES * CHUNKS_PER_GROUP, DivCeil(r.end, GROUP_BYTES) * CHUNKS_PER_GROUP);
        HasAppended(out, run);
        forall c: nat
          ensures InRun(run, c) <==> InRun(GroupsForBytes(r), c / CHUNKS_PER_GROUP)
        {
          GroupOfChunk(GroupsForBytes(r), c);
        }
        out := out + [run];
      }
    }
    assert ranges[..|ranges|] == ranges;
  }

  lemma NoRuns()
    ensures forall c: nat :: !Has([], c) && !Wanted([], c)
  {
  }

  /** The chunks of the groups in `runs` that an object of `size` bytes really has. */
  method ChunksOfGroups(runs: seq<Run>, size: nat) returns (out: seq<Run>)
    ensures forall c: nat :: Has(out, c) <==> c < DivCeil(size, CHUNK_BYTES) && Has(runs, c / CHUNKS_PER_GROUP)
  {
    hide Has, DivCeil;
    var chunks := DivCeil(size, CHUNK_BYTES);
    out := [];
    assert forall c: int :: !Has([], c) by { NoneHeld(); }
    for i := 0 to |runs|
      invariant forall c: nat :: Has(out, c) <==> c < chunks && Has(runs[..i], c / CHUNKS_PER_GROUP)
    {
      var r := runs[i];
      var start, end := Min(r.start * CHUNKS_PER_GROUP, chunks), Min(r.end * CHUNKS_PER_GROUP, chunks);
      assert runs[..i + 1] == runs[..i] + [r];
      HasAppended(runs[..i], r);
      forall c: nat
        ensures InRun(Run(start, end), c) <==> c < chunks && InRun(r, c / CHUNKS_PER_GROUP)
      {
        GroupOfChunk(r, c);
      }
      if start < end {
        HasAppended(out, Run(start, end));
        out := out + [Run(start, end)];
      }
    }
    assert runs[..|runs|] == runs;
  }

  lemma NoneHeld()
    ensures forall c: int :: !Has([], c)
  {
  }

  /** A complete object's clamped chunks are all its chunks, the short tail group included, and no more. */
  lemma CompleteChunks(runs: seq<Run>, size: nat, c: nat)
    requires forall g: nat :: Has(runs, g) <==> g < GroupCount(size)
    ensures c < DivCeil(size, CHUNK_BYTES) && Has(runs, c / CHUNKS_PER_GROUP) <==> c < DivCeil(size, CHUNK_BYTES)
  {
    if c < DivCeil(size, CHUNK_BYTES) {
      assert c * CHUNK_BYTES < size;
      assert c / CHUNKS_PER_GROUP * GROUP_BYTES <= c * CHUNK_BYTES;
      assert c / CHUNKS_PER_GROUP < GroupCount(size);
    }
  }
}
