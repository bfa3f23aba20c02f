/** Which groups a decode really covered: `fully_covered_groups` and the two slice writers' present sets. */
module Coverage {
  import opened Prelude
  import opened GroupRuns
  import opened GroupBitsModel

  /** The byte range group `g` covers in an object of `size` bytes, the tail clamped. */
  function BytesOfGroup(g: nat, size: nat): Run
  {
    Run(Min(g * GROUP_BYTES, size), Min((g + 1) * GROUP_BYTES, size))
  }

  /** Every byte of group `g` lies in some written extent. */
  ghost predicate FullyWritten(written: seq<Run>, size: nat, g: nat)
  {
    g < GroupCount(size) && forall p :: InRun(BytesOfGroup(g, size), p) ==> Has(written, p)
  }

  ghost predicate SortedByStart(rs: seq<Run>)
  {
    forall i, j :: 0 <= i < j < |rs| ==> rs[i].start <= rs[j].start
  }

  /** Insert into a list sorted by start; what the library sort guarantees. */
  function Insert(rs: seq<Run>, r: Run): seq<Run>
  {
    if rs == [] || r.start <= rs[0].start then [r] + rs else [rs[0]] + Insert(rs[1..], r)
  }

  function SortByStart(rs: seq<Run>): seq<Run>
  {
    if rs == [] then [] else Insert(SortByStart(rs[1..]), rs[0])
  }

  lemma {:induction false} InsertFacts(rs: seq<Run>, r: Run)
    requires SortedByStart(rs)
    ensures SortedByStart(Insert(rs, r))
    ensures forall x :: x in Insert(rs, r) <==> x == r || x in rs
    ensures |Insert(rs, r)| == |rs| + 1
  {
    if rs == [] || r.start <= rs[0].start {
    } else {
      InsertFacts(rs[1..], r);
      var t := Insert(rs[1..], r);
      assert rs == [rs[0]] + rs[1..];
      forall i | 0 <= i < |t|
        ensures rs[0].start <= t[i].start
      {
        assert t[i] in t;
      }
    }
  }

  lemma {:induction false} SortFacts(rs: seq<Run>)
    ensures SortedByStart(SortByStart(rs))
    ensures forall x :: x in SortByStart(rs) <==> x in rs
  {
    if rs != [] {
      SortFacts(rs[1..]);
      InsertFacts(SortByStart(rs[1..]), rs[0]);
      assert rs == [rs[0]] + rs[1..];
    }
  }

  /** Sorting moves no byte in or out of the written extents. */
  lemma SortKeepsBytes(rs: seq<Run>, p: int)
    ensures Has(SortByStart(rs), p) <==> Has(rs, p)
  {
    SortFacts(rs);
    var ss := SortByStart(rs);
    if Has(rs, p) {
      var i :| 0 <= i < |rs| && InRun(rs[i], p);
      assert rs[i] in ss;
      var j :| 0 <= j < |ss| && ss[j] == rs[i];
    }
    if Has(ss, p) {
      var i :| 0 <= i < |ss| && InRun(ss[i], p);
      assert ss[i] in rs;
      var j :| 0 <= j < |rs| && rs[j] == ss[i];
    }
  }

  /** Merge overlapping or touching extents of a list sorted by start. */
  method MergeExtents(rs: seq<Run>) returns (merged: seq<Run>)
    requires SortedByStart(rs)
    requires forall i :: 0 <= i < |rs| ==> rs[i].start < rs[i].end
    ensures Canonical(merged)
    ensures Groups(merged) == Groups(rs)
  {
    hide Canonical, Groups, Span;
    CanonicalNil();
    merged := [];
    var i := 0;
    assert rs[..0] == [];
    while i < |rs|
      invariant 0 <= i <= |rs|
      invariant Canonical(merged)
      invariant merged != [] && i < |rs| ==> merged[|merged| - 1].start <= rs[i].start
      invariant Groups(merged) == Groups(rs[..i])
    {
      var r := rs[i];
      GroupsTake(rs, i);
      if merged != [] && r.start <= merged[|merged| - 1].end {
        MergeIntoLast(merged, r);
        var last := merged[|merged| - 1];
        merged := merged[..|merged| - 1] + [Run(last.start, Max(last.end, r.end))];
      } else {
        merged := GroupBits.Push(merged, r);
      }
      i := i + 1;
    }
    assert rs[..i] == rs;
  }

  lemma MergeIntoLast(ms: seq<Run>, r: Run)
    requires Canonical(ms) && ms != [] && r.start < r.end
    requires ms[|ms| - 1].start <= r.start <= ms[|ms| - 1].end
    ensures var last := ms[|ms| - 1];
            var out := ms[..|ms| - 1] + [Run(last.start, Max(last.end, r.end))];
            Canonical(out) && Groups(out) == Groups(ms) + Span(r)
  {
    var last := ms[|ms| - 1];
    var front := ms[..|ms| - 1];
    var wide := Run(last.start, Max(last.end, r.end));
    ExtendFacts(ms, wide.end);
    CanonicalSnoc(front, wide);
    GroupsSnoc(front, wide);
    SpanMerge(last, r);
    assert ms == front + [last];
    GroupsSnoc(front, last);
  }

  /** The groups a merged extent covers whole. */
  function CoveredBy(r: Run, size: nat): Run
  {
    Run(DivCeil(r.start, GROUP_BYTES), if r.end >= size then GroupCount(size) else r.end / GROUP_BYTES)
  }

  /** One extent covers a group whole exactly when the group is in `CoveredBy`. */
  lemma CoveredByMeans(r: Run, size: nat, g: nat)
    ensures InRun(CoveredBy(r, size), g) <==>
            g < GroupCount(size) && r.start <= g * GROUP_BYTES && Min((g + 1) * GROUP_BYTES, size) <= r.end
  {
  }

  lemma GroupStartsInside(g: nat, size: nat)
    requires g < GroupCount(size)
    ensures g * GROUP_BYTES < size
  {
  }

  /** A group is covered by the whole list exactly when a single merged extent covers it. */
  lemma OneExtentCovers(ms: seq<Run>, size: nat, g: nat)
    requires Canonical(ms)
    ensures FullyWritten(ms, size, g) <==> exists i :: 0 <= i < |ms| && InRun(CoveredBy(ms[i], size), g)
  {
    var b := BytesOfGroup(g, size);
    if FullyWritten(ms, size, g) {
      GroupStartsInside(g, size);
      RangeInOneRun(ms, b);
      var i :| 0 <= i < |ms| && ms[i].start <= b.start && b.end <= ms[i].end;
      CoveredByMeans(ms[i], size, g);
    }
    if i :| 0 <= i < |ms| && InRun(CoveredBy(ms[i], size), g) {
      CoveredByMeans(ms[i], size, g);
      forall p | InRun(b, p)
        ensures Has(ms, p)
      {
        assert InRun(ms[i], p);
      }
    }
  }

  /** `fully_covered_groups`: a group is marked if and only if every byte of it was written. */
  method FullyCoveredGroups(written: seq<Run>, size: nat) returns (bits: GroupBits)
    requires forall i :: 0 <= i < |written| ==> written[i].start < written[i].end
    ensures fresh(bits) && bits.Valid()
    ensures forall g: nat :: g in bits.Set() <==> FullyWritten(written, size, g)
  {
    var sorted := SortByStart(written);
    SortFacts(written);
    SortedNonEmpty(written, sorted);
    var merged := MergeExtents(sorted);
    bits := MarkCovered(merged, size);
    forall g: nat
      ensures g in bits.Set() <==> FullyWritten(written, size, g)
    {
      SameBytesSameGroups(written, merged, size, g);
      OneExtentCovers(merged, size, g);
    }
  }

  lemma SortedNonEmpty(written: seq<Run>, sorted: seq<Run>)
    requires forall x :: x in sorted <==> x in written
    requires forall i :: 0 <= i < |written| ==> written[i].start < written[i].end
    ensures forall i :: 0 <= i < |sorted| ==> sorted[i].start < sorted[i].end
  {
    forall i | 0 <= i < |sorted|
      ensures sorted[i].start < sorted[i].end
    {
      assert sorted[i] in sorted;
    }
  }

  lemma SameBytesSameGroups(written: seq<Run>, merged: seq<Run>, size: nat, g: nat)
    requires Groups(merged) == Groups(SortByStart(written))
    ensures FullyWritten(written, size, g) <==> FullyWritten(merged, size, g)
  {
    forall p
      ensures Has(written, p) <==> Has(merged, p)
    {
      SortKeepsBytes(written, p);
      GroupsHas(merged, p);
      GroupsHas(SortByStart(written), p);
    }
  }

  method MarkCovered(merged: seq<Run>, size: nat) returns (bits: GroupBits)
    ensures fresh(bits) && bits.Valid()
    ensures forall g: nat :: g in bits.Set() <==> exists i :: 0 <= i < |merged| && InRun(CoveredBy(merged[i], size), g)
  {
    bits := new GroupBits();
    var i := 0;
    while i < |merged|
      invariant 0 <= i <= |merged|
      invariant fresh(bits) && bits.Valid()
      invariant forall g: nat :: g in bits.Set() <==> exists k :: 0 <= k < i && InRun(CoveredBy(merged[k], size), g)
    {
      var c := CoveredBy(merged[i], size);
      ghost var was := bits.Set();
      if c.start < c.end {
        bits.Add(c);
      } else {
        EmptySpan(c);
      }
      assert bits.Set() == was + Span(c);
      i := i + 1;
    }
  }

  /** What a successful decode wrote: every byte of every group the requested ranges touch, and nothing else. */
  ghost predicate DecodedAll(written: seq<Run>, ranges: seq<Run>, size: nat)
  {
    forall p: nat :: Has(written, p) <==> p < size && Requested(ranges, p / GROUP_BYTES)
  }

  ghost predicate Requested(ranges: seq<Run>, g: int)
  {
    exists i :: 0 <= i < |ranges| && InRun(GroupsForBytes(ranges[i]), g)
  }

  /** After a successful decode, what landed is exactly what was requested. */
  lemma LandedIsRequested(written: seq<Run>, ranges: seq<Run>, size: nat, g: nat)
    requires DecodedAll(written, ranges, size)
    requires forall i :: 0 <= i < |ranges| ==> ranges[i].end <= size
    ensures FullyWritten(written, size, g) <==> Requested(ranges, g)
  {
    var b := BytesOfGroup(g, size);
    if FullyWritten(written, size, g) {
      GroupStartsInside(g, size);
      assert InRun(b, b.start);
      assert Has(written, b.start);
    }
    if Requested(ranges, g) {
      var i :| 0 <= i < |ranges| && InRun(GroupsForBytes(ranges[i]), g);
      assert g < GroupCount(size);
      forall p | InRun(b, p)
        ensures Has(written, p)
      {
        assert p / GROUP_BYTES == g;
      }
    }
  }

  /** `write_slice`'s fold: mark the groups of every requested range. */
  method FoldRequested(bits: GroupBits, ranges: seq<Run>)
    requires bits.Valid()
    modifies bits
    ensures bits.Valid()
    ensures forall g: nat :: g in bits.Set() <==> g in old(bits.Set()) || Requested(ranges, g)
  {
    var i := 0;
    while i < |ranges|
      invariant 0 <= i <= |ranges|
      invariant bits.Valid()
      invariant forall g: nat :: g in bits.Set() <==> g in old(bits.Set()) || Requested(ranges[..i], g)
    {
      ghost var was := bits.Set();
      var c := GroupsForBytes(ranges[i]);
      bits.Add(c);
      forall g: nat
        ensures g in bits.Set() <==> g in old(bits.Set()) || Requested(ranges[..i + 1], g)
      {
        assert g in bits.Set() <==> g in was || InRun(c, g);
        RequestedSnoc(ranges, i, g);
      }
      i := i + 1;
    }
    assert ranges[..i] == ranges;
  }

  lemma RequestedSnoc(ranges: seq<Run>, k: nat, g: int)
    requires k < |ranges|
    ensures Requested(ranges[..k + 1], g) <==> Requested(ranges[..k], g) || InRun(GroupsForBytes(ranges[k]), g)
  {
    if Requested(ranges[..k], g) {
      var i :| 0 <= i < |ranges[..k]| && InRun(GroupsForBytes(ranges[..k][i]), g);
      assert ranges[..k + 1][i] == ranges[i];
    }
    if InRun(GroupsForBytes(ranges[k]), g) {
      assert ranges[..k + 1][k] == ranges[k];
    }
    if Requested(ranges[..k + 1], g) {
      var i :| 0 <= i < |ranges[..k + 1]| && InRun(GroupsForBytes(ranges[..k + 1][i]), g);
      assert i < k ==> ranges[..k][i] == ranges[i];
    }
  }

  /** `write_slice_partial`'s fold: mark what landed. */
  method FoldLanded(bits: GroupBits, landed: GroupBits)
    requires bits.Valid() && landed.Valid() && bits != landed
    modifies bits
    ensures bits.Valid() && landed.runs == old(landed.runs)
    ensures bits.Set() == old(bits.Set()) + landed.Set()
  {
    var i := 0;
    assert landed.runs[..0] == [];
    while i < |landed.runs|
      invariant 0 <= i <= |landed.runs|
      invariant bits.Valid() && landed.runs == old(landed.runs)
      invariant bits.Set() == old(bits.Set()) + Groups(landed.runs[..i])
    {
      GroupsTake(landed.runs, i);
      bits.Add(landed.runs[i]);
      i := i + 1;
    }
    assert landed.runs[..i] == landed.runs;
  }

  /** On a successful decode both writers leave the same present runs. */
  method BothWritersAgree(present: seq<Run>, ranges: seq<Run>, written: seq<Run>, size: nat)
    returns (whole: seq<Run>, partial: seq<Run>)
    requires Canonical(present)
    requires forall i :: 0 <= i < |written| ==> written[i].start < written[i].end
    requires forall i :: 0 <= i < |ranges| ==> ranges[i].end <= size
    requires DecodedAll(written, ranges, size)
    ensures whole == partial && Canonical(whole)
    ensures forall g: nat :: g in Groups(whole) <==> g in Groups(present) || Requested(ranges, g)
  {
    var a := new GroupBits();
    a.runs := present;
    FoldRequested(a, ranges);
    var b := new GroupBits();
    b.runs := present;
    var landed := FullyCoveredGroups(written, size);
    FoldLanded(b, landed);
    forall g: nat
      ensures g in landed.Set() <==> Requested(ranges, g)
    {
      LandedIsRequested(written, ranges, size, g);
    }
    assert a.Set() == b.Set();
    CanonicalUnique(a.runs, b.runs);
    whole, partial := a.runs, b.runs;
  }
}
