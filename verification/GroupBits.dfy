/** `GroupBits`: the mutable present set of one object, proved against the set of groups it holds. */
module GroupBitsModel {
  import opened Prelude
  import opened GroupRuns

  function GroupCount(size: nat): nat { DivCeil(size, GROUP_BYTES) }

  /** The groups a byte range touches, rounded outward. */
  function GroupsForBytes(bytes: Run): Run
  {
    if bytes.start >= bytes.end then Run(0, 0)
    else Run(bytes.start / GROUP_BYTES, DivCeil(bytes.end, GROUP_BYTES))
  }

  /** A group is in `GroupsForBytes` exactly when one of its bytes is in the range. */
  lemma GroupsForBytesTouch(bytes: Run, g: nat)
    ensures InRun(GroupsForBytes(bytes), g) <==>
            exists p :: InRun(bytes, p) && p / GROUP_BYTES == g
  {
    if InRun(GroupsForBytes(bytes), g) {
      var p := Max(bytes.start, g * GROUP_BYTES);
      assert InRun(bytes, p) && p / GROUP_BYTES == g;
    }
  }

  /** What a wire list means: alternating present and absent lengths from `cursor`. */
  ghost function WireSet(w: seq<nat>, cursor: nat, present: bool): set<nat>
  {
    if w == [] then {}
    else (if present then Span(Run(cursor, cursor + w[0])) else {}) + WireSet(w[1..], cursor + w[0], !present)
  }

  function WireSum(w: seq<nat>): nat
  {
    if w == [] then 0 else w[0] + WireSum(w[1..])
  }

  /** (absent, present) length pairs, the form `to_wire` builds before flipping it. */
  function Pairs(rs: seq<Run>, cursor: nat): seq<nat>
    requires Canonical(rs)
    requires rs != [] ==> cursor <= rs[0].start
  {
    if rs == [] then []
    else [rs[0].start - cursor, rs[0].end - rs[0].start] + Pairs(rs[1..], rs[0].end)
  }

  /** The wire form: present first, the leading absent length dropped when it is zero. */
  function Wire(rs: seq<Run>): seq<nat>
    requires Canonical(rs)
  {
    var p := Pairs(rs, 0);
    if p == [] then [] else if p[0] == 0 then p[1..] else [0] + p
  }

  function TopEnd(rs: seq<Run>): nat { if rs == [] then 0 else rs[|rs| - 1].end }

  lemma {:induction false} GroupsCons(rs: seq<Run>)
    requires rs != []
    ensures Groups(rs) == Span(rs[0]) + Groups(rs[1..])
  {
    if |rs| > 1 {
      GroupsCons(rs[..|rs| - 1]);
      assert rs[..|rs| - 1][1..] == rs[1..][..|rs| - 2];
    }
  }

  lemma {:induction false} PairsMean(rs: seq<Run>, cursor: nat)
    requires Canonical(rs)
    requires rs != [] ==> cursor <= rs[0].start
    ensures WireSet(Pairs(rs, cursor), cursor, false) == Groups(rs)
    ensures WireSum(Pairs(rs, cursor)) == if rs == [] then 0 else TopEnd(rs) - cursor
  {
    hide *;
    if rs == [] {
      PairsNil(cursor);
    } else {
      CanonicalTail(rs);
      PairsMean(rs[1..], rs[0].end);
      GroupsCons(rs);
      PairsHead(rs, cursor);
      var tail := Pairs(rs[1..], rs[0].end);
      WireTwo(rs[0].start - cursor, rs[0].end - rs[0].start, tail, cursor);
    }
  }

  lemma PairsNil(cursor: nat)
    ensures Canonical([]) && Groups([]) == {} && TopEnd([]) == 0
    ensures Pairs([], cursor) == [] && WireSum([]) == 0
    ensures WireSet([], cursor, false) == {}
  {
  }

  lemma CanonicalTail(rs: seq<Run>)
    requires Canonical(rs) && rs != []
    ensures Canonical(rs[1..]) && rs[0].start < rs[0].end
    ensures |rs| > 1 ==> rs[0].end < rs[1].start
    ensures TopEnd(rs) == if |rs| > 1 then TopEnd(rs[1..]) else rs[0].end
  {
  }

  lemma PairsHead(rs: seq<Run>, cursor: nat)
    requires Canonical(rs) && rs != [] && cursor <= rs[0].start
    ensures Canonical(rs[1..])
    ensures |rs| > 1 ==> rs[0].end <= rs[1].start
    ensures Pairs(rs, cursor) == [rs[0].start - cursor, rs[0].end - rs[0].start] + Pairs(rs[1..], rs[0].end)
  {
  }

  lemma WireTwo(absent: nat, held: nat, tail: seq<nat>, cursor: nat)
    ensures WireSet([absent, held] + tail, cursor, false) ==
            Span(Run(cursor + absent, cursor + absent + held)) + WireSet(tail, cursor + absent + held, false)
    ensures WireSum([absent, held] + tail) == absent + held + WireSum(tail)
  {
    var w := [absent, held] + tail;
    assert w[1..] == [held] + tail;
    assert w[1..][1..] == tail;
  }

  /** The wire form stands for the same set, and its lengths add up to the last run's end. */
  lemma WireMeans(rs: seq<Run>)
    requires Canonical(rs)
    ensures WireSet(Wire(rs), 0, true) == Groups(rs)
    ensures WireSum(Wire(rs)) == TopEnd(rs)
  {
    PairsMean(rs, 0);
    var p := Pairs(rs, 0);
    if p != [] && p[0] != 0 {
      assert ([0] + p)[1..] == p;
    }
  }

  lemma {:induction false} WireSnoc(w: seq<nat>, x: nat, cursor: nat, present: bool)
    ensures WireSet(w + [x], cursor, present) ==
            WireSet(w, cursor, present) +
            (if present == (|w| % 2 == 0) then Span(Run(cursor + WireSum(w), cursor + WireSum(w) + x)) else {})
    ensures WireSum(w + [x]) == WireSum(w) + x
  {
    hide Span;
    if w == [] {
      assert w + [x] == [x];
    } else {
      var wx := w + [x];
      assert wx[1..] == w[1..] + [x];
      WireSnoc(w[1..], x, cursor + w[0], !present);
      assert WireSet(wx, cursor, present) ==
             (if present then Span(Run(cursor, cursor + w[0])) else {}) + WireSet(w[1..] + [x], cursor + w[0], !present);
      assert (|w[1..]| % 2 == 0) != (|w| % 2 == 0);
    }
  }

  lemma {:induction false} WireSumPrefix(w: seq<nat>, k: nat)
    requires k <= |w|
    ensures WireSum(w[..k]) <= WireSum(w)
  {
    if k > 0 {
      assert w[..k][1..] == w[1..][..k - 1];
      WireSumPrefix(w[1..], k - 1);
    }
  }

  lemma WireTake(w: seq<nat>, i: nat)
    requires i < |w|
    ensures WireSet(w[..i + 1], 0, true) ==
            WireSet(w[..i], 0, true) +
            (if i % 2 == 0 then Span(Run(WireSum(w[..i]), WireSum(w[..i]) + w[i])) else {})
    ensures WireSum(w[..i + 1]) == WireSum(w[..i]) + w[i] <= WireSum(w)
  {
    hide *;
    assert w[..i + 1] == w[..i] + [w[i]];
    WireSnoc(w[..i], w[i], 0, true);
    WireSumPrefix(w, i + 1);
  }

  /** One run holds a non-empty range exactly when the whole set does. */
  lemma OneRunHoldsRange(rs: seq<Run>, r: Run)
    requires Canonical(rs) && r.start < r.end
    ensures (exists k :: 0 <= k < |rs| && rs[k].start <= r.start && r.end <= rs[k].end) <==> Span(r) <= Groups(rs)
  {
    if k :| 0 <= k < |rs| && rs[k].start <= r.start && r.end <= rs[k].end {
      forall g: nat | g in Span(r)
        ensures g in Groups(rs)
      {
        assert InRun(rs[k], g);
        GroupsHas(rs, g);
      }
    }
    if Span(r) <= Groups(rs) {
      forall g | r.start <= g < r.end
        ensures Has(rs, g)
      {
        assert g in Span(r);
        GroupsHas(rs, g);
      }
      RangeInOneRun(rs, r);
    }
  }

  lemma ExtendFacts(rs: seq<Run>, end: nat)
    requires Canonical(rs) && rs != [] && rs[|rs| - 1].end <= end
    ensures Canonical(rs[..|rs| - 1])
    ensures rs[|rs| - 1].start < rs[|rs| - 1].end
    ensures |rs| > 1 ==> rs[|rs| - 2].end < rs[|rs| - 1].start
    ensures Groups(rs[..|rs| - 1]) + Span(Run(rs[|rs| - 1].start, end)) ==
            Groups(rs) + Span(Run(rs[|rs| - 1].end, end))
  {
    SpanSplit(rs[|rs| - 1].start, rs[|rs| - 1].end, end);
  }

  lemma CanonicalAt(rs: seq<Run>, i: nat)
    requires Canonical(rs) && i < |rs|
    ensures rs[i].start < rs[i].end
    ensures i + 1 < |rs| ==> rs[i].end < rs[i + 1].start
  {
  }

  lemma SpanCut(r: Run, groups: Run)
    requires r.start < r.end && groups.start < groups.end
    requires r.end > groups.start && r.start < groups.end
    ensures Span(r) - Span(groups) == Span(Run(r.start, groups.start)) + Span(Run(groups.end, r.end))
  {
  }

  lemma SpanApart(r: Run, groups: Run)
    requires r.end <= groups.start || r.start >= groups.end
    ensures Span(r) - Span(groups) == Span(r)
  {
  }

  lemma EmptySpan(r: Run)
    requires r.end <= r.start
    ensures Span(r) == {}
  {
  }

  /** Advancing the gap cursor over run `r`. */
  lemma GapStep(rs: seq<Run>, within: Run, cursor: nat, r: Run)
    requires within.start <= cursor < within.end && cursor < r.end && r.start < within.end && r.start < r.end
    requires Span(Run(cursor, r.start)) !! Groups(rs) && Span(r) <= Groups(rs)
    ensures r.end <= within.end ==>
              Span(Run(within.start, r.end)) - Groups(rs) ==
              (Span(Run(within.start, cursor)) - Groups(rs)) + Span(Run(cursor, r.start))
    ensures r.end > within.end ==>
              Span(within) - Groups(rs) ==
              (Span(Run(within.start, cursor)) - Groups(rs)) + Span(Run(cursor, r.start))
    ensures r.start <= cursor ==> Span(Run(cursor, r.start)) == {}
  {
    forall g: nat | cursor <= g < r.end
      ensures g in Groups(rs) <==> r.start <= g
    {
      assert g in Span(r) || g in Span(Run(cursor, r.start));
    }
  }

  lemma LastGap(rs: seq<Run>, within: Run, cursor: nat, i: nat)
    requires Canonical(rs) && within.start <= cursor < within.end && i <= |rs|
    requires forall k :: 0 <= k < i ==> rs[k].end <= cursor
    requires i < |rs| ==> rs[i].start >= within.end
    ensures (Span(Run(within.start, cursor)) - Groups(rs)) + Span(Run(cursor, within.end)) == Span(within) - Groups(rs)
  {
    forall k | 0 <= k < |rs|
      ensures rs[k].end <= cursor || within.end <= rs[k].start
    {
    }
    PastTheEnd(rs, Run(cursor, within.end));
    SpanSplit(within.start, cursor, within.end);
  }

  lemma WireNil()
    ensures WireSet([], 0, true) == {} && WireSum([]) == 0
  {
  }

  lemma CanonicalNil()
    ensures Canonical([]) && Groups([]) == {}
  {
  }

  class GroupBits {
    var runs: seq<Run>

    ghost predicate Valid()
      reads this
    {
      Canonical(runs)
    }

    ghost function Set(): set<nat>
      reads this
    {
      Groups(runs)
    }

    constructor ()
      ensures Valid() && Set() == {} && runs == []
    {
      runs := [];
    }

    /** A field with every group of an object of `size` bytes present. */
    constructor Complete(size: nat)
      ensures Valid()
      ensures Set() == Span(Run(0, GroupCount(size)))
    {
      var n := GroupCount(size);
      runs := if n > 0 then [Run(0, n)] else [];
      new;
      GroupsSnoc([], Run(0, n));
    }

    /** Binary search over the runs. */
    method Contains(group: nat) returns (b: bool)
      requires Valid()
      ensures b <==> group in Set()
    {
      GroupsHas(runs, group);
      var lo, hi := 0, |runs|;
      while lo < hi
        invariant 0 <= lo <= hi <= |runs|
        invariant forall i :: 0 <= i < lo ==> runs[i].end <= group
        invariant forall i :: hi <= i < |runs| ==> group < runs[i].start
      {
        var mid := (lo + hi) / 2;
        if runs[mid].end <= group {
          lo := mid + 1;
        } else if group < runs[mid].start {
          hi := mid;
        } else {
          assert InRun(runs[mid], group);
          return true;
        }
      }
      return false;
    }

    method ContainsAll(groups: Run) returns (b: bool)
      requires Valid()
      ensures b <==> Span(groups) <= Set()
    {
      if groups.start >= groups.end {
        return true;
      }
      b := false;
      var i := 0;
      while i < |runs|
        invariant 0 <= i <= |runs|
        invariant b <==> exists k :: 0 <= k < i && runs[k].start <= groups.start && groups.end <= runs[k].end
      {
        b := b || (runs[i].start <= groups.start && groups.end <= runs[i].end);
        i := i + 1;
      }
      OneRunHoldsRange(runs, groups);
    }

    /** Mark a range present: append at the tail, or rebuild and coalesce. */
    method Add(groups: Run)
      requires Valid()
      modifies this
      ensures Valid()
      ensures Set() == old(Set()) + Span(groups)
    {
      if groups.start >= groups.end {
        return;
      }
      if runs == [] || groups.start > runs[|runs| - 1].end {
        runs := Push(runs, groups);
      } else if groups.start == runs[|runs| - 1].end {
        runs := Extend(runs, groups.end);
      } else {
        runs := Coalesce(runs, groups);
      }
    }

    static method Push(rs: seq<Run>, r: Run) returns (out: seq<Run>)
      requires Canonical(rs) && r.start < r.end
      requires rs != [] ==> rs[|rs| - 1].end < r.start
      ensures out == rs + [r] && Canonical(out)
      ensures Groups(out) == Groups(rs) + Span(r)
    {
      out := rs + [r];
      CanonicalSnoc(rs, r);
      GroupsSnoc(rs, r);
    }

    /** Move the end of the last run out to `end`. */
    static method Extend(rs: seq<Run>, end: nat) returns (out: seq<Run>)
      requires Canonical(rs) && rs != [] && rs[|rs| - 1].end <= end
      ensures Canonical(out) && out != [] && out[|out| - 1].end == end
      ensures Groups(out) == Groups(rs) + Span(Run(rs[|rs| - 1].end, end))
    {
      var last := rs[|rs| - 1];
      var wide := Run(last.start, end);
      ExtendFacts(rs, end);
      hide *;
      out := Push(rs[..|rs| - 1], wide);
    }

    static method Coalesce(rs: seq<Run>, groups: Run) returns (out: seq<Run>)
      requires Canonical(rs) && groups.start < groups.end
      ensures Canonical(out)
      ensures Groups(out) == Groups(rs) + Span(groups)
    {
      hide Canonical, Groups, Span;
      CanonicalNil();
      out := [];
      var merged := groups;
      var placed := false;
      var i := 0;
      assert rs[..0] == [];
      while i < |rs|
        invariant 0 <= i <= |rs|
        invariant Canonical(out) && merged.start < merged.end
        invariant !placed ==> out != [] ==> out[|out| - 1].end < merged.start
        invariant out != [] && i < |rs| ==> out[|out| - 1].end < rs[i].start
        invariant placed && i < |rs| ==> merged.end < rs[i].start
        invariant placed ==> out != []
        invariant Groups(out) + (if placed then {} else Span(merged)) == Groups(rs[..i]) + Span(groups)
      {
        var r := rs[i];
        GroupsTake(rs, i);
        CanonicalAt(rs, i);
        if r.end < merged.start || r.start > merged.end {
          if r.start > merged.end && !placed {
            out := Push(out, merged);
            placed := true;
          }
          out := Push(out, r);
        } else {
          SpanMerge(merged, r);
          merged := Run(Min(merged.start, r.start), Max(merged.end, r.end));
        }
        i := i + 1;
      }
      assert rs[..i] == rs;
      if !placed {
        out := Push(out, merged);
      }
    }

    /** Mark a range absent, splitting the runs it cuts. */
    method Remove(groups: Run)
      requires Valid()
      modifies this
      ensures Valid()
      ensures Set() == old(Set()) - Span(groups)
    {
      if groups.start >= groups.end {
        return;
      }
      runs := Subtract(runs, groups);
    }

    static method Subtract(rs: seq<Run>, groups: Run) returns (out: seq<Run>)
      requires Canonical(rs) && groups.start < groups.end
      ensures Canonical(out)
      ensures Groups(out) == Groups(rs) - Span(groups)
    {
      hide *;
      CanonicalNil();
      out := [];
      var i := 0;
      assert rs[..0] == [];
      while i < |rs|
        invariant 0 <= i <= |rs|
        invariant Canonical(out)
        invariant out != [] && i < |rs| ==> out[|out| - 1].end < rs[i].start
        invariant Groups(out) == Groups(rs[..i]) - Span(groups)
      {
        GroupsTake(rs, i);
        CanonicalAt(rs, i);
        out := CutRun(out, rs[i], groups);
        i := i + 1;
      }
      assert rs[..i] == rs;
    }

    /** One step of `Subtract`: append what is left of `r` outside `groups`. */
    static method CutRun(rs: seq<Run>, r: Run, groups: Run) returns (out: seq<Run>)
      requires Canonical(rs) && r.start < r.end && groups.start < groups.end
      requires rs != [] ==> rs[|rs| - 1].end < r.start
      ensures Canonical(out)
      ensures out != [] ==> out[|out| - 1].end <= r.end
      ensures Groups(out) == Groups(rs) + (Span(r) - Span(groups))
    {
      hide *;
      out := rs;
      if r.end <= groups.start || r.start >= groups.end {
        SpanApart(r, groups);
        out := Push(out, r);
      } else {
        SpanCut(r, groups);
        if r.start < groups.start {
          out := Push(out, Run(r.start, groups.start));
        } else {
          EmptySpan(Run(r.start, groups.start));
        }
        if r.end > groups.end {
          out := Push(out, Run(groups.end, r.end));
        } else {
          EmptySpan(Run(groups.end, r.end));
        }
      }
    }

    method Count() returns (n: nat)
      requires Valid()
      ensures n == |Set()|
    {
      n := 0;
      var i := 0;
      while i < |runs|
        invariant 0 <= i <= |runs|
        invariant n == |Groups(runs[..i])|
      {
        GroupsTake(runs, i);
        GroupsBelow(runs, i);
        SpanSize(runs[i]);
        n := n + (runs[i].end - runs[i].start);
        i := i + 1;
      }
      assert runs[..i] == runs;
    }

    method IsComplete(size: nat) returns (b: bool)
      requires Valid()
      ensures b <==> GroupCount(size) == 0 || Set() == Span(Run(0, GroupCount(size)))
    {
      var n := GroupCount(size);
      b := n == 0 || runs == [Run(0, n)];
      if n > 0 {
        GroupsSnoc([], Run(0, n));
        if Set() == Span(Run(0, n)) {
          CanonicalUnique(runs, [Run(0, n)]);
        }
      }
    }

    /** The absent stretches of `within`, in order and maximal. */
    method Gaps(within: Run) returns (out: seq<Run>)
      requires Valid()
      ensures Canonical(out)
      ensures Groups(out) == Span(within) - Set()
    {
      out := GapsOf(runs, within);
    }

    static method GapsOf(rs: seq<Run>, within: Run) returns (out: seq<Run>)
      requires Canonical(rs)
      ensures Canonical(out)
      ensures Groups(out) == Span(within) - Groups(rs)
    {
      hide *;
      CanonicalNil();
      out := [];
      var cursor := within.start;
      var i := 0;
      EmptySpan(Run(cursor, cursor));
      if within.end < within.start {
        EmptySpan(within);
      }
      while i < |rs|
        invariant 0 <= i <= |rs|
        invariant Canonical(out) && within.start <= cursor
        invariant forall k :: 0 <= k < i ==> rs[k].end <= cursor
        invariant out != [] ==> out[|out| - 1].end < cursor
        invariant cursor <= within.end ==> Groups(out) == Span(Run(within.start, cursor)) - Groups(rs)
        invariant cursor > within.end ==> Groups(out) == Span(within) - Groups(rs)
      {
        var r := rs[i];
        if r.end <= cursor {
          i := i + 1;
          continue;
        }
        if r.start >= within.end {
          break;
        }
        if cursor < within.end {
          CanonicalAt(rs, i);
          CursorStep(rs, i, cursor);
          GapStep(rs, within, cursor, r);
        }
        if r.start > cursor {
          out := Push(out, Run(cursor, if r.start <= within.end then r.start else within.end));
        }
        cursor := if cursor >= r.end then cursor else r.end;
        i := i + 1;
        if cursor >= within.end {
          break;
        }
      }
      if cursor < within.end {
        LastGap(rs, within, cursor, i);
        out := Push(out, Run(cursor, within.end));
      }
    }

    /** Groups of `other` that this set lacks. */
    method AddedIn(other: GroupBits) returns (delta: GroupBits)
      requires Valid() && other.Valid()
      ensures fresh(delta) && delta.Valid()
      ensures delta.Set() == other.Set() - Set()
    {
      delta := new GroupBits();
      delta.runs := other.runs;
      var i := 0;
      while i < |runs|
        invariant 0 <= i <= |runs|
        invariant delta.Valid() && fresh(delta)
        invariant delta.Set() == other.Set() - Groups(runs[..i])
      {
        GroupsTake(runs, i);
        delta.Remove(runs[i]);
        i := i + 1;
      }
      assert runs[..i] == runs;
    }

    method ToWire() returns (out: seq<nat>)
      requires Valid()
      ensures out == Wire(runs)
    {
      out := WireOf(runs);
    }

    static method WireOf(rs: seq<Run>) returns (out: seq<nat>)
      requires Canonical(rs)
      ensures out == Wire(rs)
    {
      hide Canonical, Pairs;
      out := [];
      var cursor: nat := 0;
      var i := 0;
      assert rs[0..] == rs;
      while i < |rs|
        invariant 0 <= i <= |rs|
        invariant Canonical(rs[i..])
        invariant i < |rs| ==> cursor <= rs[i].start
        invariant out + Pairs(rs[i..], cursor) == Pairs(rs, 0)
      {
        var r := rs[i];
        assert rs[i..][1..] == rs[i + 1..];
        CanonicalTail(rs[i..]);
        PairsHead(rs[i..], cursor);
        out := out + [r.start - cursor, r.end - r.start];
        cursor := r.end;
        i := i + 1;
      }
      PairsNil(cursor);
      if out != [] && out[0] == 0 {
        out := out[1..];
      } else if out != [] {
        out := [0] + out;
      }
    }

    /** Append a wire run at the tail, coalescing with an adjacent last run. */
    static method Append(rs: seq<Run>, r: Run) returns (out: seq<Run>)
      requires Canonical(rs) && TopEnd(rs) <= r.start <= r.end
      ensures Canonical(out) && TopEnd(out) <= r.end
      ensures Groups(out) == Groups(rs) + Span(r)
    {
      hide Canonical, Groups, Span;
      out := rs;
      if r.start < r.end {
        if rs != [] && rs[|rs| - 1].end == r.start {
          out := Extend(rs, r.end);
        } else {
          out := Push(rs, r);
        }
      } else {
        EmptySpan(r);
      }
    }

    /** Decode a peer's wire list: accepted exactly within the two caps, and then with its own meaning. */
    static method FromWire(w: seq<nat>) returns (res: Option<seq<Run>>)
      ensures res.Some? <==> |w| <= MAX_WIRE_RUNS && WireSum(w) <= MAX_GROUPS
      ensures res.Some? ==> Canonical(res.value) && Groups(res.value) == WireSet(w, 0, true)
    {
      if |w| > MAX_WIRE_RUNS {
        return None;
      }
      hide Canonical, Groups, Span, WireSet, WireSum;
      PairsNil(0);
      WireNil();
      assert w[..0] == [];
      var rs: seq<Run> := [];
      var cursor: nat := 0;
      var present := true;
      var i := 0;
      while i < |w|
        invariant 0 <= i <= |w|
        invariant cursor == WireSum(w[..i]) && cursor <= MAX_GROUPS
        invariant present == (i % 2 == 0)
        invariant Canonical(rs) && TopEnd(rs) <= cursor
        invariant Groups(rs) == WireSet(w[..i], 0, true)
      {
        var end := cursor + w[i];
        WireTake(w, i);
        if end > U64_MAX || end > MAX_GROUPS {
          return None;
        }
        if present {
          rs := Append(rs, Run(cursor, end));
        }
        cursor := end;
        present := !present;
        i := i + 1;
      }
      assert w[..i] == w;
      res := Some(rs);
    }

    /** Decode our own persisted wire: no caps, and what lies past the u64 limit is lost where additions saturate. */
    static method FromLocal(w: seq<nat>) returns (bits: GroupBits)
      ensures fresh(bits) && bits.Valid()
      ensures bits.Set() == Kept(WireSet(w, 0, true))
      ensures WireSum(w) <= U64_MAX ==> bits.Set() == WireSet(w, 0, true)
    {
      hide Canonical, Groups, Span, WireSet, WireSum, Kept;
      WireNil();
      NothingKept();
      assert w[..0] == [];
      bits := new GroupBits();
      var cursor: nat := 0;
      var present := true;
      var i := 0;
      while i < |w|
        invariant 0 <= i <= |w|
        invariant bits.Valid() && fresh(bits)
        invariant present == (i % 2 == 0)
        invariant cursor == Min(WireSum(w[..i]), U64_MAX)
        invariant bits.Set() == Kept(WireSet(w[..i], 0, true))
      {
        var end := Min(cursor + w[i], U64_MAX);
        WireTake(w, i);
        KeptSpan(WireSet(w[..i], 0, true), WireSum(w[..i]), w[i], cursor, end);
        assert WireSet(w[..i], 0, true) + {} == WireSet(w[..i], 0, true);
        if present && w[i] > 0 {
          bits.Add(Run(cursor, end));
        } else {
          EmptySpan(Run(cursor, cursor));
        }
        cursor := end;
        present := !present;
        i := i + 1;
      }
      assert w[..i] == w;
      AllKept(w);
    }
  }

  /** The groups a u64 counts up to. */
  ghost function Kept(S: set<nat>): set<nat> { set g | g in S && g < U64_MAX }

  lemma NothingKept()
    ensures Kept({}) == {}
  {
  }

  /** A run whose ends saturate holds what the unbounded run holds below the limit. */
  lemma KeptSpan(S: set<nat>, start: nat, n: nat, cursor: nat, end: nat)
    requires cursor == Min(start, U64_MAX) && end == Min(cursor + n, U64_MAX)
    ensures Kept(S + Span(Run(start, start + n))) == Kept(S) + Span(Run(cursor, end))
  {
    var a, b := Kept(S + Span(Run(start, start + n))), Kept(S) + Span(Run(cursor, end));
    assert forall g :: g in a <==> g in b;
  }

  lemma {:induction false} WireBelow(w: seq<nat>, cursor: nat, present: bool)
    ensures forall g :: g in WireSet(w, cursor, present) ==> g < cursor + WireSum(w)
  {
    if w != [] {
      WireBelow(w[1..], cursor + w[0], !present);
    }
  }

  lemma AllKept(w: seq<nat>)
    ensures WireSum(w) <= U64_MAX ==> Kept(WireSet(w, 0, true)) == WireSet(w, 0, true)
  {
    WireBelow(w, 0, true);
    assert WireSum(w) <= U64_MAX ==> forall g :: g in WireSet(w, 0, true) ==> g < U64_MAX;
  }

  /** Sending a present set and decoding it gives the same runs back, exactly within the two caps. */
  method RoundTrip(rs: seq<Run>) returns (res: Option<seq<Run>>)
    requires Canonical(rs)
    ensures res == if |Wire(rs)| <= MAX_WIRE_RUNS && TopEnd(rs) <= MAX_GROUPS then Some(rs) else None
  {
    var b := new GroupBits();
    b.runs := rs;
    var w := b.ToWire();
    res := GroupBits.FromWire(w);
    WireMeans(rs);
    if res.Some? {
      CanonicalUnique(res.value, rs);
    }
  }

  /** A record's own wire decodes to what was stored, with no cap at all. */
  method LocalRoundTrip(rs: seq<Run>) returns (out: seq<Run>)
    requires Canonical(rs) && TopEnd(rs) <= U64_MAX
    ensures out == rs
  {
    var b := new GroupBits();
    b.runs := rs;
    var w := b.ToWire();
    var back := GroupBits.FromLocal(w);
    WireMeans(rs);
    CanonicalUnique(back.runs, rs);
    out := back.runs;
  }

  /** On every wire the peer-facing decoder accepts, the local decoder gives the same runs. */
  method LocalAgrees(w: seq<nat>) returns (peer: Option<seq<Run>>, local: seq<Run>)
    ensures peer.Some? <==> |w| <= MAX_WIRE_RUNS && WireSum(w) <= MAX_GROUPS
    ensures peer.Some? ==> peer.value == local
  {
    peer := GroupBits.FromWire(w);
    var bits := GroupBits.FromLocal(w);
    local := bits.runs;
    if peer.Some? {
      CanonicalUnique(peer.value, local);
    }
  }
}
