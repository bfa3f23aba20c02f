/** The present set of an object: sorted runs of chunk-group numbers, read as a finite set. */
module GroupRuns {
  import opened Prelude

  const GROUP_BYTES: nat := 16384
  const CHUNKS_PER_GROUP: nat := 16
  const CHUNK_BYTES: nat := 1024
  const MAX_GROUPS: nat := 67108864
  const MAX_WIRE_RUNS: nat := 131072

  /** A half-open range of group numbers (or of bytes). */
  datatype Run = Run(start: nat, end: nat)

  /** Membership of one number in one run. */
  predicate InRun(r: Run, g: int) { r.start <= g < r.end }

  /** Membership in a list of runs. */
  ghost predicate Has(rs: seq<Run>, g: int)
  {
    exists i :: 0 <= i < |rs| && InRun(rs[i], g)
  }

  ghost function Span(r: Run): set<nat> { set g: nat | r.start <= g < r.end && InRun(r, g) }

  /** The set a list of runs stands for. */
  ghost function Groups(rs: seq<Run>): set<nat>
  {
    if rs == [] then {} else Groups(rs[..|rs| - 1]) + Span(rs[|rs| - 1])
  }

  /** The set and the run-by-run reading agree. */
  lemma {:induction false} GroupsHas(rs: seq<Run>, g: int)
    ensures g in Groups(rs) <==> Has(rs, g)
  {
    if rs != [] {
      var front, last := rs[..|rs| - 1], rs[|rs| - 1];
      GroupsHas(front, g);
      assert rs == front + [last];
      HasSnoc(front, last, g);
    }
  }

  lemma GroupsSnoc(rs: seq<Run>, r: Run)
    ensures Groups(rs + [r]) == Groups(rs) + Span(r)
  {
    assert (rs + [r])[..|rs + [r]| - 1] == rs;
  }

  lemma GroupsTake(rs: seq<Run>, k: nat)
    requires k < |rs|
    ensures Groups(rs[..k + 1]) == Groups(rs[..k]) + Span(rs[k])
  {
    assert rs[..k + 1] == rs[..k] + [rs[k]];
    GroupsSnoc(rs[..k], rs[k]);
  }

  /** Runs are non-empty, sorted, disjoint and never adjacent. */
  ghost predicate Canonical(rs: seq<Run>)
  {
    && (forall i :: 0 <= i < |rs| ==> rs[i].start < rs[i].end)
    && (forall i, j :: 0 <= i < j < |rs| ==> rs[i].end < rs[j].start)
  }

  lemma HasCons(rs: seq<Run>, g: int)
    requires rs != []
    ensures Has(rs, g) <==> InRun(rs[0], g) || Has(rs[1..], g)
  {
    if Has(rs[1..], g) {
      var i :| 0 <= i < |rs[1..]| && InRun(rs[1..][i], g);
      assert InRun(rs[i + 1], g);
    }
    if Has(rs, g) && !InRun(rs[0], g) {
      var i :| 0 <= i < |rs| && InRun(rs[i], g);
      assert InRun(rs[1..][i - 1], g);
    }
  }

  lemma HasSnoc(rs: seq<Run>, r: Run, g: int)
    ensures Has(rs + [r], g) <==> Has(rs, g) || InRun(r, g)
  {
    if Has(rs, g) {
      var i :| 0 <= i < |rs| && InRun(rs[i], g);
      assert InRun((rs + [r])[i], g);
    }
    if InRun(r, g) {
      assert InRun((rs + [r])[|rs|], g);
    }
  }

  /** Appending past the tail keeps a list canonical. */
  lemma CanonicalSnoc(rs: seq<Run>, r: Run)
    requires Canonical(rs) && r.start < r.end
    requires rs != [] ==> rs[|rs| - 1].end < r.start
    ensures Canonical(rs + [r])
  {
    forall i, j | 0 <= i < j < |rs + [r]|
      ensures (rs + [r])[i].end < (rs + [r])[j].start
    {
      if j == |rs| && i < |rs| - 1 {
        assert rs[i].end < rs[|rs| - 1].start;
      }
    }
  }

  /** A later run shares no group with the runs before it. */
  lemma GroupsBelow(rs: seq<Run>, k: nat)
    requires Canonical(rs) && k < |rs|
    ensures Groups(rs[..k]) !! Span(rs[k])
  {
    forall g | g in Groups(rs[..k])
      ensures g !in Span(rs[k])
    {
      GroupsHas(rs[..k], g);
      var i :| 0 <= i < |rs[..k]| && InRun(rs[..k][i], g);
      assert rs[i].end < rs[k].start;
    }
  }

  lemma SpanSplit(a: nat, b: nat, c: nat)
    requires a <= b <= c
    ensures Span(Run(a, c)) == Span(Run(a, b)) + Span(Run(b, c))
  {
  }

  lemma SpanMerge(a: Run, b: Run)
    requires a.start < a.end && b.start < b.end
    requires a.start <= b.end && b.start <= a.end
    ensures Span(Run(Min(a.start, b.start), Max(a.end, b.end))) == Span(a) + Span(b)
  {
  }

  lemma {:induction false} SpanSize(r: Run)
    requires r.start <= r.end
    ensures |Span(r)| == r.end - r.start
    decreases r.end
  {
    if r.start == r.end {
      assert Span(r) == {};
    } else {
      var s := Run(r.start, r.end - 1);
      SpanSize(s);
      assert Span(r) == Span(s) + {r.end - 1};
    }
  }

  /** Where the runs before `i` end by `cursor`, everything up to run `i` is absent and run `i` is present. */
  lemma CursorStep(rs: seq<Run>, i: nat, cursor: nat)
    requires Canonical(rs) && i < |rs|
    requires forall k :: 0 <= k < i ==> rs[k].end <= cursor
    ensures Span(Run(cursor, rs[i].start)) !! Groups(rs)
    ensures Span(rs[i]) <= Groups(rs)
  {
    forall g: nat
      ensures g in Span(Run(cursor, rs[i].start)) ==> g !in Groups(rs)
      ensures g in Span(rs[i]) ==> g in Groups(rs)
    {
      GroupsHas(rs, g);
      if g in Span(rs[i]) {
        assert InRun(rs[i], g);
      }
    }
  }

  lemma PastTheEnd(rs: seq<Run>, r: Run)
    requires forall k :: 0 <= k < |rs| ==> rs[k].end <= r.start || r.end <= rs[k].start
    ensures Span(r) !! Groups(rs)
  {
    forall g: nat | g in Span(r)
      ensures g !in Groups(rs)
    {
      GroupsHas(rs, g);
    }
  }

  /** A canonical list contains a whole non-empty range exactly when a single run does. */
  lemma RangeInOneRun(rs: seq<Run>, r: Run)
    requires Canonical(rs) && r.start < r.end
    requires forall g :: r.start <= g < r.end ==> Has(rs, g)
    ensures exists i :: 0 <= i < |rs| && rs[i].start <= r.start && r.end <= rs[i].end
  {
    assert Has(rs, r.start);
    var i :| 0 <= i < |rs| && InRun(rs[i], r.start);
    assert !Has(rs, rs[i].end);
  }

  /** Canonical lists are determined by the set they stand for. */
  lemma CanonicalUnique(a: seq<Run>, b: seq<Run>)
    requires Canonical(a) && Canonical(b)
    requires Groups(a) == Groups(b)
    ensures a == b
  {
    forall g
      ensures Has(a, g) <==> Has(b, g)
    {
      GroupsHas(a, g);
      GroupsHas(b, g);
    }
    CanonicalSameRuns(a, b);
  }

  lemma {:induction false} CanonicalSameRuns(a: seq<Run>, b: seq<Run>)
    requires Canonical(a) && Canonical(b)
    requires forall g :: Has(a, g) <==> Has(b, g)
    ensures a == b
  {
    if a == [] {
      if b != [] {
        assert InRun(b[0], b[0].start);
        assert Has(b, b[0].start);
      }
    } else if b == [] {
      assert InRun(a[0], a[0].start);
      assert Has(a, a[0].start);
    } else {
      FirstRunsAgree(a, b);
      forall g
        ensures Has(a[1..], g) <==> Has(b[1..], g)
      {
        HasCons(a, g);
        HasCons(b, g);
        TailAvoidsHead(a, g);
        TailAvoidsHead(b, g);
      }
      CanonicalSameRuns(a[1..], b[1..]);
      assert a == [a[0]] + a[1..];
      assert b == [b[0]] + b[1..];
    }
  }

  lemma TailAvoidsHead(a: seq<Run>, g: int)
    requires Canonical(a) && a != []
    ensures Has(a[1..], g) ==> !InRun(a[0], g)
  {
  }

  lemma FirstRunsAgree(a: seq<Run>, b: seq<Run>)
    requires Canonical(a) && Canonical(b) && a != [] && b != []
    requires forall g :: Has(a, g) <==> Has(b, g)
    ensures a[0] == b[0]
  {
    FirstRunLeq(a, b);
    FirstRunLeq(b, a);
    FirstRunEnd(a, b);
    FirstRunEnd(b, a);
  }

  lemma FirstRunLeq(a: seq<Run>, b: seq<Run>)
    requires Canonical(a) && Canonical(b) && a != [] && b != []
    requires forall g :: Has(a, g) ==> Has(b, g)
    ensures b[0].start <= a[0].start
  {
    assert InRun(a[0], a[0].start);
    assert Has(b, a[0].start);
    var i :| 0 <= i < |b| && InRun(b[i], a[0].start);
    assert i == 0 || b[0].end < b[i].start;
  }

  lemma FirstRunEnd(a: seq<Run>, b: seq<Run>)
    requires Canonical(a) && Canonical(b) && a != [] && b != []
    requires forall g :: Has(a, g) ==> Has(b, g)
    requires a[0].start == b[0].start
    ensures a[0].end <= b[0].end
  {
    forall g | a[0].start <= g < a[0].end
      ensures Has(b, g)
    {
      assert InRun(a[0], g);
      assert Has(a, g);
    }
    RangeInOneRun(b, a[0]);
    var i :| 0 <= i < |b| && b[i].start <= a[0].start && a[0].end <= b[i].end;
    assert i == 0;
  }
}
