/**
 * Which membership an assignment gives, said without its loops: the greedy fill of what is carried, kept while few
 * bundles are small, and otherwise the greedy fill from nothing.
 */
module BundleFill {
  import opened Prelude
  import opened Lex
  import opened Sorting
  import opened Unicode
  import opened Bundle
  import opened BundleProofs

  // ---- sizes and survivors ----

  lemma ConcatSnoc(files: Files, b: seq<Path>, p: Path)
    ensures Concat(files, b + [p]) == Concat(files, b) + Bytes(files, p)
  {
    assert (b + [p])[..|b|] == b;
  }

  lemma RegroupAny<T>(a: seq<T>, b: seq<T>, c: seq<T>)
    ensures a + b + c == a + (b + c)
  {
  }

  /** A bundle's size and bytes are those of its members, one after the other. */
  lemma {:induction false} SizesAdd(files: Files, a: seq<Path>, b: seq<Path>)
    ensures BundleSize(files, a + b) == BundleSize(files, a) + BundleSize(files, b)
    ensures Concat(files, a + b) == Concat(files, a) + Concat(files, b)
    decreases |b|
  {
    if b == [] {
      assert a + b == a;
    } else {
      hide BundleSize, Concat, Bytes;
      var front, p := b[..|b| - 1], b[|b| - 1];
      SizesAdd(files, a, front);
      assert b == front + [p];
      Regroup(a, front, [p]);
      SizeSnoc(files, a + front, p);
      SizeSnoc(files, front, p);
      ConcatSnoc(files, a + front, p);
      ConcatSnoc(files, front, p);
      RegroupAny(Concat(files, a), Concat(files, front), Bytes(files, p));
    }
  }

  lemma SizeOfOne(files: Files, p: Path)
    requires p in files
    ensures BundleSize(files, []) == 0 && BundleSize(files, [p]) == |files[p]|
    ensures Concat(files, []) == [] && Concat(files, [p]) == files[p]
  {
    assert [p][..0] == [];
  }

  lemma SurvivorsCons(files: Files, p: Path, rest: seq<Path>)
    ensures Survivors(files, [p] + rest) == (if p in files then [p] else []) + Survivors(files, rest)
  {
    assert ([p] + rest)[1..] == rest;
  }

  /** Survivors are the members that still exist, in their order. */
  lemma {:induction false} SurvivorsFilter(files: Files, a: seq<Path>, b: seq<Path>)
    ensures Survivors(files, []) == [] && forall p :: Survivors(files, [p]) == if p in files then [p] else []
    ensures Survivors(files, a + b) == Survivors(files, a) + Survivors(files, b)
  {
    forall p: Path
      ensures Survivors(files, [p]) == if p in files then [p] else []
    {
      assert [p][1..] == [];
    }
    if a == [] {
      assert a + b == b;
    } else {
      hide Survivors;
      SurvivorsFilter(files, a[1..], b);
      assert a == [a[0]] + a[1..] && a + b == [a[0]] + (a[1..] + b);
      SurvivorsCons(files, a[0], a[1..]);
      SurvivorsCons(files, a[0], a[1..] + b);
      var first := if a[0] in files then [a[0]] else [];
      assert Survivors(files, a) == first + Survivors(files, a[1..]);
      RegroupAny(first, Survivors(files, a[1..]), Survivors(files, b));
    }
  }

  lemma CarriedCons(files: Files, m: seq<Path>, rest: seq<seq<Path>>)
    ensures Carried(files, [m] + rest) == (if Survivors(files, m) == [] then [] else [Survivors(files, m)]) + Carried(files, rest)
  {
    assert ([m] + rest)[1..] == rest;
  }

  /** What is carried of each bundle follows what is carried of those before it; a bundle without survivors is gone. */
  lemma {:induction false} CarriedFilter(files: Files, a: seq<seq<Path>>, b: seq<seq<Path>>)
    ensures Carried(files, a + b) == Carried(files, a) + Carried(files, b)
    decreases |a|
  {
    if a == [] {
      assert a + b == b;
    } else {
      hide Survivors, Carried;
      CarriedFilter(files, a[1..], b);
      assert a == [a[0]] + a[1..] && a + b == [a[0]] + (a[1..] + b);
      CarriedCons(files, a[0], a[1..]);
      CarriedCons(files, a[0], a[1..] + b);
      var first := if Survivors(files, a[0]) == [] then [] else [Survivors(files, a[0])];
      assert Carried(files, a) == first + Carried(files, a[1..]);
      RegroupAny(first, Carried(files, a[1..]), Carried(files, b));
    }
  }

  lemma CarriedOne(files: Files, m: seq<Path>)
    ensures Carried(files, []) == []
    ensures Carried(files, [m]) == if Survivors(files, m) == [] then [] else [Survivors(files, m)]
  {
    hide Survivors;
    assert [m][1..] == [];
  }

  // ---- the greedy fill ----

  /** The first bundle a fill of `start` may add to. */
  function Tail(start: seq<seq<Path>>): int { if start == [] then 0 else |start| - 1 }

  /** How many members of bundle `i` were there before. */
  function Old(start: seq<seq<Path>>, i: int): nat { if 0 <= i < |start| then |start[i]| else 0 }

  /**
   * `ms` continues `start` with `paths` in order: bundles before the tail stay, no bundle opens before the one in front
   * of it reached the target, and none takes a file once it has.
   */
  ghost predicate GreedyFill(files: Files, start: seq<seq<Path>>, paths: seq<Path>, ms: seq<seq<Path>>)
  {
    && |start| <= |ms| && Flat(ms) == Flat(start) + paths
    && (forall i :: 0 <= i < |start| - 1 ==> ms[i] == start[i])
    && (start != [] ==> start[|start| - 1] <= ms[|start| - 1])
    && (forall i :: |start| <= i < |ms| ==> ms[i] != [])
    && (forall i :: Tail(start) <= i < |ms| - 1 ==> BundleSize(files, ms[i]) >= BUNDLE_TARGET)
    && (forall i, j :: Tail(start) <= i < |ms| && Old(start, i) <= j < |ms[i]| ==>
          BundleSize(files, ms[i][..j]) < BUNDLE_TARGET)
  }

  /** One more file: into the last bundle while that is short of the target, otherwise into a new one. */
  lemma FillStep(files: Files, start: seq<seq<Path>>, paths: seq<Path>, ms: seq<seq<Path>>, p: Path)
    requires GreedyFill(files, start, paths, ms)
    ensures GreedyFill(files, start, paths + [p], AppendOne(files, ms, p))
  {
    hide BundleSize, Flat;
    var next := AppendOne(files, ms, p);
    AppendOneFlat(files, ms, p);
    Regroup(Flat(start), paths, [p]);
    assert BundleSize(files, []) == 0 by { NoSize(files); }
    forall i, j | Tail(start) <= i < |next| && Old(start, i) <= j < |next[i]|
      ensures BundleSize(files, next[i][..j]) < BUNDLE_TARGET
    {
      if i < |ms| && j < |ms[i]| {
        assert next[i][..j] == ms[i][..j];
      } else if i < |ms| {
        assert next[i][..j] == ms[i];
      } else {
        assert next[i][..j] == [];
      }
    }
  }

  /** The membership before its last file came. */
  function Unfilled(start: seq<seq<Path>>, ms: seq<seq<Path>>): (r: seq<seq<Path>>)
    requires ms != [] && ms[|ms| - 1] != []
  {
    var front, last := ms[..|ms| - 1], ms[|ms| - 1];
    if |ms| > |start| && |last| == 1 then front else front + [last[..|last| - 1]]
  }

  lemma LastFlat(ms: seq<seq<Path>>, rest: seq<Path>, p: Path)
    requires ms != [] && ms[|ms| - 1] != [] && Flat(ms) == rest + [p]
    ensures var front, last := ms[..|ms| - 1], ms[|ms| - 1];
            last[|last| - 1] == p && Flat(front) + last[..|last| - 1] == rest
  {
    hide Flat;
    var front, last := ms[..|ms| - 1], ms[|ms| - 1];
    assert ms == front + [last];
    FlatJoin(front, [last]);
    FlatOne(last);
    var all := Flat(ms);
    assert all[|all| - 1] == p && all[|all| - 1] == last[|last| - 1];
    assert all[..|all| - 1] == rest && all[..|all| - 1] == Flat(front) + last[..|last| - 1];
  }

  lemma FlatLength(a: seq<seq<Path>>, b: seq<seq<Path>>)
    requires |a| == |b| && forall i :: 0 <= i < |a| - 1 ==> a[i] == b[i]
    ensures a != [] ==> |Flat(b)| - |Flat(a)| == |b[|b| - 1]| - |a[|a| - 1]|
  {
    hide Flat;
    if a != [] {
      var front := a[..|a| - 1];
      assert a == front + [a[|a| - 1]] && b == front + [b[|b| - 1]];
      FlatJoin(front, [a[|a| - 1]]);
      FlatJoin(front, [b[|b| - 1]]);
      FlatOne(a[|a| - 1]);
      FlatOne(b[|b| - 1]);
    }
  }

  /** A fill with files to place has a last bundle, and its last member is new. */
  lemma LastIsNew(files: Files, start: seq<seq<Path>>, paths: seq<Path>, ms: seq<seq<Path>>)
    requires GreedyFill(files, start, paths, ms) && paths != []
    ensures ms != [] && ms[|ms| - 1] != [] && Old(start, |ms| - 1) < |ms[|ms| - 1]|
  {
    hide BundleSize, Flat;
    if |ms| == |start| {
      FlatLength(start, ms);
    }
  }

  /** What `Unfilled` does to the members. */
  lemma UnfilledFlat(start: seq<seq<Path>>, paths: seq<Path>, p: Path, ms: seq<seq<Path>>)
    requires ms != [] && ms[|ms| - 1] != [] && Flat(ms) == Flat(start) + (paths + [p])
    ensures Flat(Unfilled(start, ms)) == Flat(start) + paths && ms[|ms| - 1] == ms[|ms| - 1][..|ms[|ms| - 1]| - 1] + [p]
  {
    hide Flat;
    var front, last := ms[..|ms| - 1], ms[|ms| - 1];
    Regroup(Flat(start), paths, [p]);
    LastFlat(ms, Flat(start) + paths, p);
    FlatJoin(front, [last[..|last| - 1]]);
    FlatOne(last[..|last| - 1]);
    assert last == last[..|last| - 1] + [p];
    if |ms| > |start| && |last| == 1 {
      assert last[..0] == [];
    }
  }

  lemma FillBack(files: Files, start: seq<seq<Path>>, paths: seq<Path>, p: Path, ms: seq<seq<Path>>)
    requires GreedyFill(files, start, paths + [p], ms)
    ensures ms != [] && ms[|ms| - 1] != []
    ensures GreedyFill(files, start, paths, Unfilled(start, ms)) && AppendOne(files, Unfilled(start, ms), p) == ms
  {
    hide BundleSize, Flat, GreedyFill;
    LastIsNew(files, start, paths + [p], ms);
    if |ms| > |start| && |ms[|ms| - 1]| == 1 {
      BundleBack(files, start, paths, p, ms);
    } else {
      MemberBack(files, start, paths, p, ms);
    }
  }

  /** A bundle that the last file opened goes away with it. */
  lemma BundleBack(files: Files, start: seq<seq<Path>>, paths: seq<Path>, p: Path, ms: seq<seq<Path>>)
    requires GreedyFill(files, start, paths + [p], ms)
    requires |ms| > |start| && |ms[|ms| - 1]| == 1
    ensures GreedyFill(files, start, paths, ms[..|ms| - 1]) && AppendOne(files, ms[..|ms| - 1], p) == ms
  {
    hide BundleSize, Flat;
    var before := ms[..|ms| - 1];
    UnfilledFlat(start, paths, p, ms);
    assert ms == before + [[p]];
  }

  /** A bundle that the last file went into was short of the target without it. */
  lemma MemberBack(files: Files, start: seq<seq<Path>>, paths: seq<Path>, p: Path, ms: seq<seq<Path>>)
    requires GreedyFill(files, start, paths + [p], ms)
    requires ms != [] && ms[|ms| - 1] != [] && Old(start, |ms| - 1) < |ms[|ms| - 1]|
    requires |ms| > |start| ==> |ms[|ms| - 1]| > 1
    ensures GreedyFill(files, start, paths, Unfilled(start, ms)) && AppendOne(files, Unfilled(start, ms), p) == ms
  {
    hide BundleSize, Flat;
    var n, last := |ms| - 1, ms[|ms| - 1];
    var before := Unfilled(start, ms);
    UnfilledFlat(start, paths, p, ms);
    assert before == ms[..n] + [last[..|last| - 1]] && ms == ms[..n] + [last];
    ShortBefore(files, start, paths + [p], ms, n, |last| - 1);
    forall i, j | Tail(start) <= i < |before| && Old(start, i) <= j < |before[i]|
      ensures BundleSize(files, before[i][..j]) < BUNDLE_TARGET
    {
      if i == n {
        ShorterPrefix(last, j);
      }
      ShortBefore(files, start, paths + [p], ms, i, j);
    }
  }

  lemma ShorterPrefix(s: seq<Path>, j: nat)
    requires j < |s|
    ensures s[..|s| - 1][..j] == s[..j]
  {
  }

  lemma ShortBefore(files: Files, start: seq<seq<Path>>, paths: seq<Path>, ms: seq<seq<Path>>, i: nat, j: nat)
    requires GreedyFill(files, start, paths, ms) && Tail(start) <= i < |ms| && Old(start, i) <= j < |ms[i]|
    ensures BundleSize(files, ms[i][..j]) < BUNDLE_TARGET
  {
    hide BundleSize, Flat;
  }

  lemma NothingToFill(files: Files, start: seq<seq<Path>>, ms: seq<seq<Path>>)
    requires GreedyFill(files, start, [], ms)
    ensures ms == start
  {
    hide BundleSize, Flat;
    assert Flat(start) + [] == Flat(start);
    if |ms| > |start| {
      assert ms == ms[..|ms| - 1] + [ms[|ms| - 1]];
      LongerFlat(start, ms[..|ms| - 1], ms[|ms| - 1]);
      assert false;
    } else if start != [] {
      FlatLength(start, ms);
      assert ms[|ms| - 1] == start[|start| - 1];
    }
  }

  /** What comes behind `start`, in its last bundle or further on, lengthens the list of members. */
  lemma LongerFlat(start: seq<seq<Path>>, front: seq<seq<Path>>, last: seq<Path>)
    requires |start| <= |front| && last != []
    requires (forall i :: 0 <= i < |start| - 1 ==> front[i] == start[i]) && (start != [] ==> start[|start| - 1] <= front[|start| - 1])
    ensures |Flat(start)| < |Flat(front + [last])|
  {
    hide *;
    FlatJoin(front, [last]);
    FlatOne(last);
    FlatSplit(front, |start|);
    var own := front[..|start|];
    if start == [] {
      assert start == own;
    } else {
      FlatLength(start, own);
    }
  }

  lemma FlatSplit(ms: seq<seq<Path>>, n: nat)
    requires n <= |ms|
    ensures |Flat(ms[..n])| <= |Flat(ms)|
  {
    hide Flat;
    assert ms == ms[..n] + ms[n..];
    FlatJoin(ms[..n], ms[n..]);
  }

  /** There is exactly one greedy fill, and appending file by file gives it. */
  lemma {:induction false} FillIff(files: Files, start: seq<seq<Path>>, paths: seq<Path>, ms: seq<seq<Path>>)
    ensures GreedyFill(files, start, paths, ms) <==> ms == AppendAll(files, start, paths)
    decreases |paths|
  {
    hide GreedyFill, AppendOne, Flat;
    if paths == [] {
      if GreedyFill(files, start, [], ms) {
        NothingToFill(files, start, ms);
      }
      FillNothing(files, start);
    } else {
      var front, p := paths[..|paths| - 1], paths[|paths| - 1];
      assert paths == front + [p];
      var before := AppendAll(files, start, front);
      FillIff(files, start, front, before);
      FillStep(files, start, front, before, p);
      if GreedyFill(files, start, paths, ms) {
        FillBack(files, start, front, p, ms);
        FillIff(files, start, front, Unfilled(start, ms));
      }
    }
  }

  lemma FillNothing(files: Files, start: seq<seq<Path>>)
    ensures GreedyFill(files, start, [], start)
  {
    assert Flat(start) + [] == Flat(start);
  }

  // ---- the assignment ----

  /** `paths` are the files with the given property, in path order. */
  ghost predicate InPathOrder(paths: seq<Path>, want: set<Path>)
  {
    Increasing(paths) && forall p :: p in paths <==> p in want
  }

  /** The files no previous bundle held. */
  ghost function Unheld(files: Files, prev: seq<seq<Path>>): (S: set<Path>)
  {
    set p | p in files && p !in Flat(prev)
  }

  /**
   * `result` is the greedy fill of what is carried with the new files, if at most `max(n / 4, 2)` of its bundles before
   * the last are under half the target, and otherwise the greedy fill of all files from nothing.
   */
  ghost predicate IsAssignment(files: Files, prev: seq<seq<Path>>, result: seq<seq<Path>>)
  {
    exists added, all, ms :: AssignmentBy(files, prev, result, added, all, ms)
  }

  ghost predicate AssignmentBy(files: Files, prev: seq<seq<Path>>, result: seq<seq<Path>>, added: seq<Path>, all: seq<Path>, ms: seq<seq<Path>>)
  {
    && InPathOrder(added, Unheld(files, prev)) && InPathOrder(all, files.Keys)
    && GreedyFill(files, Carried(files, prev), added, ms)
    && if |SmallBundles(files, ms)| <= Max(|ms| / 4, 2) then result == ms else GreedyFill(files, [], all, result)
  }

  lemma ByOrder(files: Files, prev: seq<seq<Path>>, result: seq<seq<Path>>, added: seq<Path>, all: seq<Path>, ms: seq<seq<Path>>)
    requires InPathOrder(added, Unheld(files, prev)) && InPathOrder(all, files.Keys)
    ensures AssignmentBy(files, prev, result, added, all, ms) <==> ms == Grown(files, prev) && result == Assigned(files, prev)
  {
    hide GreedyFill, AppendAll, BundleSize, Flat, Carried, NeedsRepack, Increasing, FewSmall, SmallBundles;
    NewAre(files, prev);
    assert NewFiles(files, Carried(files, prev)) == Unheld(files, prev);
    IncreasingUnique(added, InOrder(Unheld(files, prev)));
    IncreasingUnique(all, InOrder(files.Keys));
    SmallAreFragments(files, Grown(files, prev));
    Few(files, Grown(files, prev));
    FillIff(files, Carried(files, prev), added, ms);
    FillIff(files, [], all, result);
  }

  /** Exactly one membership is an assignment, and it is the one computed. */
  lemma AssignmentIff(files: Files, prev: seq<seq<Path>>, result: seq<seq<Path>>)
    ensures IsAssignment(files, prev, result) <==> result == Assigned(files, prev)
  {
    hide AssignmentBy, Grown, Assigned, Increasing;
    if IsAssignment(files, prev, result) {
      var added: seq<Path>, all: seq<Path>, ms: seq<seq<Path>> :| AssignmentBy(files, prev, result, added, all, ms);
      ByParts(files, prev, result, added, all, ms);
      ByOrder(files, prev, result, added, all, ms);
    }
    ByOrder(files, prev, result, InOrder(Unheld(files, prev)), InOrder(files.Keys), Grown(files, prev));
  }

  lemma ByParts(files: Files, prev: seq<seq<Path>>, result: seq<seq<Path>>, added: seq<Path>, all: seq<Path>, ms: seq<seq<Path>>)
    requires AssignmentBy(files, prev, result, added, all, ms)
    ensures InPathOrder(added, Unheld(files, prev)) && InPathOrder(all, files.Keys)
  {
  }

  lemma Few(files: Files, ms: seq<seq<Path>>)
    ensures FewSmall(files, ms) <==> |SmallBundles(files, ms)| <= Max(|ms| / 4, 2)
  {
  }

  lemma NewAre(files: Files, prev: seq<seq<Path>>)
    ensures forall p :: p in NewFiles(files, Carried(files, prev)) <==> p in files && p !in Flat(prev)
  {
    hide Flat, Carried;
    forall p | p in files
      ensures p in Flat(Carried(files, prev)) <==> p in Flat(prev)
    {
      CarriedCount(files, prev, p);
      assert p in Flat(prev) <==> multiset(Flat(prev))[p] > 0;
      assert p in Flat(Carried(files, prev)) <==> multiset(Flat(Carried(files, prev)))[p] > 0;
    }
  }
}
