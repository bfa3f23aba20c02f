/** What an assignment keeps, where it puts every file, and how full its bundles are. */
module BundleProofs {
  import opened Prelude
  import opened Lex
  import opened Sorting
  import opened Unicode
  import opened Bundle

  // ---- every file in exactly one bundle ----

  ghost predicate NoDuplicates(s: seq<Path>)
  {
    forall p :: multiset(s)[p] <= 1
  }

  /** Each file is a member exactly once, and nothing else is a member. */
  ghost predicate PlacedOnce(files: Files, ms: seq<seq<Path>>)
  {
    forall p :: multiset(Flat(ms))[p] == if p in files then 1 else 0
  }

  lemma Regroup(a: seq<Path>, b: seq<Path>, c: seq<Path>)
    ensures a + b + c == a + (b + c)
  {
  }

  lemma {:induction false} FlatJoin(a: seq<seq<Path>>, b: seq<seq<Path>>)
    ensures Flat(a + b) == Flat(a) + Flat(b)
  {
    if a == [] {
      assert a + b == b;
    } else {
      FlatJoin(a[1..], b);
      assert (a + b)[1..] == a[1..] + b;
      Regroup(a[0], Flat(a[1..]), Flat(b));
    }
  }

  lemma FlatOne(b: seq<Path>)
    ensures Flat([b]) == b
  {
    assert [b][1..] == [];
  }

  lemma AppendOneFlat(files: Files, ms: seq<seq<Path>>, p: Path)
    ensures Flat(AppendOne(files, ms, p)) == Flat(ms) + [p]
  {
    hide BundleSize, Flat;
    if ms != [] && BundleSize(files, ms[|ms| - 1]) < BUNDLE_TARGET {
      var front, tail := ms[..|ms| - 1], ms[|ms| - 1];
      assert ms == front + [tail];
      FlatJoin(front, [tail]);
      FlatJoin(front, [tail + [p]]);
      FlatOne(tail);
      FlatOne(tail + [p]);
    } else {
      FlatJoin(ms, [[p]]);
      FlatOne([p]);
    }
  }

  lemma {:induction false} AppendAllFlat(files: Files, ms: seq<seq<Path>>, paths: seq<Path>)
    ensures Flat(AppendAll(files, ms, paths)) == Flat(ms) + paths
  {
    if paths != [] {
      hide AppendOne, Flat;
      var front, last := paths[..|paths| - 1], paths[|paths| - 1];
      AppendAllFlat(files, ms, front);
      AppendOneFlat(files, AppendAll(files, ms, front), last);
      Regroup(Flat(ms), front, [last]);
      assert paths == front + [last];
    }
  }

  lemma {:induction false} SurvivorsCount(files: Files, b: seq<Path>, p: Path)
    ensures multiset(Survivors(files, b))[p] == if p in files then multiset(b)[p] else 0
  {
    if b != [] {
      SurvivorsCount(files, b[1..], p);
      assert b == [b[0]] + b[1..];
    }
  }

  lemma {:induction false} CarriedCount(files: Files, prev: seq<seq<Path>>, p: Path)
    ensures multiset(Flat(Carried(files, prev)))[p] == if p in files then multiset(Flat(prev))[p] else 0
  {
    if prev != [] {
      hide Survivors;
      var b := Survivors(files, prev[0]);
      CarriedCount(files, prev[1..], p);
      SurvivorsCount(files, prev[0], p);
      var rest := Carried(files, prev[1..]);
      if b == [] {
        assert Carried(files, prev) == rest;
      } else {
        assert Carried(files, prev) == [b] + rest;
        FlatJoin([b], rest);
        FlatOne(b);
      }
    }
  }

  lemma {:induction false} IncreasingCount(s: seq<Path>, p: Path)
    requires Increasing(s)
    ensures multiset(s)[p] == if p in s then 1 else 0
  {
    if s != [] {
      InTail(s, p);
      IncreasingCount(s[1..], p);
      assert s == [s[0]] + s[1..];
    }
  }

  lemma GrownCount(files: Files, prev: seq<seq<Path>>, p: Path)
    ensures multiset(Flat(Grown(files, prev)))[p] ==
            if p !in files then 0
            else if p in Flat(prev) then multiset(Flat(prev))[p]
            else 1
  {
    hide AppendAll, Carried, Flat, Increasing;
    var carried := Carried(files, prev);
    var added := InOrder(NewFiles(files, carried));
    AppendAllFlat(files, carried, added);
    CarriedCount(files, prev, p);
    IncreasingCount(added, p);
    assert p in Flat(carried) <==> multiset(Flat(carried))[p] > 0;
    assert p in Flat(prev) <==> multiset(Flat(prev))[p] > 0;
  }

  lemma RepackedCount(files: Files, p: Path)
    ensures multiset(Flat(Repacked(files)))[p] == if p in files then 1 else 0
  {
    hide AppendAll, Increasing;
    var all := InOrder(files.Keys);
    AppendAllFlat(files, [], all);
    IncreasingCount(all, p);
    assert Flat([]) + all == all;
  }

  /** The bundles before the last that are under half the target. */
  ghost function SmallBundles(files: Files, ms: seq<seq<Path>>): (r: set<int>)
  {
    set i | 0 <= i < |ms| - 1 && BundleSize(files, ms[i]) < BUNDLE_TARGET / 2
  }

  /** Few enough of them to keep the membership as it is. */
  ghost predicate FewSmall(files: Files, ms: seq<seq<Path>>)
  {
    |SmallBundles(files, ms)| <= Max(|ms| / 4, 2)
  }

  ghost function SmallAmong(files: Files, ms: seq<seq<Path>>): (r: set<int>)
  {
    set i | 0 <= i < |ms| && BundleSize(files, ms[i]) < BUNDLE_TARGET / 2
  }

  lemma {:induction false} SmallCounted(files: Files, ms: seq<seq<Path>>)
    ensures CountSmall(files, ms) == |SmallAmong(files, ms)|
  {
    hide BundleSize;
    if ms == [] {
      assert SmallAmong(files, ms) == {};
    } else {
      var front, k := ms[..|ms| - 1], |ms| - 1;
      SmallCounted(files, front);
      var last := if BundleSize(files, ms[k]) < BUNDLE_TARGET / 2 then {k} else {};
      assert SmallAmong(files, ms) == SmallAmong(files, front) + last;
    }
  }

  lemma SmallAreFragments(files: Files, ms: seq<seq<Path>>)
    ensures Fragmented(files, ms) == |SmallBundles(files, ms)|
    ensures NeedsRepack(files, ms) <==> !FewSmall(files, ms)
  {
    hide BundleSize, CountSmall;
    if |ms| <= 1 {
      assert SmallBundles(files, ms) == {};
      if |ms| == 1 {
        SmallCounted(files, ms[..0]);
        assert SmallAmong(files, ms[..0]) == {};
      }
    } else {
      SmallCounted(files, ms[..|ms| - 1]);
      assert SmallAmong(files, ms[..|ms| - 1]) == SmallBundles(files, ms);
    }
  }

  /**
   * Every file ends up in exactly one bundle precisely when the run repacked or the surviving previous membership
   * named no path twice.
   */
  lemma PlacedOnceIff(files: Files, prev: seq<seq<Path>>)
    ensures PlacedOnce(files, Assigned(files, prev)) <==>
              !FewSmall(files, Grown(files, prev)) || forall p :: p in files ==> multiset(Flat(prev))[p] <= 1
  {
    hide Grown, Repacked, Flat, NeedsRepack, FewSmall;
    SmallAreFragments(files, Grown(files, prev));
    forall p
      ensures NeedsRepack(files, Grown(files, prev)) ==>
                multiset(Flat(Assigned(files, prev)))[p] == if p in files then 1 else 0
      ensures !NeedsRepack(files, Grown(files, prev)) ==>
                (multiset(Flat(Assigned(files, prev)))[p] == (if p in files then 1 else 0) <==>
                  (p in files ==> multiset(Flat(prev))[p] <= 1))
    {
      RepackedCount(files, p);
      GrownCount(files, prev, p);
      assert p in Flat(prev) <==> multiset(Flat(prev))[p] > 0;
    }
  }

  lemma DuplicateFreePlacedOnce(files: Files, prev: seq<seq<Path>>)
    requires NoDuplicates(Flat(prev))
    ensures PlacedOnce(files, Assigned(files, prev))
  {
    PlacedOnceIff(files, prev);
  }

  /** A path listed twice before stays twice: it costs the file its single place. */
  lemma DuplicateStays(files: Files, p: Path)
    requires files.Keys == {p}
    ensures multiset(Flat(Assigned(files, [[p, p]])))[p] == 2
  {
    hide Grown, Flat;
    GrownCount(files, [[p, p]], p);
    FlatOne([p, p]);
    OneBundle(files, p);
    assert multiset([p, p])[p] == 2;
  }

  lemma OneBundle(files: Files, p: Path)
    requires files.Keys == {p}
    ensures |Grown(files, [[p, p]])| == 1
  {
    assert Survivors(files, [p, p]) == [p, p] by {
      assert [p, p][1..] == [p] && [p][1..] == [];
      assert Survivors(files, [p]) == [p];
    }
    assert [[p, p]][1..] == [];
    assert Carried(files, [[p, p]]) == [[p, p]];
    FlatOne([p, p]);
    assert NewFiles(files, [[p, p]]) == {};
    assert InOrder({}) == [];
  }

  // ---- where a file's bytes sit ----

  lemma {:induction false} ConcatLength(files: Files, b: seq<Path>)
    ensures |Concat(files, b)| == BundleSize(files, b)
  {
    if b != [] {
      ConcatLength(files, b[..|b| - 1]);
    }
  }

  /** Member `j` sits behind the members before it. */
  lemma {:induction false} MemberBytes(files: Files, b: seq<Path>, j: nat)
    requires j < |b|
    ensures var off := BundleSize(files, b[..j]);
            off + |Bytes(files, b[j])| <= |Concat(files, b)| &&
            Concat(files, b)[off..off + |Bytes(files, b[j])|] == Bytes(files, b[j])
  {
    var front := b[..|b| - 1];
    if j == |b| - 1 {
      ConcatLength(files, front);
    } else {
      MemberBytes(files, front, j);
      assert front[..j] == b[..j];
      var off, n := BundleSize(files, b[..j]), |Bytes(files, b[j])|;
      assert Concat(files, b)[off..off + n] == Concat(files, front)[off..off + n];
    }
  }

  lemma {:induction false} PlacesInAt(files: Files, b: seq<Path>, idx: nat, j: nat)
    requires j < |b| && forall k :: j < k < |b| ==> b[k] != b[j]
    ensures b[j] in PlacesIn(files, b, idx)
    ensures PlacesIn(files, b, idx)[b[j]] == Place(idx, BundleSize(files, b[..j]), |Bytes(files, b[j])|)
  {
    if j < |b| - 1 {
      var front := b[..|b| - 1];
      PlacesInAt(files, front, idx, j);
      assert front[..j] == b[..j];
    }
  }

  lemma {:induction false} PlacesInKeys(files: Files, b: seq<Path>, idx: nat)
    ensures forall p :: p in PlacesIn(files, b, idx) <==> p in b
  {
    if b != [] {
      PlacesInKeys(files, b[..|b| - 1], idx);
      assert b == b[..|b| - 1] + [b[|b| - 1]];
    }
  }

  lemma {:induction false} PlacesAt(files: Files, ms: seq<seq<Path>>, i: nat, j: nat)
    requires i < |ms| && j < |ms[i]|
    requires forall k :: j < k < |ms[i]| ==> ms[i][k] != ms[i][j]
    requires forall l :: i < l < |ms| ==> ms[i][j] !in ms[l]
    ensures ms[i][j] in Places(files, ms)
    ensures Places(files, ms)[ms[i][j]] == Place(i, BundleSize(files, ms[i][..j]), |Bytes(files, ms[i][j])|)
  {
    var front := ms[..|ms| - 1];
    hide PlacesIn, BundleSize;
    if i == |ms| - 1 {
      PlacesInAt(files, ms[i], i, j);
    } else {
      PlacesAt(files, front, i, j);
      PlacesInKeys(files, ms[|ms| - 1], |ms| - 1);
    }
  }

  lemma {:induction false} PlacesKeys(files: Files, ms: seq<seq<Path>>)
    ensures forall p :: p in Places(files, ms) <==> p in Flat(ms)
  {
    if ms != [] {
      hide PlacesIn;
      var front, last := ms[..|ms| - 1], ms[|ms| - 1];
      PlacesKeys(files, front);
      PlacesInKeys(files, last, |ms| - 1);
      assert ms == front + [last];
      FlatJoin(front, [last]);
      FlatOne(last);
    }
  }

  lemma {:induction false} FlatFind(ms: seq<seq<Path>>, p: Path) returns (i: nat, j: nat)
    requires p in Flat(ms)
    ensures i < |ms| && j < |ms[i]| && ms[i][j] == p
  {
    if p in ms[0] {
      i := 0;
      j :| 0 <= j < |ms[0]| && ms[0][j] == p;
    } else {
      i, j := FlatFind(ms[1..], p);
      i := i + 1;
    }
  }

  lemma {:induction false} InFlat(ms: seq<seq<Path>>, i: nat, j: nat)
    requires i < |ms| && j < |ms[i]|
    ensures ms[i][j] in Flat(ms)
  {
    if i > 0 {
      InFlat(ms[1..], i - 1, j);
    }
  }

  lemma TwoInSeq(s: seq<Path>, j: nat, k: nat)
    requires j < k < |s| && s[j] == s[k]
    ensures multiset(s)[s[j]] >= 2
  {
    var a, b := s[..k], s[k..];
    assert s == a + b;
    assert a[j] == s[j] && b[0] == s[j];
    assert multiset(a)[s[j]] >= 1 && multiset(b)[s[j]] >= 1;
  }

  /** Members of a membership without duplicates are pairwise different. */
  lemma {:induction false} OnlyThere(ms: seq<seq<Path>>, i: nat, j: nat, l: nat, k: nat)
    requires i < |ms| && j < |ms[i]| && l < |ms| && k < |ms[l]| && ms[i][j] == ms[l][k]
    requires NoDuplicates(Flat(ms))
    ensures i == l && j == k
  {
    var rest := ms[1..];
    var p := ms[i][j];
    assert multiset(Flat(ms))[p] == multiset(ms[0])[p] + multiset(Flat(rest))[p];
    if i == 0 && l == 0 {
      if j < k { TwoInSeq(ms[0], j, k); } else if k < j { TwoInSeq(ms[0], k, j); }
    } else if i > 0 && l > 0 {
      forall q
        ensures multiset(Flat(rest))[q] <= 1
      {
        assert multiset(Flat(ms))[q] == multiset(ms[0])[q] + multiset(Flat(rest))[q];
      }
      OnlyThere(rest, i - 1, j, l - 1, k);
    } else {
      var n, m := if i == 0 then l else i, if i == 0 then k else j;
      InFlat(rest, n - 1, m);
    }
  }

  /** The last place in which a membership lists a path. */
  lemma {:induction false} LastPlace(ms: seq<seq<Path>>, p: Path) returns (i: nat, j: nat)
    requires p in Flat(ms)
    ensures i < |ms| && j < |ms[i]| && ms[i][j] == p
    ensures (forall k :: j < k < |ms[i]| ==> ms[i][k] != p) && forall l :: i < l < |ms| ==> p !in ms[l]
  {
    var front, last := ms[..|ms| - 1], ms[|ms| - 1];
    if p in last {
      i := |ms| - 1;
      j := LastIn(last, p);
    } else {
      assert ms == front + [last];
      FlatJoin(front, [last]);
      FlatOne(last);
      i, j := LastPlace(front, p);
    }
  }

  lemma {:induction false} LastIn(b: seq<Path>, p: Path) returns (j: nat)
    requires p in b
    ensures j < |b| && b[j] == p && forall k :: j < k < |b| ==> b[k] != p
  {
    j := |b| - 1;
    if b[j] != p {
      assert b == b[..j] + [b[j]];
      j := LastIn(b[..j], p);
    }
  }

  /** The record of a path names the last place that lists it, and there its own bytes are. */
  lemma LastPlaceRight(files: Files, ms: seq<seq<Path>>, h: Hash, i: nat, j: nat)
    requires i < |ms| && j < |ms[i]| && ms[i][j] in files
    requires (forall k :: j < k < |ms[i]| ==> ms[i][k] != ms[i][j]) && forall l :: i < l < |ms| ==> ms[i][j] !in ms[l]
    ensures var r := Built(files, ms, h);
            var p := ms[i][j];
            && p in r.members && r.members[p] == Place(i, BundleSize(files, ms[i][..j]), |files[p]|)
            && r.members[p].off + |files[p]| <= |r.bundles[i].bytes|
            && r.bundles[i].bytes[r.members[p].off..r.members[p].off + |files[p]|] == files[p]
  {
    hide Flat, BundleSize, Concat;
    PlacesAt(files, ms, i, j);
    MemberBytes(files, ms[i], j);
  }

  /** With each file listed once that is its one place. */
  lemma PlacesRight(files: Files, ms: seq<seq<Path>>, h: Hash, i: nat, j: nat)
    requires PlacedOnce(files, ms) && i < |ms| && j < |ms[i]|
    ensures var r := Built(files, ms, h);
            var p := ms[i][j];
            && p in files && p in r.members && r.members[p] == Place(i, BundleSize(files, ms[i][..j]), |files[p]|)
            && r.members[p].off + |files[p]| <= |r.bundles[i].bytes|
            && r.bundles[i].bytes[r.members[p].off..r.members[p].off + |files[p]|] == files[p]
  {
    hide Flat, BundleSize, Concat, Built;
    OnceNoDuplicates(files, ms);
    var p := ms[i][j];
    assert p in files by {
      InFlat(ms, i, j);
      assert multiset(Flat(ms))[p] > 0;
    }
    forall k | j < k < |ms[i]|
      ensures ms[i][k] != p
    {
      if ms[i][k] == p { OnlyThere(ms, i, j, i, k); }
    }
    forall l | i < l < |ms|
      ensures p !in ms[l]
    {
      if p in ms[l] {
        var k :| 0 <= k < |ms[l]| && ms[l][k] == p;
        OnlyThere(ms, i, j, l, k);
      }
    }
    LastPlaceRight(files, ms, h, i, j);
  }

  lemma OnceNoDuplicates(files: Files, ms: seq<seq<Path>>)
    requires PlacedOnce(files, ms)
    ensures NoDuplicates(Flat(ms))
  {
    forall p
      ensures multiset(Flat(ms))[p] <= 1
    {
      assert multiset(Flat(ms))[p] == if p in files then 1 else 0;
    }
  }

  lemma OnceCovers(files: Files, ms: seq<seq<Path>>)
    requires PlacedOnce(files, ms)
    ensures forall p :: p in Flat(ms) <==> p in files
  {
    forall p
      ensures p in Flat(ms) <==> p in files
    {
      assert multiset(Flat(ms))[p] == if p in files then 1 else 0;
      assert p in Flat(ms) <==> multiset(Flat(ms))[p] > 0;
    }
  }

  /** Every file has a record, at an offset where its own bytes sit; nothing else has one. */
  ghost predicate BytesInPlace(files: Files, r: BundleResult)
  {
    && r.members.Keys == files.Keys
    && (forall p :: p in files ==>
          var at := r.members[p];
          && at.idx < |r.bundles| && p in r.bundles[at.idx].members && at.len == |files[p]|
          && at.off + at.len <= |r.bundles[at.idx].bytes|
          && r.bundles[at.idx].bytes[at.off..at.off + at.len] == files[p])
  }

  /** Whatever lists exactly the files, each of them once or more often, places every file. */
  lemma EveryFilePlaced(files: Files, ms: seq<seq<Path>>, h: Hash)
    requires forall p :: p in Flat(ms) <==> p in files
    ensures BytesInPlace(files, Built(files, ms, h))
  {
    hide Flat, BundleSize, Concat, Places;
    var r := Built(files, ms, h);
    PlacesKeys(files, ms);
    assert r.members.Keys == files.Keys;
    forall p | p in files
      ensures var at := r.members[p];
              && at.idx < |r.bundles| && p in r.bundles[at.idx].members && at.len == |files[p]|
              && at.off + at.len <= |r.bundles[at.idx].bytes|
              && r.bundles[at.idx].bytes[at.off..at.off + at.len] == files[p]
    {
      var i, j := LastPlace(ms, p);
      LastPlaceRight(files, ms, h, i, j);
    }
  }

  /** Every assignment does: a path listed twice before is recorded where it is listed last. */
  lemma AssignmentPlacesAll(files: Files, prev: seq<seq<Path>>, h: Hash)
    ensures BytesInPlace(files, Built(files, Assigned(files, prev), h))
  {
    hide Assigned, Flat, BytesInPlace, Built;
    forall p
      ensures p in Flat(Assigned(files, prev)) <==> p in files
    {
      AssignedFlat(files, prev, p);
    }
    EveryFilePlaced(files, Assigned(files, prev), h);
  }

  // ---- stability ----

  /** Appending leaves every bundle but the tail alone, and the tail only grows. */
  ghost predicate OnlyTailGrew(files: Files, before: seq<seq<Path>>, after: seq<seq<Path>>)
  {
    && |before| <= |after|
    && (forall i :: 0 <= i < |before| - 1 ==> after[i] == before[i])
    && (before != [] ==> before[|before| - 1] <= after[|before| - 1])
    && (before != [] && BundleSize(files, before[|before| - 1]) >= BUNDLE_TARGET ==>
          after[|before| - 1] == before[|before| - 1])
  }

  lemma AppendOneGrows(files: Files, before: seq<seq<Path>>, mid: seq<seq<Path>>, p: Path)
    requires OnlyTailGrew(files, before, mid)
    ensures OnlyTailGrew(files, before, AppendOne(files, mid, p))
  {
    hide BundleSize;
  }

  lemma {:induction false} AppendAllGrows(files: Files, ms: seq<seq<Path>>, paths: seq<Path>)
    ensures OnlyTailGrew(files, ms, AppendAll(files, ms, paths))
  {
    if paths != [] {
      hide AppendOne, OnlyTailGrew;
      var front := paths[..|paths| - 1];
      AppendAllGrows(files, ms, front);
      AppendOneGrows(files, ms, AppendAll(files, ms, front), paths[|paths| - 1]);
    }
  }

  /** While few bundles are small, new files touch only the last carried bundle or later ones. */
  lemma NewFilesOnlyAppend(files: Files, prev: seq<seq<Path>>)
    requires FewSmall(files, Grown(files, prev))
    ensures Assigned(files, prev) == Grown(files, prev)
    ensures OnlyTailGrew(files, Carried(files, prev), Assigned(files, prev))
    ensures NewFiles(files, Carried(files, prev)) == {} ==> Assigned(files, prev) == Carried(files, prev)
  {
    hide FewSmall, NeedsRepack;
    var carried := Carried(files, prev);
    SmallAreFragments(files, Grown(files, prev));
    AppendAllGrows(files, carried, InOrder(NewFiles(files, carried)));
  }

  lemma {:induction false} SurvivorsAll(files: Files, b: seq<Path>)
    requires forall p :: p in b ==> p in files
    ensures Survivors(files, b) == b
  {
    if b != [] {
      SurvivorsAll(files, b[1..]);
      assert b == [b[0]] + b[1..];
    }
  }

  /** A previous bundle whose members all survive is carried as it is, behind what is left of those before it. */
  lemma {:induction false} CarriedAt(files: Files, prev: seq<seq<Path>>, i: nat)
    requires i < |prev| && prev[i] != [] && forall p :: p in prev[i] ==> p in files
    ensures |Carried(files, prev[..i])| < |Carried(files, prev)|
    ensures Carried(files, prev)[|Carried(files, prev[..i])|] == prev[i]
  {
    if i == 0 {
      SurvivorsAll(files, prev[0]);
    } else {
      hide Survivors;
      CarriedAt(files, prev[1..], i - 1);
      assert prev[..i][0] == prev[0] && prev[..i][1..] == prev[1..][..i - 1];
    }
  }

  lemma {:induction false} ConcatSame(f: Files, g: Files, b: seq<Path>)
    requires forall p :: p in b ==> Bytes(f, p) == Bytes(g, p)
    ensures Concat(f, b) == Concat(g, b) && BundleSize(f, b) == BundleSize(g, b)
  {
    if b != [] {
      ConcatSame(f, g, b[..|b| - 1]);
    }
  }

  /**
   * Across two signings: a bundle whose files all survive unedited keeps members, bytes and id, unless too many bundles
   * got small or it is the last carried one, with room left, and there are new files.
   */
  lemma UntouchedKept(f: Files, g: Files, prev: seq<seq<Path>>, i: nat, h: Hash)
    requires i < |prev| && prev[i] != []
    requires forall p :: p in prev[i] ==> p in f && p in g && f[p] == g[p]
    requires FewSmall(g, Grown(g, prev))
    requires |Carried(g, prev[..i])| + 1 < |Carried(g, prev)| || BundleSize(f, prev[i]) >= BUNDLE_TARGET ||
             NewFiles(g, Carried(g, prev)) == {}
    ensures |Carried(g, prev[..i])| < |Assigned(g, prev)|
    ensures Built(g, Assigned(g, prev), h).bundles[|Carried(g, prev[..i])|] == Minted(f, prev[i], h)
  {
    hide Carried, Assigned, Grown, Concat, BundleSize, FewSmall, Places;
    CarriedAt(g, prev, i);
    ConcatSame(f, g, prev[i]);
    NewFilesOnlyAppend(g, prev);
  }

  // ---- how full the bundles are ----

  ghost predicate AllBundleable(files: Files)
  {
    forall p :: p in files ==> IsBundleable(|files[p]|)
  }

  /** Every bundle but the tail reached the target; none overshoots by a whole file. */
  ghost predicate WellFilled(files: Files, ms: seq<seq<Path>>)
  {
    && (forall i :: 0 <= i < |ms| - 1 ==> BundleSize(files, ms[i]) >= BUNDLE_TARGET)
    && (forall i :: 0 <= i < |ms| ==> ms[i] != [] && BundleSize(files, ms[i]) < BUNDLE_TARGET + BUNDLE_FILE_MAX)
  }

  lemma SizeSnoc(files: Files, b: seq<Path>, p: Path)
    ensures BundleSize(files, b + [p]) == BundleSize(files, b) + |Bytes(files, p)|
  {
    assert (b + [p])[..|b|] == b;
  }

  lemma AppendOneFills(files: Files, ms: seq<seq<Path>>, p: Path)
    requires AllBundleable(files) && WellFilled(files, ms)
    ensures WellFilled(files, AppendOne(files, ms, p))
  {
    hide BundleSize;
    SizeSnoc(files, [], p);
    assert [] + [p] == [p];
    assert BundleSize(files, []) == 0 by { NoSize(files); }
    if ms != [] {
      SizeSnoc(files, ms[|ms| - 1], p);
    }
  }

  lemma NoSize(files: Files)
    ensures BundleSize(files, []) == 0
  {
  }

  lemma {:induction false} AppendAllFills(files: Files, paths: seq<Path>)
    requires AllBundleable(files)
    ensures WellFilled(files, AppendAll(files, [], paths))
  {
    if paths != [] {
      hide AppendOne, WellFilled;
      var front := paths[..|paths| - 1];
      AppendAllFills(files, front);
      AppendOneFills(files, AppendAll(files, [], front), paths[|paths| - 1]);
    }
  }

  /** The half that needs no size bound on files: non-tail bundles reach the target. */
  ghost predicate FullButTail(files: Files, ms: seq<seq<Path>>)
  {
    forall i :: 0 <= i < |ms| - 1 ==> BundleSize(files, ms[i]) >= BUNDLE_TARGET
  }

  lemma {:induction false} AppendAllFull(files: Files, paths: seq<Path>)
    ensures FullButTail(files, AppendAll(files, [], paths))
  {
    if paths != [] {
      hide AppendOne, FullButTail;
      var front := paths[..|paths| - 1];
      AppendAllFull(files, front);
      AppendOneFull(files, AppendAll(files, [], front), paths[|paths| - 1]);
    }
  }

  lemma AppendOneFull(files: Files, ms: seq<seq<Path>>, p: Path)
    requires FullButTail(files, ms)
    ensures FullButTail(files, AppendOne(files, ms, p))
  {
    hide BundleSize;
  }

  lemma {:induction false} FullNotSmall(files: Files, ms: seq<seq<Path>>)
    requires forall i :: 0 <= i < |ms| ==> BundleSize(files, ms[i]) >= BUNDLE_TARGET
    ensures CountSmall(files, ms) == 0
  {
    if ms != [] {
      hide BundleSize;
      FullNotSmall(files, ms[..|ms| - 1]);
    }
  }

  lemma RepackedFull(files: Files)
    ensures Fragmented(files, Repacked(files)) == 0 && !NeedsRepack(files, Repacked(files))
  {
    hide BundleSize, CountSmall;
    var ms := Repacked(files);
    AppendAllFull(files, InOrder(files.Keys));
    if ms != [] {
      FullNotSmall(files, ms[..|ms| - 1]);
    }
  }

  /** After any assignment at most `max(n / 4, 2)` bundles other than the tail are under half the target. */
  lemma FragmentationBounded(files: Files, prev: seq<seq<Path>>)
    ensures FewSmall(files, Assigned(files, prev))
    ensures !NeedsRepack(files, Assigned(files, prev))
  {
    hide Grown, Repacked, CountSmall, NeedsRepack, FewSmall;
    RepackedFull(files);
    SmallAreFragments(files, Assigned(files, prev));
  }

  /** A first signing packs as a repack does, every bundle but the tail full and none over by a whole file. */
  lemma FirstSigning(files: Files)
    ensures Assigned(files, []) == Repacked(files)
    ensures AllBundleable(files) ==> WellFilled(files, Repacked(files))
  {
    hide BundleSize, WellFilled, AllBundleable, NeedsRepack;
    assert NewFiles(files, []) == files.Keys;
    if AllBundleable(files) {
      AppendAllFills(files, InOrder(files.Keys));
    }
  }

  // ---- re-assigning ----

  lemma AppendAllNonEmpty(files: Files, ms: seq<seq<Path>>, paths: seq<Path>)
    requires forall i :: 0 <= i < |ms| ==> ms[i] != []
    ensures forall i :: 0 <= i < |AppendAll(files, ms, paths)| ==> AppendAll(files, ms, paths)[i] != []
  {
    hide BundleSize;
    if paths != [] {
      AppendAllNonEmpty(files, ms, paths[..|paths| - 1]);
    }
  }

  lemma {:induction false} CarriedNonEmpty(files: Files, prev: seq<seq<Path>>)
    ensures forall i :: 0 <= i < |Carried(files, prev)| ==> Carried(files, prev)[i] != []
  {
    if prev != [] {
      CarriedNonEmpty(files, prev[1..]);
    }
  }

  lemma AssignedNonEmpty(files: Files, prev: seq<seq<Path>>)
    ensures forall i :: 0 <= i < |Assigned(files, prev)| ==> Assigned(files, prev)[i] != []
  {
    hide AppendAll, Carried, NeedsRepack;
    var carried := Carried(files, prev);
    CarriedNonEmpty(files, prev);
    AppendAllNonEmpty(files, carried, InOrder(NewFiles(files, carried)));
    AppendAllNonEmpty(files, [], InOrder(files.Keys));
  }

  lemma AssignedFlat(files: Files, prev: seq<seq<Path>>, p: Path)
    ensures p in Flat(Assigned(files, prev)) <==> p in files
  {
    hide Grown, Repacked, Flat, NeedsRepack;
    RepackedCount(files, p);
    GrownCount(files, prev, p);
    assert p in Flat(prev) <==> multiset(Flat(prev))[p] > 0;
    assert p in Flat(Assigned(files, prev)) <==> multiset(Flat(Assigned(files, prev)))[p] > 0;
  }

  lemma {:induction false} CarriedAll(files: Files, ms: seq<seq<Path>>)
    requires forall i :: 0 <= i < |ms| ==> ms[i] != []
    requires forall p :: p in Flat(ms) ==> p in files
    ensures Carried(files, ms) == ms
  {
    if ms != [] {
      hide Survivors;
      SurvivorsAll(files, ms[0]);
      CarriedAll(files, ms[1..]);
      assert ms == [ms[0]] + ms[1..];
    }
  }

  /** Assigning the same files again over the result changes nothing, whether or not the first run repacked. */
  lemma AssignIdempotent(files: Files, prev: seq<seq<Path>>)
    ensures Assigned(files, Assigned(files, prev)) == Assigned(files, prev)
  {
    hide Carried, Flat, NeedsRepack;
    var ms := Assigned(files, prev);
    assert Carried(files, ms) == ms && NewFiles(files, ms) == {} && !NeedsRepack(files, ms) by {
      hide Assigned;
      AssignedNonEmpty(files, prev);
      forall p
        ensures p in Flat(ms) <==> p in files
      {
        AssignedFlat(files, prev, p);
      }
      CarriedAll(files, ms);
      FragmentationBounded(files, prev);
    }
    assert InOrder({}) == [];
    assert Grown(files, ms) == ms;
  }
}
