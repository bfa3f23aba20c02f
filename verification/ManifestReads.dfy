/** What a manifest says about bundles, by the names of its fields, and that reading the memberships back returns that. */
module ManifestReads {
  import opened Prelude
  import opened Lex
  import opened Sorting
  import opened Unicode
  import opened CanonicalJson
  import opened Bundle
  import opened Manifest
  import opened ManifestFields
  import opened ManifestProofs

  // ---- members ----

  /** The entry of a file says that its bytes are in that bundle at that offset. */
  predicate PointsAt(entry: Json, hex: seq<scalar>, off: u64)
  {
    && entry.Obj?
    && Name("bundle") in entry.fields && entry.fields[Name("bundle")] == Str(hex)
    && Name("off") in entry.fields && entry.fields[Name("off")] == Int(off)
  }

  /** Whether a table of the manifest holds such an entry for a file: once if so. */
  function Mentions(content: Json, key: seq<scalar>, r: Ref): (n: nat)
  {
    if content.Obj? && key in content.fields && content.fields[key].Obj? && r.path in content.fields[key].fields
       && PointsAt(content.fields[key].fields[r.path], r.bundle, r.off) then 1 else 0
  }

  /** Of two members of a bundle the one with the smaller offset comes first, of two at one offset the one with the smaller path. */
  ghost predicate InFront(a: Ref, b: Ref)
  {
    a.off < b.off || (a.off == b.off && !Less(b.path, a.path))
  }

  /** The members of a bundle: every entry of either table that points at it, in order. */
  ghost predicate AreMembers(content: Json, hex: seq<scalar>, refs: seq<Ref>)
  {
    && (forall r: Ref :: multiset(refs)[r] ==
          if r.bundle == hex then Mentions(content, Name("files"), r) + Mentions(content, Name("files_optional"), r) else 0)
    && InLine(refs)
  }

  ghost predicate InLine(refs: seq<Ref>)
  {
    forall i, j :: 0 <= i < j < |refs| ==> InFront(refs[i], refs[j])
  }

  lemma RefIs(path: Path, entry: Json, r: Ref)
    ensures RefOf(path, entry) == Some(r) <==> r.path == path && PointsAt(entry, r.bundle, r.off)
  {
    NamesAre();
    hide Name, BundleKey, OffKey;
  }

  lemma CountDistinctly<T>(s: seq<T>, x: T)
    requires Distinct(s)
    ensures multiset(s)[x] == if x in s then 1 else 0
  {
    DistinctCount(s, x);
  }

  lemma TableMentions(content: Json, key: seq<scalar>, r: Ref)
    ensures var t := Table(content, key);
            multiset(RefsAlong(t, InOrder(t.Keys)))[r] == Mentions(content, key, r)
  {
    hide RefOf, PointsAt, RefsAlong, Increasing, Distinct;
    var t := Table(content, key);
    var paths := InOrder(t.Keys);
    assert forall i :: 0 <= i < |paths| ==> paths[i] in t by {
      assert forall i :: 0 <= i < |paths| ==> paths[i] in paths;
    }
    IncreasingIsDistinct(paths);
    RefsAlongElements(t, paths);
    RefsAlongDistinct(t, paths);
    CountDistinctly(RefsAlong(t, paths), r);
    if r.path in t {
      RefIs(r.path, t[r.path], r);
    }
  }

  lemma {:induction false} RefsToCount(refs: seq<Ref>, hex: seq<scalar>, r: Ref)
    ensures multiset(RefsTo(refs, hex))[r] == if r.bundle == hex then multiset(refs)[r] else 0
  {
    if refs != [] {
      var i := |refs| - 1;
      RefsToCount(refs[..i], hex, r);
      assert refs == refs[..i] + [refs[i]];
    }
  }

  lemma KeyInFront(a: Ref, b: Ref)
    requires !Less(RefKey()(b), RefKey()(a))
    ensures InFront(a, b)
  {
    var k, l := RefKey()(a), RefKey()(b);
    assert k[0] == a.off && l[0] == b.off && k[1..] == a.path && l[1..] == b.path;
  }

  /** The members read for a bundle are the members the tables name. */
  lemma MembersAre(content: Json, hex: seq<scalar>)
    ensures AreMembers(content, hex, SortBy(RefsTo(Refs(content), hex), RefKey()))
  {
    hide RefsTo, SortBy, Table, RefsAlong, Less, RefKey, Mentions, Name, FilesKey, OptionalKey, InFront, InOrder;
    var to := RefsTo(Refs(content), hex);
    SortKeeps(to, RefKey());
    SortAscends(to, RefKey());
    NamesAre();
    forall r: Ref
      ensures multiset(to)[r] ==
              if r.bundle == hex then Mentions(content, Name("files"), r) + Mentions(content, Name("files_optional"), r) else 0
    {
      RefsToCount(Refs(content), hex, r);
      TableMentions(content, FilesKey(), r);
      TableMentions(content, OptionalKey(), r);
    }
    var sorted := SortBy(to, RefKey());
    forall i, j | 0 <= i < j < |sorted|
      ensures InFront(sorted[i], sorted[j])
    {
      KeyInFront(sorted[i], sorted[j]);
    }
  }

  // ---- the order of the bundles ----

  /** How many declared ids come before this one in byte order. */
  ghost function Place(t: map<seq<scalar>, Json>, hex: seq<scalar>): nat
  {
    |set k | k in t.Keys && Less(k, hex)|
  }

  /** The persisted creation order, for entries that have one in 64 bits; otherwise the place in byte order. */
  ghost function Created(t: map<seq<scalar>, Json>, hex: seq<scalar>): int
    requires hex in t
  {
    var entry := t[hex];
    if entry.Obj? && Name("seq") in entry.fields && entry.fields[Name("seq")].Int? && 0 <= entry.fields[Name("seq")].n <= U64_MAX
    then entry.fields[Name("seq")].n else Place(t, hex)
  }

  /** All declared bundles in creation order, those of one order by their ids. */
  ghost predicate IsOrder(t: map<seq<scalar>, Json>, order: seq<seq<scalar>>)
  {
    && |order| == |t| && (forall i :: 0 <= i < |order| ==> order[i] in t)
    && (forall i, j :: 0 <= i < j < |order| ==>
          Created(t, order[i]) < Created(t, order[j]) ||
          (Created(t, order[i]) == Created(t, order[j]) && Place(t, order[i]) < Place(t, order[j])))
  }

  function Those<T(==)>(s: seq<T>): set<T> { set k | k in s }

  lemma {:induction false} PlaceAt(keys: seq<seq<scalar>>, i: nat)
    requires Increasing(keys) && i <= |keys|
    ensures |Those(keys[..i])| == i
  {
    if i > 0 {
      PlaceAt(keys, i - 1);
      assert keys[..i] == keys[..i - 1] + [keys[i - 1]];
      assert Those(keys[..i]) == Those(keys[..i - 1]) + {keys[i - 1]};
      assert keys[i - 1] !in keys[..i - 1] by {
        LessIrreflexive(keys[i - 1]);
      }
    }
  }

  /** The place of an id is its index in the walk over the table. */
  lemma PlaceIs(t: map<seq<scalar>, Json>, i: nat)
    requires i < |t|
    ensures |InOrder(t.Keys)| == |t| && InOrder(t.Keys)[i] in t && Place(t, InOrder(t.Keys)[i]) == i
  {
    hide Less;
    var keys := InOrder(t.Keys);
    assert |keys| == |t.Keys| == |t|;
    assert keys[i] in keys;
    PlaceAt(keys, i);
    forall k
      ensures k in keys[..i] <==> k in t.Keys && Less(k, keys[i])
    {
      if k in t.Keys && Less(k, keys[i]) {
        var j :| 0 <= j < |keys| && keys[j] == k;
        if j == i {
          LessIrreflexive(k);
        } else if j > i {
          LessAsymmetric(k, keys[i]);
        }
        assert keys[..i][j] == k;
      }
      if k in keys[..i] {
        var j :| 0 <= j < i && keys[..i][j] == k;
        assert keys[j] in keys;
      }
    }
    assert Those(keys[..i]) == (set k | k in t.Keys && Less(k, keys[i]));
  }

  lemma RankIsPlace(t: map<seq<scalar>, Json>, i: nat)
    requires |t| <= U64_MAX && i < |t|
    ensures |InOrder(t.Keys)| == |t| && InOrder(t.Keys)[i] in t
    ensures IsRank(t, RankOf(t, InOrder(t.Keys)[i], i))
  {
    hide Place, InOrder, Name, SeqKey;
    PlaceIs(t, i);
    NamesAre();
  }

  lemma RankInFront(a: Rank, b: Rank)
    requires !Less(RankKey()(b), RankKey()(a))
    ensures a.order < b.order || (a.order == b.order && a.i <= b.i)
  {
    var k, l := RankKey()(a), RankKey()(b);
    assert k[0] == a.order && l[0] == b.order && k[1..][0] == a.i && l[1..][0] == b.i;
  }

  lemma OrderIs(t: map<seq<scalar>, Json>)
    requires |t| <= U64_MAX
    ensures IsOrder(t, BundleOrder(t))
  {
    hide SortBy, RankKey, InOrder, RankOf, Created, Place, Less, Distinct, Ascending;
    hide IsRank;
    var keys := InOrder(t.Keys);
    AsLong(t);
    var ranks := Ranks(t, keys);
    forall i | 0 <= i < |ranks|
      ensures IsRank(t, ranks[i])
    {
      RankIsPlace(t, i);
    }
    RanksDistinct(t, keys);
    SortElements(ranks, RankKey());
    SortAscends(ranks, RankKey());
    var sorted := SortBy(ranks, RankKey());
    forall i | 0 <= i < |sorted|
      ensures IsRank(t, sorted[i])
    {
      assert sorted[i] in ranks;
    }
    forall i, j | 0 <= i < j < |sorted|
      ensures IsRank(t, sorted[i]) && IsRank(t, sorted[j]) && sorted[i] != sorted[j] && !Less(RankKey()(sorted[j]), RankKey()(sorted[i]))
    {
      AscendingAt(sorted, RankKey(), i, j);
      Apart(sorted, i, j);
    }
    HexesInOrder(t, sorted);
  }

  lemma HexesInOrder(t: map<seq<scalar>, Json>, sorted: seq<Rank>)
    requires |sorted| == |t| && forall i :: 0 <= i < |sorted| ==> IsRank(t, sorted[i])
    requires forall i, j :: 0 <= i < j < |sorted| ==> sorted[i] != sorted[j] && !Less(RankKey()(sorted[j]), RankKey()(sorted[i]))
    ensures IsOrder(t, Hexes(sorted))
  {
    hide RankKey, Less, Created, Place, InOrder;
    forall i, j | 0 <= i < j < |sorted|
      ensures Created(t, sorted[i].hex) < Created(t, sorted[j].hex) ||
              (Created(t, sorted[i].hex) == Created(t, sorted[j].hex) && Place(t, sorted[i].hex) < Place(t, sorted[j].hex))
    {
      RankInFront(sorted[i], sorted[j]);
      PlacesDiffer(t, sorted[i], sorted[j]);
    }
  }

  lemma AsLong(t: map<seq<scalar>, Json>)
    ensures |InOrder(t.Keys)| == |t|
  {
  }

  ghost predicate IsRank(t: map<seq<scalar>, Json>, r: Rank)
  {
    && r.hex in t && r.order == Created(t, r.hex) && r.i == Place(t, r.hex)
    && |InOrder(t.Keys)| == |t| && r.i < |t| && InOrder(t.Keys)[r.i] == r.hex
  }

  lemma PlacesDiffer(t: map<seq<scalar>, Json>, a: Rank, b: Rank)
    requires IsRank(t, a) && IsRank(t, b) && a != b
    ensures a.i != b.i
  {
    hide Created, Place, InOrder;
  }

  lemma AscendingAt<T>(s: seq<T>, key: T -> seq<int>, i: nat, j: nat)
    requires Ascending(s, key) && i < j < |s|
    ensures !Less(key(s[j]), key(s[i]))
  {
  }

  lemma Apart<T>(s: seq<T>, i: nat, j: nat)
    requires Distinct(s) && i < j < |s|
    ensures s[i] != s[j]
  {
  }

  // ---- the memberships ----

  /** The lists that hold something, in order, as lists of paths. */
  function Held(lists: seq<seq<Ref>>): (r: seq<seq<Path>>)
  {
    if lists == [] then []
    else
      var i := |lists| - 1;
      Held(lists[..i]) + if lists[i] == [] then [] else [PathsOf(lists[i])]
  }

  /** The memberships a manifest records: for each declared bundle in creation order its members, if it has any. */
  ghost predicate Records(content: Json, order: seq<seq<scalar>>, lists: seq<seq<Ref>>, ms: seq<seq<Path>>)
  {
    && IsOrder(Table(content, Name("bundles")), order) && |lists| == |order|
    && (forall i :: 0 <= i < |order| ==> AreMembers(content, order[i], lists[i]))
    && ms == Held(lists)
  }

  ghost predicate IsRecorded(content: Json, ms: seq<seq<Path>>)
  {
    exists order, lists :: Records(content, order, lists, ms)
  }

  ghost function Lists(content: Json, order: seq<seq<scalar>>): (r: seq<seq<Ref>>)
    ensures |r| == |order|
    ensures forall i :: 0 <= i < |r| ==> r[i] == SortBy(RefsTo(Refs(content), order[i]), RefKey())
  {
    seq(|order|, i requires 0 <= i < |order| => SortBy(RefsTo(Refs(content), order[i]), RefKey()))
  }

  lemma {:induction false} CollectedIs(content: Json, order: seq<seq<scalar>>)
    ensures Collected(Refs(content), order) == Held(Lists(content, order))
    decreases |order|
  {
    if order != [] {
      hide SortBy, RefsTo, RefKey, Refs;
      var i := |order| - 1;
      CollectedIs(content, order[..i]);
      assert Lists(content, order)[..i] == Lists(content, order[..i]);
      SortKeeps(RefsTo(Refs(content), order[i]), RefKey());
      assert |multiset(Lists(content, order)[i])| == |multiset(RefsTo(Refs(content), order[i]))|;
    }
  }

  lemma MembershipsAre(content: Json)
    requires |Table(content, BundlesKey())| <= U64_MAX
    ensures IsRecorded(content, PrevMembershipsOf(content))
  {
    hide IsOrder, AreMembers, Table, Collected, Held, BundleOrder, Refs, RefsTo, SortBy, RefKey, Name, BundlesKey;
    NamesAre();
    var order := BundleOrder(Table(content, BundlesKey()));
    OrderIs(Table(content, BundlesKey()));
    forall i | 0 <= i < |order|
      ensures AreMembers(content, order[i], Lists(content, order)[i])
    {
      MembersAre(content, order[i]);
    }
    CollectedIs(content, order);
    assert Records(content, order, Lists(content, order), PrevMembershipsOf(content));
  }

  // ---- there is only one such list ----

  lemma {:induction false} MembersOnce(hex: seq<scalar>, r: seq<Ref>, s: seq<Ref>)
    requires multiset(r) == multiset(s) && (forall x: Ref :: multiset(r)[x] > 0 ==> x.bundle == hex)
    requires InLine(r) && InLine(s)
    ensures r == s
    decreases |r|
  {
    hide InFront, InLine;
    assert |r| == |multiset(r)| == |multiset(s)| == |s|;
    if r != [] {
      FirstOnce(hex, r, s);
      Tail(r);
      Tail(s);
      MembersOnce(hex, r[1..], s[1..]);
      assert r == [r[0]] + r[1..] && s == [s[0]] + s[1..];
    }
  }

  lemma Tail(s: seq<Ref>)
    requires s != []
    ensures multiset(s[1..]) == multiset(s) - multiset{s[0]} && (InLine(s) ==> InLine(s[1..]))
  {
    hide InFront;
    assert s == [s[0]] + s[1..];
  }

  lemma FirstOnce(hex: seq<scalar>, r: seq<Ref>, s: seq<Ref>)
    requires multiset(r) == multiset(s) && (forall x: Ref :: multiset(r)[x] > 0 ==> x.bundle == hex) && r != [] && s != []
    requires InLine(r) && InLine(s)
    ensures r[0] == s[0]
  {
    hide InFront;
    assert r[0] in multiset(s) && s[0] in multiset(r);
    if r[0] != s[0] {
      var i :| 0 <= i < |s| && s[i] == r[0];
      var j :| 0 <= j < |r| && r[j] == s[0];
      FrontOnce(r[0], s[0]);
    }
  }

  lemma FrontOnce(a: Ref, b: Ref)
    requires InFront(a, b) && InFront(b, a) && a.bundle == b.bundle
    ensures a == b
  {
    LessTotal(a.path, b.path);
  }

  /** The key that orders declared ids. */
  ghost function OrderKey(t: map<seq<scalar>, Json>): seq<scalar> -> seq<int>
  {
    (hex: seq<scalar>) => if hex in t then [Created(t, hex), Place(t, hex)] else []
  }

  lemma OrderIncreases(t: map<seq<scalar>, Json>, order: seq<seq<scalar>>)
    requires IsOrder(t, order)
    ensures IncreasingBy(order, OrderKey(t)) && Distinct(order)
  {
    hide Created, Place, Less;
    forall i, j | 0 <= i < j < |order|
      ensures Less(OrderKey(t)(order[i]), OrderKey(t)(order[j])) && order[i] != order[j]
    {
      PairLess(Created(t, order[i]), Place(t, order[i]), Created(t, order[j]), Place(t, order[j]));
    }
  }

  lemma PairLess(a: int, b: int, c: int, d: int)
    requires a < c || (a == c && b < d)
    ensures Less([a, b], [c, d])
  {
    assert [a, b][1..] == [b] && [c, d][1..] == [d];
  }

  /** A list without repetitions, as long as the set all its elements are in, holds all of that set. */
  lemma {:induction false} HoldsAll(s: seq<seq<scalar>>, all: set<seq<scalar>>)
    requires Distinct(s) && |s| == |all| && forall i :: 0 <= i < |s| ==> s[i] in all
    ensures forall x :: x in all ==> x in s
    decreases |s|
  {
    if s != [] {
      HoldsAll(s[1..], all - {s[0]});
      assert s == [s[0]] + s[1..];
    }
  }

  lemma OrderOnce(t: map<seq<scalar>, Json>, a: seq<seq<scalar>>, b: seq<seq<scalar>>)
    requires IsOrder(t, a) && IsOrder(t, b)
    ensures a == b
  {
    OrderIncreases(t, a);
    OrderIncreases(t, b);
    HoldsAll(a, t.Keys);
    HoldsAll(b, t.Keys);
    hide Created, Place, OrderKey, IncreasingBy, Distinct;
    IncreasingByUnique(a, b, OrderKey(t));
  }

  /** A manifest records one list of memberships, the one that is read. */
  lemma RecordedIff(content: Json, ms: seq<seq<Path>>)
    requires |Table(content, BundlesKey())| <= U64_MAX
    ensures IsRecorded(content, ms) <==> ms == PrevMembershipsOf(content)
  {
    hide IsOrder, Table, Held, Name, BundlesKey, AreMembers, PrevMembershipsOf;
    MembershipsAre(content);
    if IsRecorded(content, ms) {
      var read := PrevMembershipsOf(content);
      var o, l :| Records(content, o, l, ms);
      var o', l' :| Records(content, o', l', read);
      OrderOnce(Table(content, Name("bundles")), o, o');
      forall i | 0 <= i < |o|
        ensures l[i] == l'[i]
      {
        ListOnce(content, o[i], l[i], l'[i]);
      }
      assert l == l';
    }
  }

  lemma ListOnce(content: Json, hex: seq<scalar>, r: seq<Ref>, s: seq<Ref>)
    requires AreMembers(content, hex, r) && AreMembers(content, hex, s)
    ensures r == s
  {
    hide Mentions, Name, InFront;
    assert multiset(r) == multiset(s);
    MembersOnce(hex, r, s);
  }
}
