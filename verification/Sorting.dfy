/** A finite set of strings in increasing order: how sorted maps and sets iterate. */
module Sorting {
  import opened Lex

  ghost predicate Increasing(s: seq<seq<int>>)
  {
    forall i, j :: 0 <= i < j < |s| ==> Less(s[i], s[j])
  }

  ghost predicate IsLeast(S: set<seq<int>>, k: seq<int>)
  {
    k in S && forall j :: j in S ==> j == k || Less(k, j)
  }

  lemma {:induction false} LeastExists(S: set<seq<int>>)
    requires S != {}
    ensures exists k :: IsLeast(S, k)
    decreases |S|
  {
    hide Less;
    var x :| x in S;
    var rest := S - {x};
    if rest == {} {
      forall j | j in S
        ensures j == x
      {
        assert j == x || j in rest;
      }
      assert IsLeast(S, x);
    } else {
      LeastExists(rest);
      var k :| IsLeast(rest, k);
      LessTotal(x, k);
      var m := if Less(x, k) then x else k;
      forall j | j in S
        ensures j == m || Less(m, j)
      {
        assert j == x || j in rest;
        if m == x && j != x && j != k {
          LessTransitive(x, k, j);
        }
      }
      assert IsLeast(S, m);
    }
  }

  lemma ConsIncreasing(k: seq<int>, rest: seq<seq<int>>)
    requires Increasing(rest) && forall j :: j in rest ==> Less(k, j)
    ensures Increasing([k] + rest)
  {
    hide Less;
  }

  /** The set in increasing order. */
  ghost function Ordered(S: set<seq<int>>): (r: seq<seq<int>>)
    ensures Increasing(r) && (forall k :: k in r <==> k in S) && |r| == |S|
    decreases |S|
  {
    if S == {} then []
    else
      LeastExists(S);
      var k :| IsLeast(S, k);
      var rest := Ordered(S - {k});
      ConsIncreasing(k, rest);
      [k] + rest
  }

  lemma {:induction false} IncreasingUnique(s: seq<seq<int>>, t: seq<seq<int>>)
    requires Increasing(s) && Increasing(t) && forall k :: k in s <==> k in t
    ensures s == t
    decreases |s|
  {
    hide Less;
    assert s != [] ==> s[0] in t;
    assert t != [] ==> t[0] in s;
    if s != [] && t != [] {
      FirstIsLeast(s, t[0]);
      FirstIsLeast(t, s[0]);
      if s[0] != t[0] {
        LessAsymmetric(s[0], t[0]);
      }
      forall k
        ensures k in s[1..] <==> k in t[1..]
      {
        InTail(s, k);
        InTail(t, k);
      }
      IncreasingUnique(s[1..], t[1..]);
      assert s == [s[0]] + s[1..] && t == [t[0]] + t[1..];
    }
  }

  lemma FirstIsLeast(s: seq<seq<int>>, k: seq<int>)
    requires s != [] && Increasing(s) && k in s
    ensures k == s[0] || Less(s[0], k)
  {
  }

  lemma InTail(s: seq<seq<int>>, k: seq<int>)
    requires s != [] && Increasing(s)
    ensures k in s[1..] <==> k in s && k != s[0]
  {
    LessIrreflexive(s[0]);
    if k in s && k != s[0] {
      var i :| 0 <= i < |s| && s[i] == k;
      assert s[1..][i - 1] == k;
    }
    if k in s[1..] {
      var i :| 0 <= i < |s[1..]| && s[1..][i] == k;
      assert s[i + 1] == k;
    }
  }

  // ---- sorting a list by a key ----

  function InsertBy<T>(x: T, s: seq<T>, key: T -> seq<int>): (r: seq<T>)
  {
    if s == [] then [x] else if Less(key(s[0]), key(x)) then [s[0]] + InsertBy(x, s[1..], key) else [x] + s
  }

  /** A stable sort. */
  function SortBy<T>(s: seq<T>, key: T -> seq<int>): (r: seq<T>)
  {
    if s == [] then [] else InsertBy(s[0], SortBy(s[1..], key), key)
  }

  ghost predicate Ascending<T>(s: seq<T>, key: T -> seq<int>)
  {
    forall i, j :: 0 <= i < j < |s| ==> !Less(key(s[j]), key(s[i]))
  }

  ghost predicate IncreasingBy<T>(s: seq<T>, key: T -> seq<int>)
  {
    forall i, j :: 0 <= i < j < |s| ==> Less(key(s[i]), key(s[j]))
  }

  lemma {:induction false} InsertKeeps<T>(x: T, s: seq<T>, key: T -> seq<int>)
    ensures multiset(InsertBy(x, s, key)) == multiset(s) + multiset{x}
  {
    if s != [] {
      hide Less;
      InsertKeeps(x, s[1..], key);
      assert s == [s[0]] + s[1..];
    }
  }

  lemma {:induction false} SortKeeps<T>(s: seq<T>, key: T -> seq<int>)
    ensures multiset(SortBy(s, key)) == multiset(s)
  {
    if s != [] {
      hide InsertBy;
      SortKeeps(s[1..], key);
      InsertKeeps(s[0], SortBy(s[1..], key), key);
      assert s == [s[0]] + s[1..];
    }
  }

  lemma NotLessTransitive(a: seq<int>, b: seq<int>, c: seq<int>)
    requires !Less(b, a) && !Less(c, b)
    ensures !Less(c, a)
  {
    LessTotal(a, b);
    LessTotal(b, c);
    if Less(c, a) {
      if Less(a, b) { LessTransitive(c, a, b); }
    }
  }

  lemma {:induction false} InsertAscends<T>(x: T, s: seq<T>, key: T -> seq<int>)
    requires Ascending(s, key)
    ensures Ascending(InsertBy(x, s, key), key)
  {
    hide Less;
    LessIrreflexive(key(x));
    if s != [] {
      var r := InsertBy(x, s, key);
      if Less(key(s[0]), key(x)) {
        InsertAscends(x, s[1..], key);
        InsertKeeps(x, s[1..], key);
        var rest := InsertBy(x, s[1..], key);
        LessAsymmetric(key(s[0]), key(x));
        forall j | 0 <= j < |rest|
          ensures !Less(key(rest[j]), key(s[0]))
        {
          assert rest[j] in multiset(rest);
          assert rest[j] == x || rest[j] in s[1..];
        }
      } else {
        forall j | 0 <= j < |s|
          ensures !Less(key(s[j]), key(x))
        {
          if j > 0 {
            NotLessTransitive(key(x), key(s[0]), key(s[j]));
          }
        }
      }
    }
  }

  lemma {:induction false} SortAscends<T>(s: seq<T>, key: T -> seq<int>)
    ensures Ascending(SortBy(s, key), key)
  {
    if s != [] {
      hide InsertBy, Ascending;
      SortAscends(s[1..], key);
      InsertAscends(s[0], SortBy(s[1..], key), key);
    } else {
      hide Less;
    }
  }

  ghost predicate Distinct<T>(s: seq<T>)
  {
    forall i, j :: 0 <= i < j < |s| ==> s[i] != s[j]
  }

  lemma {:induction false} DistinctCount<T>(s: seq<T>, x: T)
    ensures Distinct(s) ==> multiset(s)[x] <= 1
    ensures x in s <==> multiset(s)[x] >= 1
  {
    if s != [] {
      DistinctCount(s[1..], x);
      assert s == [s[0]] + s[1..];
      if Distinct(s) && x == s[0] {
        assert forall i :: 0 <= i < |s[1..]| ==> s[1..][i] == s[i + 1];
      }
    }
  }

  lemma CountDistinct<T>(s: seq<T>)
    requires forall x :: multiset(s)[x] <= 1
    ensures Distinct(s)
  {
    forall i, j | 0 <= i < j < |s|
      ensures s[i] != s[j]
    {
      var a, b := s[..j], s[j..];
      assert s == a + b;
      assert a[i] == s[i] && b[0] == s[j];
      assert multiset(s)[s[j]] == multiset(a)[s[j]] + multiset(b)[s[j]];
      assert s[i] in multiset(a) && s[j] in multiset(b);
    }
  }

  /** Sorting a list without repetitions keeps its elements, each once. */
  lemma SortElements<T>(s: seq<T>, key: T -> seq<int>)
    requires Distinct(s)
    ensures Distinct(SortBy(s, key)) && |SortBy(s, key)| == |s| && forall x :: x in SortBy(s, key) <==> x in s
    ensures forall i :: 0 <= i < |SortBy(s, key)| ==> SortBy(s, key)[i] in s
  {
    hide Distinct, SortBy;
    SortKeeps(s, key);
    var r := SortBy(s, key);
    assert |r| == |multiset(r)| == |multiset(s)| == |s|;
    forall x
      ensures multiset(r)[x] <= 1 && (x in r <==> x in s)
    {
      DistinctCount(s, x);
      DistinctCount(r, x);
    }
    forall i | 0 <= i < |r|
      ensures r[i] in s
    {
      DistinctCount(s, r[i]);
      DistinctCount(r, r[i]);
    }
    CountDistinct(r);
  }

  /** A list without repetitions whose elements have different keys comes out strictly increasing. */
  lemma SortStrict<T>(s: seq<T>, key: T -> seq<int>)
    requires Distinct(s) && forall x, y :: x in s && y in s && x != y ==> key(x) != key(y)
    ensures IncreasingBy(SortBy(s, key), key)
  {
    hide Less, SortBy;
    var r := SortBy(s, key);
    SortElements(s, key);
    SortAscends(s, key);
    forall i, j | 0 <= i < j < |r|
      ensures Less(key(r[i]), key(r[j]))
    {
      assert r[i] in s && r[j] in s && r[i] != r[j];
      LessTotal(key(r[i]), key(r[j]));
    }
  }

  lemma {:induction false} IncreasingByUnique<T>(s: seq<T>, t: seq<T>, key: T -> seq<int>)
    requires IncreasingBy(s, key) && IncreasingBy(t, key) && forall x :: x in s <==> x in t
    ensures s == t
    decreases |s|
  {
    hide Less;
    assert s != [] ==> s[0] in t;
    assert t != [] ==> t[0] in s;
    if s != [] && t != [] {
      if s[0] != t[0] {
        FirstLeastBy(s, t[0], key);
        FirstLeastBy(t, s[0], key);
        LessAsymmetric(key(s[0]), key(t[0]));
      }
      forall x
        ensures x in s[1..] <==> x in t[1..]
      {
        InTailBy(s, x, key);
        InTailBy(t, x, key);
      }
      IncreasingByUnique(s[1..], t[1..], key);
      assert s == [s[0]] + s[1..] && t == [t[0]] + t[1..];
    }
  }

  lemma FirstLeastBy<T>(s: seq<T>, x: T, key: T -> seq<int>)
    requires s != [] && IncreasingBy(s, key) && x in s && x != s[0]
    ensures Less(key(s[0]), key(x))
  {
    hide Less;
  }

  lemma InTailBy<T>(s: seq<T>, x: T, key: T -> seq<int>)
    requires s != [] && IncreasingBy(s, key)
    ensures x in s[1..] <==> x in s && x != s[0]
  {
    hide Less;
    LessIrreflexive(key(s[0]));
    if x in s && x != s[0] {
      var i :| 0 <= i < |s| && s[i] == x;
      assert s[1..][i - 1] == x;
    }
    if x in s[1..] {
      var i :| 0 <= i < |s[1..]| && s[1..][i] == x;
      assert s[i + 1] == x;
    }
  }

  /** The sort of a list without repetitions is the one increasing list of its elements. */
  lemma SortIs<T>(s: seq<T>, t: seq<T>, key: T -> seq<int>)
    requires Distinct(s) && IncreasingBy(t, key) && forall x :: x in s <==> x in t
    ensures SortBy(s, key) == t
  {
    hide SortBy, Less, Distinct;
    forall x, y | x in s && y in s && x != y
      ensures key(x) != key(y)
    {
      var i :| 0 <= i < |t| && t[i] == x;
      var j :| 0 <= j < |t| && t[j] == y;
      LessIrreflexive(key(x));
      assert i < j || j < i;
    }
    SortElements(s, key);
    SortStrict(s, key);
    IncreasingByUnique(SortBy(s, key), t, key);
  }

  /** Neighbours in order make a list in order. */
  lemma {:induction false} NeighboursIncrease<T>(s: seq<T>, key: T -> seq<int>)
    requires forall i {:trigger s[i]} :: 0 <= i < |s| - 1 ==> Less(key(s[i]), key(s[i + 1]))
    ensures IncreasingBy(s, key)
  {
    hide Less;
    forall i, j | 0 <= i < j < |s|
      ensures Less(key(s[i]), key(s[j]))
    {
      ChainLess(s, key, i, j);
    }
  }

  lemma {:induction false} ChainLess<T>(s: seq<T>, key: T -> seq<int>, i: nat, j: nat)
    requires forall k {:trigger s[k]} :: 0 <= k < |s| - 1 ==> Less(key(s[k]), key(s[k + 1]))
    requires i < j < |s|
    ensures Less(key(s[i]), key(s[j]))
    decreases j
  {
    hide Less;
    assert Less(key(s[j - 1]), key(s[j - 1 + 1]));
    if i < j - 1 {
      ChainLess(s, key, i, j - 1);
      LessTransitive(key(s[i]), key(s[j - 1]), key(s[j]));
    }
  }
}
