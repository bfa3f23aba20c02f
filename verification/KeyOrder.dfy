/** Sorting strings the way the program does, by their UTF-8 bytes. */
module KeyOrder {
  import opened Lex
  import opened Sorting
  import opened Unicode

  /** The UTF-8 bytes of `k` come first among `keys`. */
  predicate First(keys: set<seq<scalar>>, k: seq<scalar>)
  {
    k in keys && forall j :: j in keys ==> j == k || Less(Utf8String(k), Utf8String(j))
  }

  lemma FirstExists(keys: set<seq<scalar>>)
    requires keys != {}
    ensures exists k :: First(keys, k)
  {
    hide Less, Utf8String;
    LeastExists(keys);
    var k :| IsLeast(keys, k);
    forall j | j in keys
      ensures j == k || Less(Utf8String(k), Utf8String(j))
    {
      Utf8Order(k, j);
    }
    assert First(keys, k);
  }

  /** Sorting by UTF-8 bytes yields code-point order. */
  method SortKeys(keys: set<seq<scalar>>) returns (sorted: seq<seq<scalar>>)
    ensures Increasing(sorted) && forall k :: k in sorted <==> k in keys
  {
    hide Less, Utf8String;
    sorted := [];
    var todo := keys;
    while todo != {}
      invariant todo <= keys && Increasing(sorted)
      invariant forall i, j :: 0 <= i < |sorted| && j in todo ==> Less(sorted[i], j)
      invariant forall k :: k in sorted <==> k in keys && k !in todo
      decreases |todo|
    {
      FirstExists(todo);
      var k :| First(todo, k);
      forall j | j in todo && j != k
        ensures Less(k, j)
      {
        Utf8Order(k, j);
      }
      sorted := sorted + [k];
      todo := todo - {k};
    }
  }
}
