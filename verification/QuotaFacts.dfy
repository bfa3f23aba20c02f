/**
 * Enforcing the quota has one outcome, and the user's own files have no part in it: what they are changes neither what
 * goes nor what is returned.
 */
module QuotaFacts {
  import opened Prelude
  import opened GroupRuns
  import opened MapSum
  import opened Quota

  /** The records of the cache, without the user's own files. */
  ghost function Cached(objects: map<ObjId, CacheRecord>): map<ObjId, CacheRecord>
  {
    map id | id in objects && !objects[id].kind.ExternFile? :: objects[id]
  }

  // ---- totals ----

  /** A user's own file counts nothing, neither held nor missing. */
  lemma {:induction false} ExternsCountNothing(objects: map<ObjId, CacheRecord>)
    ensures TotalHeld(objects) == TotalHeld(Cached(objects)) && TotalUnfilled(objects) == TotalUnfilled(Cached(objects))
    decreases |objects|
  {
    hide BytesHeld, BytesMissing;
    if objects == map[] {
      assert Cached(objects) == objects;
    } else {
      var id :| id in objects;
      var rest := objects - {id};
      ExternsCountNothing(rest);
      TotalTakeOut(objects, HeldWeight(), id);
      TotalTakeOut(objects, UnfilledWeight(), id);
      if objects[id].kind.ExternFile? {
        ExternWeight(objects[id]);
        assert Cached(objects) == Cached(rest);
      } else {
        assert Cached(objects) - {id} == Cached(rest);
        TotalTakeOut(Cached(objects), HeldWeight(), id);
        TotalTakeOut(Cached(objects), UnfilledWeight(), id);
      }
    }
  }

  lemma ExternWeight(rec: CacheRecord)
    requires rec.kind.ExternFile?
    ensures BytesHeld(rec) == {} && BytesMissing(rec) == {}
  {
  }

  /** A table without some of its records, one of them `k`, lacks at least the weight of `k`. */
  lemma {:induction false} TotalLess(m: map<ObjId, CacheRecord>, less: map<ObjId, CacheRecord>, f: (ObjId, CacheRecord) -> nat, k: ObjId)
    requires less.Keys <= m.Keys && (forall id :: id in less ==> less[id] == m[id]) && k in m && k !in less
    ensures Total(less, f) + f(k, m[k]) <= Total(m, f)
    decreases |m|
  {
    TotalTakeOut(m, f, k);
    if less.Keys != m.Keys - {k} {
      var j :| j in m && j != k && j !in less;
      TotalLess(m - {k}, less, f, j);
    } else {
      assert less == m - {k};
    }
  }

  // ---- two passes over the same cache ----

  /** The same records but for the user's own files. */
  ghost predicate SameCache(a: map<ObjId, CacheRecord>, b: map<ObjId, CacheRecord>)
  {
    Cached(a) == Cached(b)
  }

  lemma SameTotals(a: map<ObjId, CacheRecord>, b: map<ObjId, CacheRecord>)
    requires SameCache(a, b)
    ensures TotalHeld(a) == TotalHeld(b) && TotalUnfilled(a) == TotalUnfilled(b)
  {
    ExternsCountNothing(a);
    ExternsCountNothing(b);
  }

  lemma CachedAt(a: map<ObjId, CacheRecord>, b: map<ObjId, CacheRecord>, id: ObjId)
    requires SameCache(a, b) && id in a && !a[id].kind.ExternFile?
    ensures id in b && b[id] == a[id]
  {
    assert id in Cached(a);
    assert id in Cached(b) && Cached(b)[id] == Cached(a)[id];
  }

  /** What a pass took. */
  function Taken(before: map<ObjId, CacheRecord>, after: map<ObjId, CacheRecord>): set<ObjId> { before.Keys - after.Keys }

  /** Candidates that both tables agree on. */
  ghost predicate SameCandidates(b1: map<ObjId, CacheRecord>, c1: set<ObjId>, b2: map<ObjId, CacheRecord>, c2: set<ObjId>)
  {
    forall id :: id in b1 && id in b2 && !b1[id].kind.ExternFile? && !b2[id].kind.ExternFile? ==> (id in c1 <==> id in c2)
  }

  lemma FreeBoth(b1: map<ObjId, CacheRecord>, b2: map<ObjId, CacheRecord>, blocked: set<ObjId>, id: ObjId)
    requires SameCache(b1, b2) && Free(b1, blocked, id)
    ensures Free(b2, blocked, id) && b2[id] == b1[id]
  {
    CachedAt(b1, b2, id);
  }

  /** If the second pass took something the first did not, it took all the first did, and its last one is left there. */
  lemma FurtherOn(b1: map<ObjId, CacheRecord>, a1: map<ObjId, CacheRecord>, c1: set<ObjId>, b2: map<ObjId, CacheRecord>,
                  a2: map<ObjId, CacheRecord>, c2: set<ObjId>, blocked: set<ObjId>, last: ObjId, k: ObjId)
    requires SameCache(b1, b2) && SameCandidates(b1, c1, b2, c2)
    requires TookInOrder(b1, a1, blocked, c1) && TookInOrder(b2, a2, blocked, c2)
    requires k in Taken(b2, a2) && k !in Taken(b1, a1) && LastTaken(b2, a2, last)
    ensures last in a1 && a1[last] == b2[last] && last in c1 && Free(a1, blocked, last)
    ensures Taken(b1, a1) <= Taken(b2, a2)
  {
    FreeBoth(b2, b1, blocked, k);
    FreeBoth(b2, b1, blocked, last);
    forall j | j in Taken(b1, a1)
      ensures j in Taken(b2, a2)
    {
      FreeBoth(b1, b2, blocked, j);
      if j in a2 {
        assert false;
      }
    }
    if last !in a1 {
      assert false;
    }
  }

  /** Then the first left more than the second, by at least the last one's weight. */
  lemma LeftMore(b1: map<ObjId, CacheRecord>, a1: map<ObjId, CacheRecord>, b2: map<ObjId, CacheRecord>, a2: map<ObjId, CacheRecord>,
                 blocked: set<ObjId>, c1: set<ObjId>, c2: set<ObjId>, last: ObjId, f: (ObjId, CacheRecord) -> nat)
    requires SameCache(b1, b2) && TookInOrder(b1, a1, blocked, c1) && TookInOrder(b2, a2, blocked, c2)
    requires Taken(b1, a1) <= Taken(b2, a2) && last in a1 && last in b2 && last !in a2 && a1[last] == b2[last] && !b2[last].kind.ExternFile?
    ensures Total(Cached(a2), f) + f(last, b2[last]) <= Total(Cached(a1), f)
  {
    forall id | id in Cached(a2)
      ensures id in Cached(a1) && Cached(a1)[id] == Cached(a2)[id]
    {
      CachedAt(b2, b1, id);
    }
    TotalLess(Cached(a1), Cached(a2), f, last);
  }

  lemma SameAfter(b1: map<ObjId, CacheRecord>, a1: map<ObjId, CacheRecord>, c1: set<ObjId>, b2: map<ObjId, CacheRecord>,
                  a2: map<ObjId, CacheRecord>, c2: set<ObjId>, blocked: set<ObjId>)
    requires SameCache(b1, b2) && TookInOrder(b1, a1, blocked, c1) && TookInOrder(b2, a2, blocked, c2)
    requires Taken(b1, a1) == Taken(b2, a2)
    ensures SameCache(a1, a2)
  {
    forall id
      ensures id in Cached(a1) <==> id in Cached(a2)
      ensures id in Cached(a1) ==> Cached(a1)[id] == Cached(a2)[id]
    {
      if id in Cached(a1) {
        CachedAt(b1, b2, id);
        assert id !in Taken(b1, a1);
      }
      if id in Cached(a2) {
        CachedAt(b2, b1, id);
        assert id !in Taken(b2, a2);
      }
    }
  }

  // ---- each pass has one outcome ----

  lemma LruLast(before: map<ObjId, CacheRecord>, after: map<ObjId, CacheRecord>, freed: int, needed: int) returns (last: ObjId)
    requires JustEnough(before, after, freed, needed) && after != before
    ensures LastTaken(before, after, last) && last in before && freed < needed + |BytesHeld(before[last])|
  {
    hide BytesHeld;
    last :| LastTaken(before, after, last) && freed < needed + |BytesHeld(before[last])|;
  }

  lemma ReservationLast(before: map<ObjId, CacheRecord>, after: map<ObjId, CacheRecord>) returns (last: ObjId)
    requires JustEnoughRoom(before, after) && after != before
    ensures LastTaken(before, after, last) && last in before
    ensures TotalUnfilled(after) + |BytesMissing(before[last])| > MAX_RESERVED_BYTES
  {
    hide BytesMissing, TotalUnfilled;
    last :| LastTaken(before, after, last) && TotalUnfilled(after) + |BytesMissing(before[last])| > MAX_RESERVED_BYTES;
  }

  lemma LruNotFurther(b1: map<ObjId, CacheRecord>, a1: map<ObjId, CacheRecord>, f1: int, b2: map<ObjId, CacheRecord>,
                      a2: map<ObjId, CacheRecord>, f2: int, blocked: set<ObjId>, needed: int)
    requires SameCache(b1, b2) && LruPass(b1, a1, blocked, needed, f1) && LruPass(b2, a2, blocked, needed, f2)
    ensures Taken(b2, a2) <= Taken(b1, a1)
  {
    hide BytesHeld, TookInOrder, LastTaken;
    if k :| k in Taken(b2, a2) && k !in Taken(b1, a1) {
      var last := LruLast(b2, a2, f2, needed);
      TakenFree(b2, a2, blocked, b2.Keys, last);
      FurtherOn(b1, a1, b1.Keys, b2, a2, b2.Keys, blocked, last, k);
      LeftMore(b1, a1, b2, a2, blocked, b1.Keys, b2.Keys, last, HeldWeight());
      SameTotals(b1, b2);
      ExternsCountNothing(a1);
      ExternsCountNothing(a2);
      assert false;
    }
  }

  lemma TakenFree(before: map<ObjId, CacheRecord>, after: map<ObjId, CacheRecord>, blocked: set<ObjId>, c: set<ObjId>, last: ObjId)
    requires TookInOrder(before, after, blocked, c) && LastTaken(before, after, last)
    ensures last in before && last !in after && !before[last].kind.ExternFile?
  {
  }

  lemma ReservationNotFurther(b1: map<ObjId, CacheRecord>, a1: map<ObjId, CacheRecord>, f1: int, b2: map<ObjId, CacheRecord>,
                              a2: map<ObjId, CacheRecord>, f2: int, blocked: set<ObjId>)
    requires SameCache(b1, b2) && ReservationPass(b1, a1, blocked, f1) && ReservationPass(b2, a2, blocked, f2)
    ensures Taken(b2, a2) <= Taken(b1, a1)
  {
    hide BytesHeld, BytesMissing, TookInOrder, LastTaken;
    if k :| k in Taken(b2, a2) && k !in Taken(b1, a1) {
      var last := ReservationLast(b2, a2);
      TakenFree(b2, a2, blocked, ShortOnes(b2), last);
      ShortBoth(b1, b2);
      FurtherOn(b1, a1, ShortOnes(b1), b2, a2, ShortOnes(b2), blocked, last, k);
      LeftMore(b1, a1, b2, a2, blocked, ShortOnes(b1), ShortOnes(b2), last, UnfilledWeight());
      ExternsCountNothing(a1);
      ExternsCountNothing(a2);
      StillShort(b1, a1, blocked, last);
      assert false;
    }
  }

  lemma ShortBoth(b1: map<ObjId, CacheRecord>, b2: map<ObjId, CacheRecord>)
    requires SameCache(b1, b2)
    ensures SameCandidates(b1, ShortOnes(b1), b2, ShortOnes(b2))
  {
    hide BytesMissing;
    forall id | id in b1 && id in b2 && !b1[id].kind.ExternFile? && !b2[id].kind.ExternFile?
      ensures id in ShortOnes(b1) <==> id in ShortOnes(b2)
    {
      CachedAt(b1, b2, id);
    }
  }

  lemma StillShort(before: map<ObjId, CacheRecord>, after: map<ObjId, CacheRecord>, blocked: set<ObjId>, id: ObjId)
    requires TookInOrder(before, after, blocked, ShortOnes(before)) && id in after && id in ShortOnes(before)
    ensures BytesMissing(after[id]) != {}
  {
    hide BytesMissing;
  }

  lemma LruOnce(b1: map<ObjId, CacheRecord>, a1: map<ObjId, CacheRecord>, f1: int, b2: map<ObjId, CacheRecord>,
                a2: map<ObjId, CacheRecord>, f2: int, blocked: set<ObjId>, needed: int)
    requires SameCache(b1, b2) && LruPass(b1, a1, blocked, needed, f1) && LruPass(b2, a2, blocked, needed, f2)
    ensures Taken(b1, a1) == Taken(b2, a2) && SameCache(a1, a2) && f1 == f2
  {
    hide TookInOrder, JustEnough, TotalHeld;
    LruNotFurther(b1, a1, f1, b2, a2, f2, blocked, needed);
    LruNotFurther(b2, a2, f2, b1, a1, f1, blocked, needed);
    SameAfter(b1, a1, b1.Keys, b2, a2, b2.Keys, blocked);
    SameTotals(b1, b2);
    SameTotals(a1, a2);
  }

  lemma ReservationOnce(b1: map<ObjId, CacheRecord>, a1: map<ObjId, CacheRecord>, f1: int, b2: map<ObjId, CacheRecord>,
                        a2: map<ObjId, CacheRecord>, f2: int, blocked: set<ObjId>)
    requires SameCache(b1, b2) && ReservationPass(b1, a1, blocked, f1) && ReservationPass(b2, a2, blocked, f2)
    ensures Taken(b1, a1) == Taken(b2, a2) && SameCache(a1, a2) && f1 == f2
  {
    hide TookInOrder, JustEnoughRoom, TotalHeld, TotalUnfilled, BytesMissing;
    ReservationNotFurther(b1, a1, f1, b2, a2, f2, blocked);
    ReservationNotFurther(b2, a2, f2, b1, a1, f1, blocked);
    SameAfter(b1, a1, ShortOnes(b1), b2, a2, ShortOnes(b2), blocked);
    SameTotals(b1, b2);
    SameTotals(a1, a2);
  }

  /**
   * Two tables that differ at most in the user's own files come out of the quota with the same objects gone and the same
   * number returned. With one table taken twice: the outcome is determined.
   */
  lemma ExternsDoNotMatter(b1: map<ObjId, CacheRecord>, m1: map<ObjId, CacheRecord>, a1: map<ObjId, CacheRecord>, f1: int,
                           b2: map<ObjId, CacheRecord>, m2: map<ObjId, CacheRecord>, a2: map<ObjId, CacheRecord>, f2: int,
                           blocked: set<ObjId>, quota: nat)
    requires SameCache(b1, b2) && QuotaRun(b1, m1, a1, blocked, quota, f1) && QuotaRun(b2, m2, a2, blocked, quota, f2)
    ensures Taken(b1, a1) == Taken(b2, a2) && SameCache(a1, a2) && f1 == f2
  {
    hide ReservationPass, LruPass, TotalHeld, Taken;
    ReservationOnce(b1, m1, TotalHeld(b1) - TotalHeld(m1), b2, m2, TotalHeld(b2) - TotalHeld(m2), blocked);
    SameTotals(b1, b2);
    SameTotals(m1, m2);
    if TotalHeld(m1) > quota {
      LruOnce(m1, a1, TotalHeld(m1) - TotalHeld(a1), m2, a2, TotalHeld(m2) - TotalHeld(a2), blocked, TotalHeld(m1) - quota);
      LruFewer(m1, a1, blocked, TotalHeld(m1) - quota, TotalHeld(m1) - TotalHeld(a1));
      LruFewer(m2, a2, blocked, TotalHeld(m2) - quota, TotalHeld(m2) - TotalHeld(a2));
    }
    SameTotals(a1, a2);
    ReservationFewer(b1, m1, blocked, TotalHeld(b1) - TotalHeld(m1));
    ReservationFewer(b2, m2, blocked, TotalHeld(b2) - TotalHeld(m2));
    TakenTwice(b1, m1, a1);
    TakenTwice(b2, m2, a2);
  }

  lemma TakenTwice(before: map<ObjId, CacheRecord>, mid: map<ObjId, CacheRecord>, after: map<ObjId, CacheRecord>)
    requires after.Keys <= mid.Keys <= before.Keys
    ensures Taken(before, after) == Taken(before, mid) + Taken(mid, after)
  {
  }

  lemma LruFewer(before: map<ObjId, CacheRecord>, after: map<ObjId, CacheRecord>, blocked: set<ObjId>, needed: int, freed: int)
    requires LruPass(before, after, blocked, needed, freed)
    ensures after.Keys <= before.Keys
  {
    hide TotalHeld, JustEnough;
  }

  lemma ReservationFewer(before: map<ObjId, CacheRecord>, after: map<ObjId, CacheRecord>, blocked: set<ObjId>, freed: int)
    requires ReservationPass(before, after, blocked, freed)
    ensures after.Keys <= before.Keys
  {
    hide TotalHeld, TotalUnfilled, JustEnoughRoom;
  }
}
