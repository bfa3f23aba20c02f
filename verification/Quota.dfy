/** The cache quota: held bytes, outstanding reservations, and LRU eviction down to both bounds. */
module Quota {
  import opened Prelude
  import opened GroupRuns
  import opened MapSum

  const MAX_RESERVED_BYTES: nat := 137438953472

  datatype Kind = SparseFile(present: seq<Run>) | SlabRange | ExternFile

  datatype CacheRecord = CacheRecord(size: nat, kind: Kind, refcount: nat, lastAccess: nat)

  ghost predicate WellFormed(rec: CacheRecord)
  {
    rec.kind.SparseFile? ==> Canonical(rec.kind.present)
  }

  /** The bytes one run of groups covers in an object of `size` bytes. */
  function RunBytes(r: Run, size: nat): Run
  {
    Run(Min(r.start * GROUP_BYTES, size), Min(r.end * GROUP_BYTES, size))
  }

  /** The object's bytes whose group is present. */
  ghost function PresentBytes(rs: seq<Run>, size: nat): set<nat>
  {
    set p: nat | p < size && p / GROUP_BYTES in Groups(rs)
  }

  function HeldInRuns(rs: seq<Run>, size: nat): (n: nat)
    requires Canonical(rs)
  {
    if rs == [] then 0
    else
      var b := RunBytes(rs[|rs| - 1], size);
      HeldInRuns(rs[..|rs| - 1], size) + (b.end - b.start)
  }

  /**
   * The bytes of a record that are on disk for the cache: all of a slab object, the present groups of a sparse one, and
   * none of a file that is the user's own.
   */
  ghost function BytesHeld(rec: CacheRecord): set<nat>
  {
    match rec.kind
    case SlabRange => Span(Run(0, rec.size))
    case SparseFile(present) => PresentBytes(present, rec.size)
    case ExternFile => {}
  }

  /** The declared bytes of a sparse record that nobody has sent yet. */
  ghost function BytesMissing(rec: CacheRecord): set<nat>
  {
    match rec.kind
    case SparseFile(present) => set p: nat | p < rec.size && p / GROUP_BYTES !in Groups(present)
    case _ => {}
  }

  /** Bytes held on disk: what the quota charges. */
  function Held(rec: CacheRecord): nat
    requires WellFormed(rec)
  {
    match rec.kind
    case SlabRange => rec.size
    case ExternFile => 0
    case SparseFile(present) => HeldInRuns(present, rec.size)
  }

  /** The run-by-run sum counts exactly the bytes whose group is present. */
  lemma {:induction false} HeldCountsBytes(rs: seq<Run>, size: nat)
    requires Canonical(rs)
    ensures HeldInRuns(rs, size) == |PresentBytes(rs, size)|
  {
    if rs == [] {
      assert PresentBytes(rs, size) == {};
    } else {
      var k := |rs| - 1;
      var b := RunBytes(rs[k], size);
      HeldCountsBytes(rs[..k], size);
      LastRunBytes(rs, size);
      SpanSize(b);
      hide PresentBytes, Span, Groups, Canonical;
    }
  }

  lemma LastRunBytes(rs: seq<Run>, size: nat)
    requires Canonical(rs) && rs != []
    ensures PresentBytes(rs, size) == PresentBytes(rs[..|rs| - 1], size) + Span(RunBytes(rs[|rs| - 1], size))
    ensures PresentBytes(rs[..|rs| - 1], size) !! Span(RunBytes(rs[|rs| - 1], size))
  {
    var k := |rs| - 1;
    GroupsBelow(rs, k);
    assert Groups(rs) == Groups(rs[..k]) + Span(rs[k]);
    forall p: nat
      ensures p in Span(RunBytes(rs[k], size)) <==> p < size && p / GROUP_BYTES in Span(rs[k])
    {
      BytesOfRun(rs[k], size, p);
    }
  }

  lemma BytesOfRun(r: Run, size: nat, p: nat)
    ensures InRun(RunBytes(r, size), p) <==> p < size && InRun(r, p / GROUP_BYTES)
  {
  }

  /** What is charged for a record is the number of its bytes held, and never more than its size. */
  lemma HeldIs(rec: CacheRecord)
    requires WellFormed(rec)
    ensures Held(rec) == |BytesHeld(rec)| <= rec.size
  {
    SpanSize(Run(0, rec.size));
    if rec.kind.SparseFile? {
      HeldCountsBytes(rec.kind.present, rec.size);
      assert BytesHeld(rec) <= Span(Run(0, rec.size));
      SubsetSize(BytesHeld(rec), Span(Run(0, rec.size)));
    }
  }

  lemma SubsetSize(a: set<nat>, b: set<nat>)
    requires a <= b
    ensures |a| <= |b|
  {
    assert b == a + (b - a);
  }

  /** What is reserved for a record. */
  function Unfilled(rec: CacheRecord): nat
    requires WellFormed(rec)
  {
    if rec.kind.SparseFile? && Held(rec) < rec.size then rec.size - Held(rec) else 0
  }

  lemma UnfilledIs(rec: CacheRecord)
    requires WellFormed(rec)
    ensures Unfilled(rec) == |BytesMissing(rec)|
  {
    HeldIs(rec);
    if rec.kind.SparseFile? {
      SpanSize(Run(0, rec.size));
      assert Span(Run(0, rec.size)) == BytesHeld(rec) + BytesMissing(rec) && BytesHeld(rec) !! BytesMissing(rec);
    }
  }

  ghost predicate AllWellFormed(objects: map<ObjId, CacheRecord>)
  {
    forall id :: id in objects ==> WellFormed(objects[id])
  }

  ghost function HeldWeight(): (ObjId, CacheRecord) -> nat
  {
    (id: ObjId, rec: CacheRecord) => |BytesHeld(rec)|
  }

  ghost function UnfilledWeight(): (ObjId, CacheRecord) -> nat
  {
    (id: ObjId, rec: CacheRecord) => |BytesMissing(rec)|
  }

  /** The bytes held for all records together. */
  ghost function TotalHeld(objects: map<ObjId, CacheRecord>): nat { Total(objects, HeldWeight()) }

  /** The bytes still missing of all records together. */
  ghost function TotalUnfilled(objects: map<ObjId, CacheRecord>): nat { Total(objects, UnfilledWeight()) }

  lemma TotalsWithout(objects: map<ObjId, CacheRecord>, id: ObjId)
    requires AllWellFormed(objects) && id in objects
    ensures TotalHeld(objects) == TotalHeld(objects - {id}) + Held(objects[id])
    ensures TotalUnfilled(objects) == TotalUnfilled(objects - {id}) + Unfilled(objects[id])
  {
    TotalTakeOut(objects, HeldWeight(), id);
    TotalTakeOut(objects, UnfilledWeight(), id);
    HeldIs(objects[id]);
    UnfilledIs(objects[id]);
  }

  /** Eviction order: last access first, ties by id. */
  predicate Before(objects: map<ObjId, CacheRecord>, a: ObjId, b: ObjId)
    requires a in objects && b in objects
  {
    objects[a].lastAccess < objects[b].lastAccess || (objects[a].lastAccess == objects[b].lastAccess && a < b)
  }

  ghost predicate InLruOrder(objects: map<ObjId, CacheRecord>, ids: seq<ObjId>)
  {
    && (forall i :: 0 <= i < |ids| ==> ids[i] in objects)
    && (forall i, j :: 0 <= i < j < |ids| ==> Before(objects, ids[i], ids[j]))
  }

  ghost predicate IsOldest(objects: map<ObjId, CacheRecord>, ids: set<ObjId>, k: ObjId)
  {
    k in ids && ids <= objects.Keys && forall j :: j in ids ==> j == k || Before(objects, k, j)
  }

  lemma {:induction false} OldestExists(objects: map<ObjId, CacheRecord>, ids: set<ObjId>)
    requires ids != {} && ids <= objects.Keys
    ensures exists k :: IsOldest(objects, ids, k)
    decreases |ids|
  {
    var x :| x in ids;
    if ids - {x} == {} {
      forall j | j in ids
        ensures j == x
      {
        assert j == x || j in ids - {x};
      }
      assert IsOldest(objects, ids, x);
    } else {
      OldestExists(objects, ids - {x});
      var k :| IsOldest(objects, ids - {x}, k);
      var m := if Before(objects, x, k) then x else k;
      forall j | j in ids
        ensures j == m || Before(objects, m, j)
      {
        assert j == x || j in ids - {x};
      }
      assert IsOldest(objects, ids, m);
    }
  }

  /** The scan's candidates in eviction order, as the sort leaves them. */
  method SortByAge(objects: map<ObjId, CacheRecord>, ids: set<ObjId>) returns (sorted: seq<ObjId>)
    requires ids <= objects.Keys
    ensures InLruOrder(objects, sorted)
    ensures forall id :: id in sorted <==> id in ids
  {
    sorted := [];
    var todo := ids;
    while todo != {}
      invariant todo <= ids && InLruOrder(objects, sorted)
      invariant forall i, j :: 0 <= i < |sorted| && j in todo ==> Before(objects, sorted[i], j)
      invariant forall id :: id in sorted <==> id in ids && id !in todo
      decreases |todo|
    {
      OldestExists(objects, todo);
      ghost var oldest :| IsOldest(objects, todo, oldest);
      var k :| k in todo && forall j :: j in todo ==> j == k || Before(objects, k, j);
      sorted := sorted + [k];
      todo := todo - {k};
    }
  }

  /** What eviction may take: unpinned, not the user's own file, not being written, not held. */
  predicate Free(objects: map<ObjId, CacheRecord>, blocked: set<ObjId>, id: ObjId)
  {
    id in objects && objects[id].refcount == 0 && !objects[id].kind.ExternFile? && id !in blocked
  }

  /** What an eviction pass promises about what it took and what it left, `before` being the table it started from. */
  ghost predicate TookInOrder(before: map<ObjId, CacheRecord>, after: map<ObjId, CacheRecord>,
                              blocked: set<ObjId>, candidates: set<ObjId>)
  {
    && after.Keys <= before.Keys
    && (forall id :: id in after ==> after[id] == before[id])
    && (forall id :: id in before && id !in after ==> Free(before, blocked, id) && id in candidates)
    && (forall a, b :: a in before && a !in after && b in after && b in candidates && Free(before, blocked, b) ==>
          Before(before, a, b))
  }

  /** The last record a pass took, in its order. */
  ghost predicate LastTaken(before: map<ObjId, CacheRecord>, now: map<ObjId, CacheRecord>, last: ObjId)
  {
    last in before && last !in now && forall id :: id in before && id !in now ==> id == last || Before(before, id, last)
  }

  /** The pass went no further than it had to: short of its last victim, the demand was not met. */
  ghost predicate JustEnough(before: map<ObjId, CacheRecord>, now: map<ObjId, CacheRecord>, freed: int, needed: int)
  {
    now == before || exists last :: LastTaken(before, now, last) && freed < needed + |BytesHeld(before[last])|
  }

  /** The same for the reservation pass: with its last victim back, the bound would still be broken. */
  ghost predicate JustEnoughRoom(before: map<ObjId, CacheRecord>, now: map<ObjId, CacheRecord>)
  {
    now == before ||
    exists last :: LastTaken(before, now, last) && TotalUnfilled(now) + |BytesMissing(before[last])| > MAX_RESERVED_BYTES
  }

  /** Records short of their declared size. */
  ghost function ShortOnes(objects: map<ObjId, CacheRecord>): set<ObjId>
  {
    set id | id in objects && BytesMissing(objects[id]) != {}
  }

  /**
   * Eviction by age: only free objects go, oldest first, until `needed` bytes are freed or nothing free is left, and no
   * further.
   */
  ghost predicate LruPass(before: map<ObjId, CacheRecord>, after: map<ObjId, CacheRecord>, blocked: set<ObjId>, needed: int, freed: int)
  {
    && TotalHeld(before) == TotalHeld(after) + freed
    && TookInOrder(before, after, blocked, before.Keys)
    && (freed >= needed || forall id :: !Free(after, blocked, id))
    && JustEnough(before, after, freed, needed)
  }

  /** The reservation pass: the same among the records that are short, until what is missing is within the bound. */
  ghost predicate ReservationPass(before: map<ObjId, CacheRecord>, after: map<ObjId, CacheRecord>, blocked: set<ObjId>, freed: int)
  {
    && TotalHeld(before) == TotalHeld(after) + freed
    && TookInOrder(before, after, blocked, ShortOnes(before))
    && (TotalUnfilled(after) <= MAX_RESERVED_BYTES || forall id :: Free(after, blocked, id) ==> BytesMissing(after[id]) == {})
    && JustEnoughRoom(before, after)
    && (TotalUnfilled(before) <= MAX_RESERVED_BYTES ==> after == before)
  }

  /** Both bounds: first the reservations, then the held bytes, the latter only when they are over the quota. */
  ghost predicate QuotaRun(before: map<ObjId, CacheRecord>, mid: map<ObjId, CacheRecord>, after: map<ObjId, CacheRecord>,
                           blocked: set<ObjId>, quota: nat, freed: int)
  {
    && ReservationPass(before, mid, blocked, TotalHeld(before) - TotalHeld(mid))
    && TotalHeld(before) == TotalHeld(after) + freed
    && if TotalHeld(mid) <= quota then after == mid
       else LruPass(mid, after, blocked, TotalHeld(mid) - quota, TotalHeld(mid) - TotalHeld(after))
  }

  /** After `i` candidates: those walked are gone unless protected, and nothing else changed. */
  ghost predicate Walked(before: map<ObjId, CacheRecord>, now: map<ObjId, CacheRecord>, blocked: set<ObjId>,
                         order: seq<ObjId>, i: nat)
  {
    && i <= |order|
    && now.Keys <= before.Keys
    && (forall id :: id in now ==> now[id] == before[id])
    && (forall id :: id in before && id !in now ==> Free(before, blocked, id) && exists k :: 0 <= k < i && order[k] == id)
    && (forall k :: 0 <= k < i ==> order[k] !in now || !Free(before, blocked, order[k]))
  }

  lemma WalkStep(before: map<ObjId, CacheRecord>, now: map<ObjId, CacheRecord>, next: map<ObjId, CacheRecord>,
                 blocked: set<ObjId>, order: seq<ObjId>, i: nat)
    requires i < |order| && InLruOrder(before, order) && Walked(before, now, blocked, order, i)
    requires next == if Free(now, blocked, order[i]) then now - {order[i]} else now
    ensures Walked(before, next, blocked, order, i + 1)
  {
    forall id | id in before && id !in next
      ensures Free(before, blocked, id) && exists k :: 0 <= k < i + 1 && order[k] == id
    {
      if id !in now {
        var k :| 0 <= k < i && order[k] == id;
        assert 0 <= k < i + 1 && order[k] == id;
      } else {
        assert order[i] == id;
      }
    }
  }

  /** The record taken at step `i` is the last one so far. */
  lemma TakenLast(before: map<ObjId, CacheRecord>, now: map<ObjId, CacheRecord>, blocked: set<ObjId>, order: seq<ObjId>, i: nat)
    requires i < |order| && InLruOrder(before, order) && Walked(before, now, blocked, order, i + 1) && order[i] !in now
    ensures LastTaken(before, now, order[i])
  {
    forall id | id in before && id !in now
      ensures id == order[i] || Before(before, id, order[i])
    {
      var k :| 0 <= k < i + 1 && order[k] == id;
    }
  }

  lemma WalkedRecord(before: map<ObjId, CacheRecord>, now: map<ObjId, CacheRecord>, blocked: set<ObjId>, order: seq<ObjId>, i: nat)
    requires i < |order| && Walked(before, now, blocked, order, i) && order[i] in now
    ensures order[i] in before && before[order[i]] == now[order[i]]
  {
  }

  lemma WalkedInOrder(before: map<ObjId, CacheRecord>, now: map<ObjId, CacheRecord>, blocked: set<ObjId>,
                      order: seq<ObjId>, i: nat, candidates: set<ObjId>)
    requires InLruOrder(before, order) && Walked(before, now, blocked, order, i)
    requires forall id :: id in order <==> id in candidates
    ensures TookInOrder(before, now, blocked, candidates)
    ensures i == |order| ==> forall id :: id in candidates ==> !Free(now, blocked, id)
  {
    forall a, b | a in before && a !in now && b in now && b in candidates && Free(before, blocked, b)
      ensures Before(before, a, b)
    {
      var k :| 0 <= k < i && order[k] == a;
      var j :| 0 <= j < |order| && order[j] == b;
      assert k < j;
    }
    if i == |order| {
      forall id | id in candidates
        ensures !Free(now, blocked, id)
      {
        var k :| 0 <= k < |order| && order[k] == id;
        assert order[k] !in now || !Free(before, blocked, order[k]);
      }
    }
  }

  class Cache {
    var objects: map<ObjId, CacheRecord>
    /** Ids with a sparse decode in flight, and ids held out of eviction, by count. */
    var writers: map<ObjId, nat>
    var holds: map<ObjId, nat>

    ghost predicate Valid()
      reads this
    {
      AllWellFormed(objects)
    }

    ghost function Blocked(): set<ObjId>
      reads this
    {
      writers.Keys + holds.Keys
    }

    /** What eviction must not take: pinned, the user's own file, being written, held. */
    ghost predicate Protected(id: ObjId)
      requires id in objects
      reads this
    {
      objects[id].refcount > 0 || objects[id].kind.ExternFile? || id in writers || id in holds
    }

    method DeleteIfUnreferenced(id: ObjId) returns (deleted: Option<CacheRecord>)
      requires Valid()
      modifies this`objects
      ensures Valid()
      ensures deleted == if Free(old(objects), Blocked(), id) then Some(old(objects)[id]) else None
      ensures objects == if Free(old(objects), Blocked(), id) then old(objects) - {id} else old(objects)
      ensures id in old(objects) ==> (id in objects <==> old(Protected(id)))
    {
      if id in writers {
        return None;
      }
      if id in holds {
        return None;
      }
      if id in objects && objects[id].refcount == 0 && !objects[id].kind.ExternFile? {
        deleted := Some(objects[id]);
        objects := objects - {id};
      } else {
        deleted := None;
      }
    }

    /** The bytes held: slab objects in full, present groups of sparse ones, nothing of the user's own files. */
    method TotalBytes() returns (total: nat)
      requires Valid()
      ensures total == TotalHeld(objects)
    {
      hide TotalHeld, TotalUnfilled, Held, Unfilled, WellFormed;
      total := 0;
      var todo := objects;
      EmptyTotals();
      while todo != map[]
        invariant AllWellFormed(todo)
        invariant total + TotalHeld(todo) == TotalHeld(objects)
        decreases |todo|
      {
        var id :| id in todo;
        TotalsWithout(todo, id);
        total := total + Held(todo[id]);
        todo := todo - {id};
      }
    }

    /** The outstanding reservation, and the unpinned records it could be reclaimed from. */
    method ScanReservations() returns (reserved: nat, candidates: set<ObjId>)
      requires Valid()
      ensures reserved == TotalUnfilled(objects)
      ensures forall id :: id in candidates <==> id in ShortOnes(objects) && objects[id].refcount == 0
    {
      hide TotalHeld, TotalUnfilled, Held, Unfilled, WellFormed, BytesMissing;
      reserved, candidates := 0, {};
      var todo := objects;
      EmptyTotals();
      while todo != map[]
        invariant AllWellFormed(todo) && todo.Keys <= objects.Keys && forall id :: id in todo ==> todo[id] == objects[id]
        invariant reserved + TotalUnfilled(todo) == TotalUnfilled(objects)
        invariant forall id :: id in candidates <==> id !in todo && id in ShortOnes(objects) && objects[id].refcount == 0
        decreases |todo|
      {
        var id :| id in todo;
        TotalsWithout(todo, id);
        UnfilledIs(todo[id]);
        var unfilled := Unfilled(todo[id]);
        if unfilled > 0 {
          reserved := reserved + unfilled;
          if todo[id].refcount == 0 {
            candidates := candidates + {id};
          }
        }
        todo := todo - {id};
      }
    }

    /** Evict least recently used objects until `bytesNeeded` are freed or nothing evictable is left. */
    method EvictLru(bytesNeeded: nat) returns (freed: nat)
      requires Valid()
      modifies this`objects
      ensures Valid()
      ensures LruPass(old(objects), objects, Blocked(), bytesNeeded, freed)
      ensures forall id :: id in old(objects) && old(Protected(id)) ==> id in objects && objects[id] == old(objects)[id]
      ensures freed >= bytesNeeded || forall id :: id in objects ==> Protected(id)
      ensures TotalUnfilled(objects) <= TotalUnfilled(old(objects))
    {
      hide TotalHeld, TotalUnfilled, Held, Unfilled, WellFormed, Walked, InLruOrder, TookInOrder, LastTaken, BytesHeld, BytesMissing;
      ghost var blocked := Blocked();
      var before := objects;
      var candidates := set id | id in before && before[id].refcount == 0 && !before[id].kind.ExternFile?;
      var order := SortByAge(before, candidates);
      freed := 0;
      var i := 0;
      NothingWalked(before, blocked, order);
      while i < |order| && freed < bytesNeeded
        invariant 0 <= i <= |order|
        invariant Valid() && Blocked() == blocked
        invariant TotalHeld(before) == TotalHeld(objects) + freed
        invariant TotalUnfilled(objects) <= TotalUnfilled(before)
        invariant Walked(before, objects, blocked, order, i)
        invariant JustEnough(before, objects, freed, bytesNeeded)
      {
        ghost var now := objects;
        var rec := DeleteIfUnreferenced(order[i]);
        WalkStep(before, now, objects, blocked, order, i);
        if rec.Some? {
          TotalsWithout(now, order[i]);
          HeldIs(rec.value);
          freed := freed + Held(rec.value);
          assert order[i] in before && order[i] !in objects && before[order[i]] == rec.value by {
            WalkedRecord(before, now, blocked, order, i);
          }
          TakenLast(before, objects, blocked, order, i);
          assert freed < bytesNeeded + |BytesHeld(before[order[i]])|;
        }
        i := i + 1;
      }
      WalkedInOrder(before, objects, blocked, order, i, candidates);
      WidenCandidates(before, objects, blocked, candidates);
      OthersSpared(before, objects, blocked, before.Keys);
    }

    /** Reclaim LRU unfilled reservations until they are back under the bound. */
    method EnforceReservationBound() returns (freed: nat)
      requires Valid()
      modifies this`objects
      ensures Valid()
      ensures ReservationPass(old(objects), objects, Blocked(), freed)
    {
      hide TotalHeld, TotalUnfilled, Held, Unfilled, WellFormed, Walked, InLruOrder, TookInOrder, LastTaken, ShortOnes, BytesHeld, BytesMissing;
      ghost var blocked := Blocked();
      var before := objects;
      var reserved, candidates := ScanReservations();
      var order: seq<ObjId> := [];
      freed := 0;
      var i := 0;
      if reserved <= MAX_RESERVED_BYTES {
        NothingTaken(before, blocked, ShortOnes(before));
        return;
      }
      ScanInside(before, candidates);
      order := SortByAge(before, candidates);
      NothingWalked(before, blocked, order);
      while i < |order| && reserved > MAX_RESERVED_BYTES
        invariant 0 <= i <= |order|
        invariant Valid() && Blocked() == blocked
        invariant TotalHeld(before) == TotalHeld(objects) + freed
        invariant reserved == TotalUnfilled(objects)
        invariant Walked(before, objects, blocked, order, i)
        invariant JustEnoughRoom(before, objects)
      {
        ghost var now := objects;
        var rec := DeleteIfUnreferenced(order[i]);
        WalkStep(before, now, objects, blocked, order, i);
        if rec.Some? {
          TotalsWithout(now, order[i]);
          UnfilledIs(rec.value);
          var unfilled := Unfilled(rec.value);
          reserved := reserved - unfilled;
          freed := freed + Held(rec.value);
          assert order[i] in before && order[i] !in objects && before[order[i]] == rec.value by {
            WalkedRecord(before, now, blocked, order, i);
          }
          TakenLast(before, objects, blocked, order, i);
          assert TotalUnfilled(objects) + |BytesMissing(before[order[i]])| > MAX_RESERVED_BYTES;
        }
        i := i + 1;
      }
      WalkedInOrder(before, objects, blocked, order, i, candidates);
      ShortCandidates(before, objects, blocked, candidates);
    }

    /**
     * Enforce both bounds. Bytes are conserved, only evictable objects go and in LRU order within each pass, and
     * each bound holds in the end unless nothing evictable is left that could lower it.
     */
    method EnforceQuota(quota: nat) returns (freed: nat, ghost mid: map<ObjId, CacheRecord>)
      requires Valid()
      modifies this`objects
      ensures Valid()
      ensures QuotaRun(old(objects), mid, objects, Blocked(), quota, freed)
      ensures forall id :: id in old(objects) && old(Protected(id)) ==> id in objects && objects[id] == old(objects)[id]
      ensures TotalHeld(objects) <= quota || forall id :: id in objects ==> Protected(id)
      ensures TotalUnfilled(objects) <= MAX_RESERVED_BYTES ||
              forall id :: id in objects && !Protected(id) ==> BytesMissing(objects[id]) == {}
      ensures TotalHeld(old(objects)) <= quota && TotalUnfilled(old(objects)) <= MAX_RESERVED_BYTES ==> objects == old(objects)
    {
      hide TotalHeld, TotalUnfilled, Held, Unfilled, WellFormed, BytesHeld, BytesMissing, TookInOrder, JustEnough, JustEnoughRoom;
      ghost var before := objects;
      freed := EnforceReservationBound();
      mid := objects;
      OthersSpared(before, mid, Blocked(), ShortOnes(before));
      var total := TotalBytes();
      if total > quota {
        var more := EvictLru(total - quota);
        freed := freed + more;
        OthersSpared(mid, objects, Blocked(), mid.Keys);
        StillNoneShort(mid, objects, Blocked());
      }
    }
  }

  /** What is not free stays. */
  lemma OthersSpared(before: map<ObjId, CacheRecord>, after: map<ObjId, CacheRecord>, blocked: set<ObjId>, candidates: set<ObjId>)
    requires TookInOrder(before, after, blocked, candidates)
    ensures forall id :: id in before && !Free(before, blocked, id) ==> id in after && after[id] == before[id]
  {
  }

  lemma ScanInside(before: map<ObjId, CacheRecord>, candidates: set<ObjId>)
    requires forall id :: id in candidates <==> id in ShortOnes(before) && before[id].refcount == 0
    ensures candidates <= before.Keys
  {
  }

  /** Eviction frees no record that was not free before. */
  lemma StillNoneShort(mid: map<ObjId, CacheRecord>, after: map<ObjId, CacheRecord>, blocked: set<ObjId>)
    requires TookInOrder(mid, after, blocked, mid.Keys)
    ensures (forall id :: Free(mid, blocked, id) ==> BytesMissing(mid[id]) == {}) ==>
              forall id :: Free(after, blocked, id) ==> BytesMissing(after[id]) == {}
  {
    hide BytesMissing;
  }

  lemma EmptyTotals()
    ensures TotalHeld(map[]) == 0 && TotalUnfilled(map[]) == 0
  {
  }

  lemma NothingWalked(before: map<ObjId, CacheRecord>, blocked: set<ObjId>, order: seq<ObjId>)
    ensures Walked(before, before, blocked, order, 0)
  {
  }

  lemma NothingTaken(before: map<ObjId, CacheRecord>, blocked: set<ObjId>, candidates: set<ObjId>)
    ensures TookInOrder(before, before, blocked, candidates)
  {
  }

  /** Everything evictable was a candidate of the LRU pass. */
  lemma WidenCandidates(before: map<ObjId, CacheRecord>, now: map<ObjId, CacheRecord>, blocked: set<ObjId>, candidates: set<ObjId>)
    requires TookInOrder(before, now, blocked, candidates)
    requires forall id :: id in before && before[id].refcount == 0 && !before[id].kind.ExternFile? ==> id in candidates
    ensures TookInOrder(before, now, blocked, before.Keys)
    ensures (forall id :: id in candidates ==> !Free(now, blocked, id)) ==> forall id :: !Free(now, blocked, id)
  {
  }

  lemma ShortCandidates(before: map<ObjId, CacheRecord>, now: map<ObjId, CacheRecord>, blocked: set<ObjId>, candidates: set<ObjId>)
    requires TookInOrder(before, now, blocked, candidates)
    requires forall id :: id in candidates <==> id in ShortOnes(before) && before[id].refcount == 0
    ensures TookInOrder(before, now, blocked, ShortOnes(before))
    ensures (forall id :: id in candidates ==> !Free(now, blocked, id)) ==>
              forall id :: Free(now, blocked, id) ==> BytesMissing(now[id]) == {}
  {
    hide BytesMissing;
  }
}
