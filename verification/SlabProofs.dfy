/** Every interleaving of slab operations, crashes and reopens keeps the slab invariant. */
module SlabProofs {
  import opened Prelude
  import opened SlabStore

  // ---- threads ----

  /**
   * Nothing a compaction relies on was disturbed: below the open slab files keep their bytes or go, rows stay sealed
   * or go, and no record appears.
   */
  ghost predicate Calm(s: State, s': State)
  {
    && s.mode.Up? && s'.mode.Up? && s.mode.slab <= s'.mode.slab
    && (forall n: nat :: n < s.mode.slab ==> FileOf(s', n) == FileOf(s, n) || FileOf(s', n) == [])
    && (forall n :: n < s.mode.slab && n in s'.slabs ==>
          n in s.slabs && s'.slabs[n].sealed == s.slabs[n].sealed && (n in s.cut ==> n in s'.cut))
    && (forall id :: id in s'.objects && s'.objects[id].loc.InSlab? && s'.objects[id].loc.slab < s.mode.slab ==>
          id in s.objects && s'.objects[id].loc == s.objects[id].loc)
  }

  lemma EmptyRange(off: nat, content: seq<byte>)
    ensures RangeRight([], off, content)
  {
  }

  lemma CalmVictim(c: Content, s: State, s': State, victim: nat, rest: seq<Entry>)
    requires Calm(s, s') && VictimOk(c, s, victim, rest)
    ensures VictimOk(c, s', victim, rest)
  {
    hide RangeRight;
    forall i | 0 <= i < |rest|
      ensures RangeRight(FileOf(s', victim), rest[i].off, c(rest[i].id))
    {
      EmptyRange(rest[i].off, c(rest[i].id));
    }
    forall id | id in s'.objects && Lives(s'.objects[id], victim)
      ensures exists i :: 0 <= i < |rest| && rest[i].id == id && rest[i].off == s'.objects[id].loc.off
    {
      assert Lives(s.objects[id], victim);
    }
  }

  lemma CalmPc(c: Content, s: State, s': State, pc: Pc)
    requires Calm(s, s') && PcOk(c, s, pc)
    ensures PcOk(c, s', pc)
  {
    hide VictimOk, Calm;
    if pc.Moving? || pc.MoveRead? || pc.MoveAppended? {
      CalmVictim(c, s, s', pc.victim, pc.rest);
    } else {
      CalmDropped(s, s');
    }
  }

  lemma CalmDropped(s: State, s': State)
    requires Calm(s, s')
    ensures s'.mode.Up? && forall n :: n !in s.slabs && n < s.mode.slab ==> n !in s'.slabs && n < s'.mode.slab
  {
  }

  lemma CalmSame(s: State, s': State)
    requires s.mode.Up? && s'.mode == s.mode && s'.files == s.files && s'.slabs == s.slabs && s.cut <= s'.cut
    requires s'.objects == s.objects
    ensures Calm(s, s')
  {
    assert forall n :: FileOf(s', n) == FileOf(s, n);
  }

  /** A step that leaves the others in peace and moves thread `t`. */
  lemma ThreadsMoved(c: Content, s: State, s': State, t: Tid, pc: Pc)
    requires ThreadInv(c, s) && Calm(s, s') && s'.pcs == s.pcs[t := pc] && PcOk(c, s', pc)
    ensures ThreadInv(c, s')
  {
    hide PcOk, Calm;
    forall u: Tid
      ensures PcOk(c, s', PcOf(s', u))
    {
      assert PcOf(s', u) == if u == t then pc else PcOf(s, u);
      if u != t {
        CalmPc(c, s, s', PcOf(s, u));
      }
    }
  }

  lemma ThreadsStand(c: Content, s: State, s': State)
    requires ThreadInv(c, s) && Calm(s, s') && s'.pcs == s.pcs
    ensures ThreadInv(c, s')
  {
    hide PcOk, Calm;
    forall u: Tid
      ensures PcOk(c, s', PcOf(s', u))
    {
      assert PcOf(s', u) == PcOf(s, u);
      CalmPc(c, s, s', PcOf(s, u));
    }
  }

  predicate HoldsLock(pc: Pc) { pc.InsertAppended? || pc.MoveAppended? }

  lemma LockStays(c: Content, s: State, s': State, t: Tid, pc: Pc)
    requires LockInv(c, s) && s'.pending == s.pending && s'.pcs == s.pcs[t := pc] && !HoldsLock(pc) && !HoldsLock(PcOf(s, t))
    ensures LockInv(c, s')
  {
    forall u: Tid
      ensures PcOf(s', u) == if u == t then pc else PcOf(s, u)
    {
    }
  }

  lemma LockTaken(c: Content, s: State, s': State, t: Tid, pc: Pc)
    requires LockInv(c, s) && s.pending.None? && s'.pcs == s.pcs[t := pc] && s'.pending.Some? && s'.pending.value.tid == t
    requires (pc.InsertAppended? && s'.pending.value.bytes == c(pc.id)) || (pc.MoveAppended? && s'.pending.value.bytes == pc.bytes)
    ensures LockInv(c, s')
  {
    forall u: Tid
      ensures PcOf(s', u) == if u == t then pc else PcOf(s, u)
    {
    }
  }

  lemma LockFreed(c: Content, s: State, s': State, t: Tid, pc: Pc)
    requires LockInv(c, s) && HoldsLock(PcOf(s, t)) && s'.pending.None? && s'.pcs == s.pcs[t := pc] && !HoldsLock(pc)
    ensures LockInv(c, s')
  {
    forall u: Tid
      ensures PcOf(s', u) == if u == t then pc else PcOf(s, u)
    {
    }
  }

  lemma LockStands(c: Content, s: State, s': State)
    requires LockInv(c, s) && s'.pending == s.pending && s'.pcs == s.pcs
    ensures LockInv(c, s')
  {
    assert forall u: Tid :: PcOf(s', u) == PcOf(s, u);
  }

  /** A step that only moves thread `t`, not in or out of the slab lock. */
  lemma OnlyMoves(c: Content, s: State, t: Tid, pc: Pc)
    requires Inv(c, s) && s.mode.Up? && PcOk(c, s, pc) && !HoldsLock(pc) && !HoldsLock(PcOf(s, t))
    ensures Inv(c, Goto(s, t, pc))
  {
    hide RangeRight, Calm, PcOk, Apart;
    var s' := Goto(s, t, pc);
    CalmSame(s, s');
    SameFiles(c, s, s');
    assert forall n :: FileOf(s', n) == FileOf(s, n);
    assert LockInv(c, s') by { LockStays(c, s, s', t, pc); }
    assert PcOk(c, s', pc) by { CalmPc(c, s, s', pc); }
    assert ThreadInv(c, s') by { ThreadsMoved(c, s, s', t, pc); }
  }

  lemma SameFiles(c: Content, s: State, s': State)
    requires s'.objects == s.objects && s'.files == s.files && ContentInv(c, s)
    ensures ContentInv(c, s')
  {
    hide RangeRight;
    assert forall n :: FileOf(s', n) == FileOf(s, n);
  }

  // ---- transactions on records ----

  /** Records keep their places or go; only dead bytes and other columns change. */
  ghost predicate FewerPlaces(s: State, s': State)
  {
    && s'.files == s.files && s'.mode == s.mode && s'.cut == s.cut && s'.slabs.Keys == s.slabs.Keys
    && (forall n :: n in s.slabs ==> s'.slabs[n].len == s.slabs[n].len && s'.slabs[n].sealed == s.slabs[n].sealed)
    && (forall id :: id in s'.objects && s'.objects[id].loc.InSlab? ==>
          id in s.objects && s'.objects[id].loc == s.objects[id].loc && s'.objects[id].size == s.objects[id].size)
  }

  lemma FewerKeeps(c: Content, s: State, s': State)
    requires FewerPlaces(s, s') && s.mode.Up? && s'.pending == s.pending
    requires TopInv(s) && LenInv(s) && InsideInv(s) && DisjointInv(s) && ContentInv(c, s)
    ensures TopInv(s') && LenInv(s') && InsideInv(s') && DisjointInv(s') && ContentInv(c, s') && Calm(s, s')
  {
    hide RangeRight;
    assert forall n :: FileOf(s', n) == FileOf(s, n);
    assert InsideInv(s') && ContentInv(c, s') && Calm(s, s');
    forall a, b | a in s'.objects && b in s'.objects && a != b && SameSlab(s'.objects[a], s'.objects[b])
      ensures Apart(s'.objects[a], s'.objects[b])
    {
      assert SameSlab(s.objects[a], s.objects[b]);
    }
  }

  lemma FewerByAll(c: Content, s: State, s': State)
    requires Inv(c, s) && s.mode.Up? && FewerPlaces(s, s') && s'.pending == s.pending && s'.pcs == s.pcs
    ensures Inv(c, s')
  {
    hide FewerPlaces, TopInv, LenInv, InsideInv, DisjointInv, ContentInv, LockInv, ThreadInv, Calm;
    FewerKeeps(c, s, s');
    LockStands(c, s, s');
    ThreadsStand(c, s, s');
  }

  lemma BookedRows(slabs: map<nat, SlabMeta>, loc: Loc, n: nat)
    ensures var after := BookDead(slabs, loc, n);
            && after.Keys == slabs.Keys
            && (forall k :: k in slabs ==> after[k].len == slabs[k].len && after[k].sealed == slabs[k].sealed)
            && (forall k :: k in slabs ==> after[k].dead == slabs[k].dead + if loc.InSlab? && loc.slab == k then n else 0)
  {
  }

  lemma DeleteFewer(s: State, id: ObjId, seen: ObjRecord)
    ensures FewerPlaces(s, DeleteRow(s, id, seen))
  {
    BookedRows(s.slabs, seen.loc, seen.size);
    hide BookDead;
  }

  lemma RecordStepKeeps(c: Content, cfg: Config, s: State, t: Tid, a: Action)
    requires Inv(c, s) && Enabled(c, cfg, s, t, a) && RecordStep(a)
    ensures Inv(c, Apply(c, cfg, s, t, a))
  {
    hide Inv, ApplyRow, ApplyCompact, ApplyOpen, BookDead, DeleteRow;
    if a.Evict? {
      DeleteFewer(s, a.id, s.objects[a.id]);
      DeleteSame(s, a.id, s.objects[a.id]);
    }
    var s' := Apply(c, cfg, s, t, a);
    assert FewerPlaces(s, s') && s'.pending == s.pending && s'.pcs == s.pcs;
    FewerByAll(c, s, s');
  }

  lemma DeleteSame(s: State, id: ObjId, seen: ObjRecord)
    ensures var s' := DeleteRow(s, id, seen);
            s'.pending == s.pending && s'.pcs == s.pcs && s'.mode == s.mode && s'.files == s.files && s'.cut == s.cut &&
            s'.objects == s.objects - {id}
  {
  }

  lemma RemoveTxnKeeps(c: Content, cfg: Config, s: State, t: Tid)
    requires Inv(c, s) && Enabled(c, cfg, s, t, RemoveTxn)
    ensures Inv(c, Apply(c, cfg, s, t, RemoveTxn))
  {
    hide Inv, ApplyRecord, ApplyCompact, ApplyOpen, DeleteRow;
    var pc := PcOf(s, t);
    var mid := DeleteRow(s, pc.id, pc.seen);
    DeleteFewer(s, pc.id, pc.seen);
    DeleteSame(s, pc.id, pc.seen);
    FewerByAll(c, s, mid);
    assert PcOf(mid, t) == pc;
    OnlyMoves(c, mid, t, if pc.inserting then Rechecking(pc.id) else Idle);
  }

  // ---- appends ----

  /** Appending to the open slab leaves every recorded range as it was. */
  lemma AppendRange(file: seq<byte>, more: seq<byte>, off: nat, content: seq<byte>)
    requires RangeRight(file, off, content)
    requires off + |content| <= |file|
    ensures RangeRight(file + more, off, content)
  {
  }

  /** The state after thread `t` appended bytes and before their transaction. */
  ghost function Appended(s: State, t: Tid, bytes: seq<byte>, pc: Pc): State
    requires s.mode.Up?
  {
    Goto(s.(files := s.files[s.mode.slab := FileOf(s, s.mode.slab) + bytes], pending := Some(Pending(t, bytes))), t, pc)
  }

  lemma AppendContent(c: Content, s: State, t: Tid, bytes: seq<byte>, pc: Pc)
    requires s.mode.Up? && s.pending.None? && ContentInv(c, s) && InsideInv(s) && LenInv(s)
    ensures ContentInv(c, Appended(s, t, bytes, pc))
  {
    hide RangeRight;
    var s' := Appended(s, t, bytes, pc);
    forall id | id in s'.objects && s'.objects[id].loc.InSlab?
      ensures RangeRight(FileOf(s', s'.objects[id].loc.slab), s'.objects[id].loc.off, c(id))
    {
      var rec := s.objects[id];
      if rec.loc.slab == s.mode.slab {
        AppendRange(FileOf(s, s.mode.slab), bytes, rec.loc.off, c(id));
      }
    }
  }

  lemma AppendKeeps(c: Content, s: State, t: Tid, bytes: seq<byte>, pc: Pc)
    requires Inv(c, s) && s.mode.Up? && s.pending.None? && PcOk(c, s, pc)
    requires (pc.InsertAppended? && bytes == c(pc.id)) || (pc.MoveAppended? && bytes == pc.bytes)
    ensures Inv(c, Appended(s, t, bytes, pc))
  {
    hide RangeRight, Apart, PcOk;
    var s' := Appended(s, t, bytes, pc);
    assert TopInv(s') && LenInv(s') && InsideInv(s') && DisjointInv(s');
    assert Calm(s, s') by { assert forall n :: n != s.mode.slab ==> FileOf(s', n) == FileOf(s, n); }
    hide Calm;
    assert ContentInv(c, s') by { AppendContent(c, s, t, bytes, pc); }
    assert LockInv(c, s') by { LockTaken(c, s, s', t, pc); }
    CalmPc(c, s, s', pc);
    assert ThreadInv(c, s') by { ThreadsMoved(c, s, s', t, pc); }
  }

  /** A torn append is shrunk back: the file is as it was. */
  lemma TornAppendKeeps(c: Content, cfg: Config, s: State, t: Tid, junk: seq<byte>)
    requires Inv(c, s) && Enabled(c, cfg, s, t, TornAppend(junk))
    ensures Inv(c, Apply(c, cfg, s, t, TornAppend(junk)))
  {
    hide RangeRight, Apart, PcOk, ApplyRecord, ApplyCompact, ApplyOpen;
    var s' := Apply(c, cfg, s, t, TornAppend(junk));
    var file := FileOf(s, s.mode.slab);
    assert (file + junk)[..s.mode.off] == file;
    assert forall n :: FileOf(s', n) == FileOf(s, n);
    assert TopInv(s') && LenInv(s') && InsideInv(s') && DisjointInv(s') && ContentInv(c, s') && Calm(s, s');
    hide Calm;
    assert LockInv(c, s') by { LockStays(c, s, s', t, Idle); }
    assert ThreadInv(c, s') by {
      IdleOk(c, s');
      ThreadsMoved(c, s, s', t, Idle);
    }
  }

  lemma IdleOk(c: Content, s: State)
    ensures PcOk(c, s, Idle)
  {
  }

  /** Bytes read from the victim for a snapshot entry are the object's own. */
  lemma ReadRight(c: Content, s: State, victim: nat, e: Entry)
    requires e.size == |c(e.id)| && RangeRight(FileOf(s, victim), e.off, c(e.id))
    requires Readable(s, victim, e.off, e.size)
    ensures ReadSlab(s, victim, e.off, e.size) == c(e.id)
  {
    forall p | 0 <= p < e.size
      ensures ReadSlab(s, victim, e.off, e.size)[p] == c(e.id)[p]
    {
      assert FileOf(s, victim)[e.off + p] == c(e.id)[p];
    }
  }

  // ---- committing an append ----

  /** Where an append commits: the row of the open slab grows, and a full slab is sealed with the next one opened. */
  lemma CommitTop(s: State, cfg: Config, n: nat, dead: nat)
    requires TopInv(s) && s.mode.Up? && LenInv(s) && s.pending.Some? && n == |s.pending.value.bytes|
    ensures TopInv(CommitAppend(s, cfg, n, dead)) && LenInv(CommitAppend(s, cfg, n, dead))
  {
    var s' := CommitAppend(s, cfg, n, dead);
    assert forall k :: FileOf(s', k) == FileOf(s, k);
    assert s.mode.slab + 1 !in s.files;
  }

  /** The rows after a commit: the open slab's, the fresh one, and every other unchanged. */
  lemma CommitRows(s: State, cfg: Config, n: nat, dead: nat)
    requires s.mode.Up? && OpenIsTop(s, s.mode.slab) && s.slabs[s.mode.slab].len == s.mode.off
    ensures var s' := CommitAppend(s, cfg, n, dead);
            && s'.objects == s.objects && s'.files == s.files && s'.pcs == s.pcs && s'.cut == s.cut
            && s'.pending.None? && s'.mode.Up? && s.mode.slab <= s'.mode.slab
            && s.slabs.Keys <= s'.slabs.Keys <= s.slabs.Keys + {s.mode.slab + 1}
            && s'.slabs[s.mode.slab].len == s.mode.off + n
            && s'.slabs[s.mode.slab].dead == s.slabs[s.mode.slab].dead + dead
            && (forall k :: k in s.slabs && k != s.mode.slab ==> s'.slabs[k] == s.slabs[k])
            && (s.mode.slab + 1 in s'.slabs ==> s'.slabs[s.mode.slab + 1] == SlabMeta(0, 0, false))
            && s.mode.slab + 1 !in s.slabs
  {
  }

  /** The state after a commit that places the record of `id` at the end of the open slab. */
  ghost function Placed(cfg: Config, s: State, id: ObjId, rec: ObjRecord): State
    requires s.mode.Up?
  {
    CommitAppend(s.(objects := s.objects[id := rec]), cfg, rec.size, 0)
  }

  /** What placing needs: the thread's bytes are the tail of the open slab. */
  ghost predicate TailReady(c: Content, s: State, id: ObjId, rec: ObjRecord)
  {
    && s.mode.Up? && s.pending.Some? && s.pending.value.bytes == c(id)
    && rec.loc == InSlab(s.mode.slab, s.mode.off) && rec.size == |c(id)|
  }

  lemma PlacedRanges(cfg: Config, s: State, id: ObjId, rec: ObjRecord)
    requires InsideInv(s) && DisjointInv(s) && s.mode.Up? && OpenIsTop(s, s.mode.slab)
    requires s.slabs[s.mode.slab].len == s.mode.off && rec.loc == InSlab(s.mode.slab, s.mode.off)
    ensures InsideInv(Placed(cfg, s, id, rec)) && DisjointInv(Placed(cfg, s, id, rec))
  {
    var s1 := s.(objects := s.objects[id := rec]);
    var s' := Placed(cfg, s, id, rec);
    CommitRows(s1, cfg, rec.size, 0);
    hide CommitAppend, OpenIsTop;
    assert InsideInv(s');
    forall a, b | a in s'.objects && b in s'.objects && a != b && SameSlab(s'.objects[a], s'.objects[b])
      ensures Apart(s'.objects[a], s'.objects[b])
    {
      if a != id && b != id {
        assert SameSlab(s.objects[a], s.objects[b]);
      }
    }
  }

  lemma PlacedContent(c: Content, cfg: Config, s: State, id: ObjId, rec: ObjRecord)
    requires ContentInv(c, s) && LenInv(s) && TailReady(c, s, id, rec)
    ensures ContentInv(c, Placed(cfg, s, id, rec))
  {
    hide RangeRight;
    var s1 := s.(objects := s.objects[id := rec]);
    var s' := Placed(cfg, s, id, rec);
    assert s'.files == s.files && s'.objects == s1.objects;
    hide CommitAppend;
    TailIsRight(FileOf(s, s.mode.slab), s.mode.off, c(id));
    forall i | i in s'.objects && s'.objects[i].loc.InSlab?
      ensures s'.objects[i].size == |c(i)| && RangeRight(FileOf(s', s'.objects[i].loc.slab), s'.objects[i].loc.off, c(i))
    {
      assert FileOf(s', s'.objects[i].loc.slab) == FileOf(s, s'.objects[i].loc.slab);
    }
  }

  lemma TailIsRight(file: seq<byte>, off: nat, content: seq<byte>)
    requires off <= |file| && file[off..] == content
    ensures RangeRight(file, off, content)
  {
    forall p | 0 <= p < |content| && off + p < |file|
      ensures file[off + p] == content[p]
    {
      assert file[off..][p] == file[off + p];
    }
  }

  /** A commit, with or without a placed record, disturbs no compaction. */
  lemma CommitCalm(cfg: Config, s: State, s1: State, n: nat, dead: nat)
    requires s.mode.Up? && OpenIsTop(s, s.mode.slab) && s.slabs[s.mode.slab].len == s.mode.off
    requires s1 == s.(objects := s1.objects)
    requires forall id :: id in s1.objects && s1.objects[id].loc.InSlab? && s1.objects[id].loc.slab < s.mode.slab ==>
               id in s.objects && s1.objects[id].loc == s.objects[id].loc
    ensures Calm(s, CommitAppend(s1, cfg, n, dead))
  {
    CommitRows(s1, cfg, n, dead);
    hide CommitAppend;
    var s' := CommitAppend(s1, cfg, n, dead);
    assert forall k :: FileOf(s', k) == FileOf(s, k);
  }

  /** What a running store's slab table and files say does not depend on the records. */
  lemma OtherRow(s: State, s1: State)
    requires s.mode.Up? && s1 == s.(objects := s1.objects) && TopInv(s) && LenInv(s)
    ensures TopInv(s1) && LenInv(s1)
    ensures OpenIsTop(s, s.mode.slab) && OpenIsTop(s1, s.mode.slab) && s.slabs[s.mode.slab].len == s.mode.off
  {
    assert forall k :: FileOf(s1, k) == FileOf(s, k);
  }

  /** Everything but the threads after a placing commit. */
  lemma PlacedKeeps(c: Content, cfg: Config, s: State, id: ObjId, rec: ObjRecord)
    requires TailReady(c, s, id, rec)
    requires TopInv(s) && LenInv(s) && InsideInv(s) && DisjointInv(s) && ContentInv(c, s)
    ensures var s' := Placed(cfg, s, id, rec);
            && TopInv(s') && LenInv(s') && InsideInv(s') && DisjointInv(s') && ContentInv(c, s') && Calm(s, s')
            && s'.pending.None? && s'.pcs == s.pcs && s'.objects == s.objects[id := rec] && s'.files == s.files
  {
    hide RangeRight, Apart, ContentInv, InsideInv, DisjointInv, Calm, TopInv, LenInv, OpenIsTop, CommitAppend;
    var s1 := s.(objects := s.objects[id := rec]);
    OtherRow(s, s1);
    CommitTop(s1, cfg, rec.size, 0);
    CommitRows(s1, cfg, rec.size, 0);
    PlacedRanges(cfg, s, id, rec);
    PlacedContent(c, cfg, s, id, rec);
    CommitCalm(cfg, s, s1, rec.size, 0);
  }

  lemma GotoData(c: Content, s: State, t: Tid, pc: Pc)
    ensures var s' := Goto(s, t, pc);
            && (TopInv(s) ==> TopInv(s')) && (LenInv(s) ==> LenInv(s')) && (InsideInv(s) ==> InsideInv(s'))
            && (DisjointInv(s) ==> DisjointInv(s')) && (ContentInv(c, s) ==> ContentInv(c, s'))
  {
    hide RangeRight, Apart;
    var s' := Goto(s, t, pc);
    assert forall n :: FileOf(s', n) == FileOf(s, n);
    if TopInv(s) && s.mode.Down? {
      if slab :| OpenIsTop(s, slab) {
        assert OpenIsTop(s', slab);
      }
    }
  }

  lemma CalmGoto(s: State, mid: State, t: Tid, pc: Pc)
    requires Calm(s, mid)
    ensures Calm(s, Goto(mid, t, pc))
  {
    assert forall n :: FileOf(Goto(mid, t, pc), n) == FileOf(mid, n);
  }

  /** A transaction of the thread holding the slab lock, followed by its release. */
  lemma Commits(c: Content, s: State, mid: State, t: Tid, pc: Pc)
    requires Inv(c, s) && HoldsLock(PcOf(s, t)) && !HoldsLock(pc)
    requires TopInv(mid) && LenInv(mid) && InsideInv(mid) && DisjointInv(mid) && ContentInv(c, mid)
    requires Calm(s, mid) && mid.pending.None? && mid.pcs == s.pcs && PcOk(c, Goto(mid, t, pc), pc)
    ensures Inv(c, Goto(mid, t, pc))
  {
    hide RangeRight, TopInv, LenInv, InsideInv, DisjointInv, ContentInv, Calm, PcOk;
    var s' := Goto(mid, t, pc);
    GotoData(c, mid, t, pc);
    CalmGoto(s, mid, t, pc);
    assert LockInv(c, s') by { LockFreed(c, s, s', t, pc); }
    assert ThreadInv(c, s') by { ThreadsMoved(c, s, s', t, pc); }
  }

  lemma InsertTxnKeeps(c: Content, cfg: Config, s: State, t: Tid)
    requires Inv(c, s) && Enabled(c, cfg, s, t, InsertTxn)
    ensures Inv(c, Apply(c, cfg, s, t, InsertTxn))
  {
    hide TopInv, LenInv, InsideInv, DisjointInv, ContentInv, ThreadInv, Calm, CommitAppend, ApplyRecord, ApplyCompact, ApplyOpen;
    var pc := PcOf(s, t);
    var rec := ObjRecord(|c(pc.id)|, InSlab(s.mode.slab, s.mode.off), 0, pc.now);
    assert TailReady(c, s, pc.id, rec);
    PlacedKeeps(c, cfg, s, pc.id, rec);
    IdleOk(c, Goto(Placed(cfg, s, pc.id, rec), t, Idle));
    Commits(c, s, Placed(cfg, s, pc.id, rec), t, Idle);
  }

  // ---- compaction ----

  lemma AppendedBytes(c: Content, s: State, t: Tid)
    requires LockInv(c, s) && ThreadInv(c, s) && PcOf(s, t).MoveAppended?
    ensures var pc := PcOf(s, t);
            && s.pending == Some(Pending(t, pc.bytes)) && VictimOk(c, s, pc.victim, pc.rest) && pc.rest != [] && pc.bytes == c(pc.rest[0].id)
  {
    hide VictimOk;
    assert PcOk(c, s, PcOf(s, t));
  }

  /** After one entry is dealt with, the rest of the snapshot still covers what is left in the victim. */
  lemma VictimStep(c: Content, s: State, s': State, victim: nat, rest: seq<Entry>)
    requires VictimOk(c, s, victim, rest) && rest != [] && Calm(s, s')
    requires rest[0].id in s'.objects ==> s'.objects[rest[0].id].loc != InSlab(victim, rest[0].off)
    ensures VictimOk(c, s', victim, rest[1..])
  {
    hide RangeRight, Calm;
    CalmVictim(c, s, s', victim, rest);
    forall id | id in s'.objects && Lives(s'.objects[id], victim)
      ensures exists k :: 0 <= k < |rest[1..]| && rest[1..][k].id == id && rest[1..][k].off == s'.objects[id].loc.off
    {
      var k :| 0 <= k < |rest| && rest[k].id == id && rest[k].off == s'.objects[id].loc.off;
      assert k > 0;
      assert rest[1..][k - 1] == rest[k];
    }
  }

  /** The compaction thread's transaction: the record follows its bytes, or, if it moved or went meanwhile, they are dead. */
  ghost function Moved(cfg: Config, s: State, victim: nat, e: Entry, n: nat): State
    requires s.mode.Up?
  {
    if e.id in s.objects && s.objects[e.id].loc == InSlab(victim, e.off)
    then CommitAppend(s.(objects := s.objects[e.id := s.objects[e.id].(loc := InSlab(s.mode.slab, s.mode.off))]), cfg, n, 0)
    else CommitAppend(s, cfg, n, n)
  }

  lemma MovedKeeps(c: Content, cfg: Config, s: State, victim: nat, e: Entry)
    requires TopInv(s) && LenInv(s) && InsideInv(s) && DisjointInv(s) && ContentInv(c, s)
    requires s.mode.Up? && s.pending.Some? && s.pending.value.bytes == c(e.id) && victim < s.mode.slab
    ensures var s' := Moved(cfg, s, victim, e, |c(e.id)|);
            && TopInv(s') && LenInv(s') && InsideInv(s') && DisjointInv(s') && ContentInv(c, s') && Calm(s, s')
            && s'.pending.None? && s'.pcs == s.pcs
            && (e.id in s'.objects ==> s'.objects[e.id].loc != InSlab(victim, e.off))
  {
    hide RangeRight, Apart, ContentInv, InsideInv, DisjointInv, Calm;
    if e.id in s.objects && s.objects[e.id].loc == InSlab(victim, e.off) {
      var rec := s.objects[e.id].(loc := InSlab(s.mode.slab, s.mode.off));
      assert rec.size == |c(e.id)| by { SizeOf(c, s, e.id); }
      PlacedKeeps(c, cfg, s, e.id, rec);
    } else {
      OrphanKeeps(c, cfg, s, |c(e.id)|);
    }
  }

  lemma SizeOf(c: Content, s: State, id: ObjId)
    requires ContentInv(c, s) && id in s.objects && s.objects[id].loc.InSlab?
    ensures s.objects[id].size == |c(id)|
  {
    hide RangeRight;
  }

  lemma OrphanKeeps(c: Content, cfg: Config, s: State, n: nat)
    requires TopInv(s) && LenInv(s) && InsideInv(s) && DisjointInv(s) && ContentInv(c, s)
    requires s.mode.Up? && s.pending.Some? && n == |s.pending.value.bytes|
    ensures var s' := CommitAppend(s, cfg, n, n);
            && TopInv(s') && LenInv(s') && InsideInv(s') && DisjointInv(s') && ContentInv(c, s') && Calm(s, s')
            && s'.pending.None? && s'.pcs == s.pcs && s'.objects == s.objects && s'.files == s.files
  {
    hide RangeRight, Apart, Calm;
    CommitTop(s, cfg, n, n);
    CommitRows(s, cfg, n, n);
    CommitCalm(cfg, s, s, n, n);
    hide CommitAppend;
    SameFiles(c, s, CommitAppend(s, cfg, n, n));
  }

  lemma MoveTxnKeeps(c: Content, cfg: Config, s: State, t: Tid)
    requires Inv(c, s) && Enabled(c, cfg, s, t, MoveTxn)
    ensures Inv(c, Apply(c, cfg, s, t, MoveTxn))
  {
    hide TopInv, LenInv, InsideInv, DisjointInv, ContentInv, ThreadInv, LockInv, Calm, CommitAppend, ApplyRecord, ApplyRow, ApplyOpen,
         VictimOk;
    var pc := PcOf(s, t);
    AppendedBytes(c, s, t);
    VictimBelow(c, s, pc.victim, pc.rest);
    var mid := Moved(cfg, s, pc.victim, pc.rest[0], |pc.bytes|);
    MovedKeeps(c, cfg, s, pc.victim, pc.rest[0]);
    var next := Moving(pc.victim, pc.rest[1..]);
    assert Apply(c, cfg, s, t, MoveTxn) == Goto(mid, t, next);
    CalmGoto(s, mid, t, next);
    VictimStep(c, s, Goto(mid, t, next), pc.victim, pc.rest);
    Commits(c, s, mid, t, next);
  }

  lemma VictimBelow(c: Content, s: State, victim: nat, rest: seq<Entry>)
    requires VictimOk(c, s, victim, rest)
    ensures s.mode.Up? && victim < s.mode.slab
  {
  }

  lemma CompactStartKeeps(c: Content, cfg: Config, s: State, t: Tid, victim: nat, live: seq<Entry>)
    requires Inv(c, s) && Enabled(c, cfg, s, t, CompactStart(victim, live))
    ensures Inv(c, Apply(c, cfg, s, t, CompactStart(victim, live)))
  {
    hide RangeRight, Apart, PcOk, ApplyRow, ApplyRecord, ApplyOpen;
    var s1 := s.(cut := s.cut + {victim});
    var pc := Moving(victim, live);
    var s' := Goto(s1, t, pc);
    assert s' == Apply(c, cfg, s, t, CompactStart(victim, live));
    CalmSame(s, s');
    hide Calm;
    SameFiles(c, s, s');
    assert forall n :: FileOf(s', n) == FileOf(s, n);
    assert LockInv(c, s') by { LockStays(c, s, s', t, pc); }
    assert PcOk(c, s', pc) by { SnapshotOk(c, cfg, s, s', victim, live); }
    assert ThreadInv(c, s') by { ThreadsMoved(c, s, s', t, pc); }
  }

  lemma SnapshotOk(c: Content, cfg: Config, s: State, s': State, victim: nat, live: seq<Entry>)
    requires s.mode.Up? && WorthCompacting(s, cfg, victim) && IsSnapshot(s, victim, live) && ContentInv(c, s)
    requires s'.objects == s.objects && s'.files == s.files && s'.mode == s.mode && s'.slabs == s.slabs && victim in s'.cut
    ensures PcOk(c, s', Moving(victim, live))
  {
    hide RangeRight;
    assert forall n :: FileOf(s', n) == FileOf(s, n);
    forall id | id in s'.objects && Lives(s'.objects[id], victim)
      ensures exists i :: 0 <= i < |live| && live[i].id == id && live[i].off == s'.objects[id].loc.off
    {
      var e := Entry(id, s.objects[id].loc.off, s.objects[id].size);
      assert e in live;
      var i :| 0 <= i < |live| && live[i] == e;
      assert live[i].id == id;
    }
  }

  lemma EntryOk(c: Content, s: State, victim: nat, rest: seq<Entry>)
    requires VictimOk(c, s, victim, rest) && rest != []
    ensures rest[0].size == |c(rest[0].id)| && RangeRight(FileOf(s, victim), rest[0].off, c(rest[0].id))
  {
  }

  lemma ReadEntryKeeps(c: Content, cfg: Config, s: State, t: Tid)
    requires Inv(c, s) && Enabled(c, cfg, s, t, ReadEntry)
    ensures Inv(c, Apply(c, cfg, s, t, ReadEntry))
  {
    hide TopInv, LenInv, InsideInv, DisjointInv, ContentInv, LockInv, ThreadInv, VictimOk, RangeRight, ReadSlab,
         ApplyRow, ApplyRecord, ApplyOpen;
    var pc := PcOf(s, t);
    MovingOk(c, s, t);
    EntryOk(c, s, pc.victim, pc.rest);
    ReadRight(c, s, pc.victim, pc.rest[0]);
    OnlyMoves(c, s, t, MoveRead(pc.victim, pc.rest, ReadSlab(s, pc.victim, pc.rest[0].off, pc.rest[0].size)));
  }

  lemma MoveAppendKeeps(c: Content, cfg: Config, s: State, t: Tid)
    requires Inv(c, s) && Enabled(c, cfg, s, t, MoveAppend)
    ensures Inv(c, Apply(c, cfg, s, t, MoveAppend))
  {
    hide TopInv, LenInv, InsideInv, DisjointInv, ContentInv, LockInv, VictimOk, ApplyRow, ApplyRecord, ApplyOpen;
    var pc := PcOf(s, t);
    assert PcOk(c, s, pc);
    AppendKeeps(c, s, t, pc.bytes, MoveAppended(pc.victim, pc.rest, pc.bytes));
  }

  lemma InsertAppendKeeps(c: Content, cfg: Config, s: State, t: Tid, now: nat)
    requires Inv(c, s) && Enabled(c, cfg, s, t, InsertAppend(now))
    ensures Inv(c, Apply(c, cfg, s, t, InsertAppend(now)))
  {
    hide Inv, ApplyCompact, ApplyRecord, ApplyOpen;
    var pc := PcOf(s, t);
    AppendKeeps(c, s, t, c(pc.id), InsertAppended(pc.id, now));
  }

  /** When the snapshot is used up, nothing points into the victim any more. */
  lemma VictimEmpty(c: Content, s: State, victim: nat, id: ObjId)
    requires VictimOk(c, s, victim, []) && id in s.objects
    ensures !Lives(s.objects[id], victim)
  {
  }

  lemma DropTxnKeeps(c: Content, cfg: Config, s: State, t: Tid)
    requires Inv(c, s) && Enabled(c, cfg, s, t, DropTxn)
    ensures Inv(c, Apply(c, cfg, s, t, DropTxn))
  {
    hide RangeRight, Apart, PcOk, ApplyRow, ApplyRecord, ApplyOpen;
    var victim := PcOf(s, t).victim;
    var pc := Dropped(victim);
    assert VictimOk(c, s, victim, []) by { MovingOk(c, s, t); }
    var s' := Apply(c, cfg, s, t, DropTxn);
    assert forall n :: FileOf(s', n) == FileOf(s, n);
    forall id | id in s.objects
      ensures !Lives(s.objects[id], victim)
    {
      VictimEmpty(c, s, victim, id);
    }
    assert TopInv(s') && LenInv(s') && InsideInv(s') && DisjointInv(s') && ContentInv(c, s') && Calm(s, s');
    hide Calm;
    assert LockInv(c, s') by { LockStays(c, s, s', t, pc); }
    assert PcOk(c, s', pc) by { DroppedOk(c, s', victim); }
    assert ThreadInv(c, s') by { ThreadsMoved(c, s, s', t, pc); }
  }

  lemma MovingOk(c: Content, s: State, t: Tid)
    requires ThreadInv(c, s) && PcOf(s, t).Moving?
    ensures VictimOk(c, s, PcOf(s, t).victim, PcOf(s, t).rest)
  {
    hide VictimOk;
    assert PcOk(c, s, PcOf(s, t));
  }

  lemma DroppedOk(c: Content, s: State, victim: nat)
    requires s.mode.Up? && victim !in s.slabs && victim < s.mode.slab
    ensures PcOk(c, s, Dropped(victim))
  {
  }

  lemma DropUnlinkKeeps(c: Content, cfg: Config, s: State, t: Tid)
    requires Inv(c, s) && Enabled(c, cfg, s, t, DropUnlink)
    ensures Inv(c, Apply(c, cfg, s, t, DropUnlink))
  {
    hide RangeRight, Apart, PcOk, ApplyRow, ApplyRecord, ApplyOpen;
    var victim := PcOf(s, t).victim;
    assert victim !in s.slabs && victim < s.mode.slab by { DroppedIs(c, s, t); }
    var s' := Apply(c, cfg, s, t, DropUnlink);
    assert FileOf(s', victim) == [];
    assert forall n :: n != victim ==> FileOf(s', n) == FileOf(s, n);
    assert TopInv(s') && LenInv(s') && InsideInv(s') && DisjointInv(s') && ContentInv(c, s') && Calm(s, s');
    hide Calm;
    assert LockInv(c, s') by { LockStays(c, s, s', t, Idle); }
    assert ThreadInv(c, s') by {
      IdleOk(c, s');
      ThreadsMoved(c, s, s', t, Idle);
    }
  }

  lemma DroppedIs(c: Content, s: State, t: Tid)
    requires ThreadInv(c, s) && PcOf(s, t).Dropped?
    ensures s.mode.Up? && PcOf(s, t).victim !in s.slabs && PcOf(s, t).victim < s.mode.slab
  {
    assert PcOk(c, s, PcOf(s, t));
  }

  lemma AbortKeeps(c: Content, cfg: Config, s: State, t: Tid)
    requires Inv(c, s) && Enabled(c, cfg, s, t, CompactAbort)
    ensures Inv(c, Apply(c, cfg, s, t, CompactAbort))
  {
    hide Inv;
    IdleOk(c, s);
    OnlyMoves(c, s, t, Idle);
  }

  lemma CompactionStepKeeps(c: Content, cfg: Config, s: State, t: Tid, a: Action)
    requires Inv(c, s) && Enabled(c, cfg, s, t, a) && IsCompactionStep(a)
    ensures Inv(c, Apply(c, cfg, s, t, a))
  {
    hide Inv, Apply, Enabled;
    match a
    case CompactStart(victim, live) => CompactStartKeeps(c, cfg, s, t, victim, live);
    case ReadEntry => ReadEntryKeeps(c, cfg, s, t);
    case MoveAppend => MoveAppendKeeps(c, cfg, s, t);
    case MoveTxn => MoveTxnKeeps(c, cfg, s, t);
    case CompactAbort => AbortKeeps(c, cfg, s, t);
    case DropTxn => DropTxnKeeps(c, cfg, s, t);
    case DropUnlink => DropUnlinkKeeps(c, cfg, s, t);
  }

  // ---- the looks before an insert or a remove ----

  lemma LookKeeps(c: Content, cfg: Config, s: State, t: Tid, a: Action)
    requires Inv(c, s) && Enabled(c, cfg, s, t, a) && (a.StartInsert? || a.Retire? || a.Recheck? || a.StartRemove? || a.RemoveSkip?)
    ensures Inv(c, Apply(c, cfg, s, t, a))
  {
    hide TopInv, LenInv, InsideInv, DisjointInv, LockInv, ThreadInv, ApplyCompact, ApplyRecord, ApplyOpen, RangeRight;
    var pc := PcOf(s, t);
    match a
    case StartInsert(id) =>
      if id !in s.objects {
        OnlyMoves(c, s, t, Inserting(id));
      } else if !Complete(s.objects[id]) {
        OnlyMoves(c, s, t, Retiring(id));
      }
    case Retire =>
      OnlyMoves(c, s, t, if pc.id in s.objects then Removing(pc.id, s.objects[pc.id], true) else Rechecking(pc.id));
    case Recheck => OnlyMoves(c, s, t, if pc.id in s.objects then Idle else Inserting(pc.id));
    case StartRemove(id) =>
      if id in s.objects {
        OnlyMoves(c, s, t, Removing(id, s.objects[id], false));
      }
    case RemoveSkip => OnlyMoves(c, s, t, if pc.inserting then Rechecking(pc.id) else Idle);
  }

  lemma RowStepKeeps(c: Content, cfg: Config, s: State, t: Tid, a: Action)
    requires Inv(c, s) && Enabled(c, cfg, s, t, a) && RowStep(a)
    ensures Inv(c, Apply(c, cfg, s, t, a))
  {
    hide Inv, Apply, Enabled;
    match a
    case InsertAppend(now) => InsertAppendKeeps(c, cfg, s, t, now);
    case TornAppend(junk) => TornAppendKeeps(c, cfg, s, t, junk);
    case InsertTxn => InsertTxnKeeps(c, cfg, s, t);
    case RemoveTxn => RemoveTxnKeeps(c, cfg, s, t);
    case _ => LookKeeps(c, cfg, s, t, a);
  }

  // ---- crash and reopen ----

  /** Without threads and without an append in flight the lock and the threads are in order. */
  lemma NobodyRuns(c: Content, s: State)
    requires s.pending.None? && s.pcs == map[]
    ensures LockInv(c, s) && ThreadInv(c, s)
  {
    assert forall t: Tid :: PcOf(s, t).Idle?;
  }

  /** While the store is not up no thread is under way. */
  lemma NobodyIn(c: Content, s: State, t: Tid)
    requires ThreadInv(c, s) && !s.mode.Up?
    ensures PcOf(s, t).Idle?
  {
    assert PcOk(c, s, PcOf(s, t));
  }

  lemma StillNobody(c: Content, s: State, s': State)
    requires ThreadInv(c, s) && LockInv(c, s) && !s.mode.Up? && s'.pcs == s.pcs && s'.pending == s.pending
    ensures ThreadInv(c, s') && LockInv(c, s')
  {
    hide PcOk;
    forall t: Tid
      ensures PcOk(c, s', PcOf(s', t))
    {
      NobodyIn(c, s, t);
      IdleOk(c, s');
      assert PcOf(s', t) == PcOf(s, t);
    }
    LockStands(c, s, s');
  }

  lemma CrashContent(c: Content, s: State, files: map<nat, seq<byte>>)
    requires ContentInv(c, s) && LostBytes(s.files, files)
    ensures ContentInv(c, s.(files := files, mode := Down, pending := None, pcs := map[]))
  {
    var s' := s.(files := files, mode := Down, pending := None, pcs := map[]);
    forall id | id in s'.objects && s'.objects[id].loc.InSlab?
      ensures RangeRight(FileOf(s', s'.objects[id].loc.slab), s'.objects[id].loc.off, c(id))
    {
      PrefixRange(FileOf(s, s'.objects[id].loc.slab), FileOf(s', s'.objects[id].loc.slab), s'.objects[id].loc.off, c(id));
    }
  }

  lemma PrefixRange(file: seq<byte>, less: seq<byte>, off: nat, content: seq<byte>)
    requires RangeRight(file, off, content) && less <= file
    ensures RangeRight(less, off, content)
  {
  }

  lemma CrashKeeps(c: Content, cfg: Config, s: State, t: Tid, files: map<nat, seq<byte>>)
    requires Inv(c, s) && Enabled(c, cfg, s, t, Crash(files))
    ensures Inv(c, Apply(c, cfg, s, t, Crash(files)))
  {
    hide RangeRight, Apart, ThreadInv, LockInv, ApplyRow, ApplyRecord, ApplyCompact;
    var s' := Apply(c, cfg, s, t, Crash(files));
    assert TopInv(s') by {
      if s.mode.Down? {
        if slab :| OpenIsTop(s, slab) { assert OpenIsTop(s', slab); }
      } else {
        assert OpenIsTop(s', s.mode.slab);
      }
    }
    assert ContentInv(c, s') by { CrashContent(c, s, files); }
    NobodyRuns(c, s');
  }

  lemma OpenIndexKeeps(c: Content, cfg: Config, s: State, t: Tid)
    requires Inv(c, s) && Enabled(c, cfg, s, t, OpenIndex)
    ensures Inv(c, Apply(c, cfg, s, t, OpenIndex))
  {
    hide RangeRight, Apart, ContentInv, ThreadInv, LockInv, ApplyRow, ApplyRecord, ApplyCompact;
    var s' := Apply(c, cfg, s, t, OpenIndex);
    assert forall n :: FileOf(s', n) == FileOf(s, n);
    SameFiles(c, s, s');
    StillNobody(c, s, s');
    if exists slab :: HasOpenSlab(s.slabs, slab) {
      assert HasOpenSlab(s.slabs, s'.mode.slab);
      var top :| OpenIsTop(s, top);
      assert top == s'.mode.slab;
      assert TopInv(s') && LenInv(s') && InsideInv(s') && DisjointInv(s');
    } else {
      forall slab
        ensures !OpenIsTop(s, slab)
      {
        assert OpenIsTop(s, slab) ==> HasOpenSlab(s.slabs, slab);
      }
      assert s.slabs == map[] && s.objects == map[];
      assert TopInv(s') && LenInv(s') && InsideInv(s') && DisjointInv(s');
    }
  }

  lemma ReconcileContent(c: Content, s: State, s': State, slab: nat, len: nat)
    requires ContentInv(c, s) && s'.objects == s.objects && len <= |FileOf(s, slab)|
    requires s'.files == s.files[slab := FileOf(s, slab)[..len]]
    ensures ContentInv(c, s')
  {
    forall id | id in s'.objects && s'.objects[id].loc.InSlab?
      ensures RangeRight(FileOf(s', s'.objects[id].loc.slab), s'.objects[id].loc.off, c(id))
    {
      PrefixRange(FileOf(s, s'.objects[id].loc.slab), FileOf(s', s'.objects[id].loc.slab), s'.objects[id].loc.off, c(id));
    }
  }

  lemma ReconcileLengths(c: Content, cfg: Config, s: State, t: Tid, slab: nat)
    requires TopInv(s) && LenInv(s) && Enabled(c, cfg, s, t, ReconcileOne(slab))
    ensures TopInv(Apply(c, cfg, s, t, ReconcileOne(slab))) && LenInv(Apply(c, cfg, s, t, ReconcileOne(slab)))
  {
    hide ApplyRow, ApplyRecord, ApplyCompact;
    var s' := Apply(c, cfg, s, t, ReconcileOne(slab));
    assert forall n :: n != slab ==> FileOf(s', n) == FileOf(s, n);
  }

  lemma ReconcileKeeps(c: Content, cfg: Config, s: State, t: Tid, slab: nat)
    requires Inv(c, s) && Enabled(c, cfg, s, t, ReconcileOne(slab))
    ensures Inv(c, Apply(c, cfg, s, t, ReconcileOne(slab)))
  {
    hide RangeRight, Apart, DisjointInv, ContentInv, InsideInv, ThreadInv, LockInv, TopInv, LenInv, ApplyRow, ApplyRecord, ApplyCompact;
    var s' := Apply(c, cfg, s, t, ReconcileOne(slab));
    ReconcileLengths(c, cfg, s, t, slab);
    SameTables(s, s');
    StillNobody(c, s, s');
    assert ContentInv(c, s') by {
      if |FileOf(s, slab)| > MetaOf(s, slab).len {
        ReconcileContent(c, s, s', slab, MetaOf(s, slab).len);
      } else {
        SameFiles(c, s, s');
      }
    }
  }

  /** What depends on the two tables alone. */
  lemma SameTables(s: State, s': State)
    requires s'.objects == s.objects && s'.slabs == s.slabs
    ensures InsideInv(s) ==> InsideInv(s')
    ensures DisjointInv(s) ==> DisjointInv(s')
  {
    hide Apart;
  }

  lemma NextAfterTop(keys: set<nat>, top: nat, n: nat)
    requires IsNext(keys, n) && top in keys && forall k :: k in keys ==> k <= top
    ensures n == top + 1
  {
  }

  /** What opening does at its end: the open slab as found, or, if it is short, sealed with a fresh one above it. */
  lemma FinishRows(c: Content, cfg: Config, s: State, t: Tid)
    requires TopInv(s) && LenInv(s) && Enabled(c, cfg, s, t, FinishOpen)
    ensures var s' := Apply(c, cfg, s, t, FinishOpen);
            && s'.objects == s.objects && s'.files == s.files && s'.pcs == s.pcs && s'.pending == s.pending && s'.cut == s.cut
            && s.mode.slab in s.slabs
            && if s.mode.damaged then
                 && s'.mode == Up(s.mode.slab + 1, 0) && s.mode.slab + 1 !in s.slabs
                 && s'.slabs == s.slabs[s.mode.slab := s.slabs[s.mode.slab].(sealed := true)][s.mode.slab + 1 := SlabMeta(0, 0, false)]
               else s'.slabs == s.slabs && s'.mode == Up(s.mode.slab, s.slabs[s.mode.slab].len)
  {
    hide ApplyRow, ApplyRecord, ApplyCompact;
    if s.mode.damaged {
      var sealed_ := s.slabs[s.mode.slab := MetaOf(s, s.mode.slab).(sealed := true)];
      NextAfterTop(sealed_.Keys, s.mode.slab, NextSlab(sealed_));
    }
  }

  lemma FinishOpenKeeps(c: Content, cfg: Config, s: State, t: Tid)
    requires Inv(c, s) && Enabled(c, cfg, s, t, FinishOpen)
    ensures Inv(c, Apply(c, cfg, s, t, FinishOpen))
  {
    hide RangeRight, Apart, ContentInv, ThreadInv, LockInv;
    FinishRows(c, cfg, s, t);
    hide Apply;
    var s' := Apply(c, cfg, s, t, FinishOpen);
    SameFiles(c, s, s');
    assert forall n :: FileOf(s', n) == FileOf(s, n);
    StillNobody(c, s, s');
    assert TopInv(s') && LenInv(s') && InsideInv(s') && DisjointInv(s');
  }

  // ---- every step, every run ----

  /** Every step of every thread, every crash and every step of opening keeps the invariant. */
  lemma StepKeeps(c: Content, cfg: Config, s: State, t: Tid, a: Action)
    requires Inv(c, s) && Enabled(c, cfg, s, t, a)
    ensures Inv(c, Apply(c, cfg, s, t, a))
  {
    hide Inv, Apply, Enabled;
    if RowStep(a) {
      RowStepKeeps(c, cfg, s, t, a);
    } else if RecordStep(a) {
      RecordStepKeeps(c, cfg, s, t, a);
    } else if IsCompactionStep(a) {
      CompactionStepKeeps(c, cfg, s, t, a);
    } else {
      match a
      case Crash(files) => CrashKeeps(c, cfg, s, t, files);
      case OpenIndex => OpenIndexKeeps(c, cfg, s, t);
      case ReconcileOne(slab) => ReconcileKeeps(c, cfg, s, t, slab);
      case FinishOpen => FinishOpenKeeps(c, cfg, s, t);
    }
  }

  datatype Event = Event(tid: Tid, action: Action)

  ghost predicate Possible(c: Content, cfg: Config, s: State, run: seq<Event>)
    decreases |run|
  {
    run == [] ||
    (Enabled(c, cfg, s, run[0].tid, run[0].action) && Possible(c, cfg, Apply(c, cfg, s, run[0].tid, run[0].action), run[1..]))
  }

  ghost function Outcome(c: Content, cfg: Config, s: State, run: seq<Event>): State
    requires Possible(c, cfg, s, run)
    decreases |run|
  {
    if run == [] then s else Outcome(c, cfg, Apply(c, cfg, s, run[0].tid, run[0].action), run[1..])
  }

  const EMPTY_DIRECTORY: State := State(map[], map[], map[], Down, None, map[], {})

  lemma {:induction false} RunKeeps(c: Content, cfg: Config, s: State, run: seq<Event>)
    requires Inv(c, s) && Possible(c, cfg, s, run)
    ensures Inv(c, Outcome(c, cfg, s, run))
    decreases |run|
  {
    hide Inv, Apply, Enabled;
    if run != [] {
      StepKeeps(c, cfg, s, run[0].tid, run[0].action);
      RunKeeps(c, cfg, Apply(c, cfg, s, run[0].tid, run[0].action), run[1..]);
    }
  }

  /** The states some run reaches from an empty directory. */
  ghost predicate Reachable(c: Content, cfg: Config, s: State)
  {
    exists run :: Possible(c, cfg, EMPTY_DIRECTORY, run) && Outcome(c, cfg, EMPTY_DIRECTORY, run) == s
  }

  lemma EmptyInv(c: Content)
    ensures Inv(c, EMPTY_DIRECTORY)
  {
    NobodyRuns(c, EMPTY_DIRECTORY);
  }

  lemma ReachableInv(c: Content, cfg: Config, s: State)
    requires Reachable(c, cfg, s)
    ensures Inv(c, s)
  {
    hide Inv, Apply, Enabled, Possible, Outcome;
    EmptyInv(c);
    var run :| Possible(c, cfg, EMPTY_DIRECTORY, run) && Outcome(c, cfg, EMPTY_DIRECTORY, run) == s;
    RunKeeps(c, cfg, EMPTY_DIRECTORY, run);
  }

  /**
   * From an empty directory, over every interleaving of inserts, removes, evictions, compactions, crashes and reopens:
   * whenever the store is up, the open slab is the only unsealed one and the highest, its file is as long as tracked but
   * for one append in flight, and live ranges are inside their slabs and apart.
   */
  lemma SlabsAlwaysSound(c: Content, cfg: Config, s: State)
    requires Reachable(c, cfg, s)
    ensures s.mode.Up? ==>
              && OpenIsTop(s, s.mode.slab) && s.slabs[s.mode.slab].len == s.mode.off
              && |FileOf(s, s.mode.slab)| == s.mode.off + (if s.pending.Some? then |s.pending.value.bytes| else 0)
    ensures InsideInv(s) && DisjointInv(s)
  {
    hide Reachable, RangeRight, OpenIsTop, LockInv, ThreadInv;
    ReachableInv(c, cfg, s);
  }

  /** A slab read after any run returns the object's own bytes or comes up short; it never returns other bytes. */
  lemma ReadsOwnBytesOrFails(c: Content, cfg: Config, s: State, id: ObjId)
    requires id in s.objects && s.objects[id].loc.InSlab?
    requires Readable(s, s.objects[id].loc.slab, s.objects[id].loc.off, s.objects[id].size)
    requires Reachable(c, cfg, s)
    ensures ReadSlab(s, s.objects[id].loc.slab, s.objects[id].loc.off, s.objects[id].size) == c(id)
  {
    hide Reachable, RangeRight, OpenIsTop, LockInv, ThreadInv;
    ReachableInv(c, cfg, s);
    var rec := s.objects[id];
    ReadRight(c, s, rec.loc.slab, Entry(id, rec.loc.off, rec.size));
  }

  /** Once any compaction has dropped its victim, no record points into it. */
  lemma DroppedIsUnreferenced(c: Content, cfg: Config, s: State, t: Tid, id: ObjId)
    requires Reachable(c, cfg, s) && PcOf(s, t).Dropped? && id in s.objects
    ensures !Lives(s.objects[id], PcOf(s, t).victim)
  {
    hide Reachable, RangeRight, TopInv, LenInv, DisjointInv, ContentInv, LockInv, ThreadInv;
    ReachableInv(c, cfg, s);
    DroppedIs(c, s, t);
  }
}
