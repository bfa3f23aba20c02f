/**
 * Live and dead bytes add up to a slab's length, after every run in which each remove and each insert finds in its
 * transaction the row it looked at before; one that does not is exactly what unbalances the books.
 */
module SlabAccounts {
  import opened Prelude
  import opened MapSum
  import opened SlabStore
  import opened SlabProofs

  // ---- live bytes ----

  /** Changing one record moves the live bytes of each slab by that record alone. */
  lemma LivePut(s: State, s': State, slab: nat, id: ObjId, rec: ObjRecord)
    requires s'.objects == s.objects[id := rec]
    ensures LiveBytes(s', slab) + (if id in s.objects && Lives(s.objects[id], slab) then s.objects[id].size else 0) ==
            LiveBytes(s, slab) + (if Lives(rec, slab) then rec.size else 0)
  {
    TotalPut(s.objects, LiveIn(slab), id, rec);
  }

  lemma LiveDelete(s: State, s': State, slab: nat, id: ObjId)
    requires s'.objects == s.objects - {id}
    ensures LiveBytes(s', slab) + (if id in s.objects && Lives(s.objects[id], slab) then s.objects[id].size else 0) ==
            LiveBytes(s, slab)
  {
    if id in s.objects {
      TotalTakeOut(s.objects, LiveIn(slab), id);
    } else {
      assert s'.objects == s.objects;
    }
  }

  /** A slab that is not in the table has no live bytes. */
  lemma LiveUnknown(s: State, slab: nat)
    requires InsideInv(s) && slab !in s.slabs
    ensures LiveBytes(s, slab) == 0
  {
    TotalZero(s.objects, LiveIn(slab));
  }

  lemma SameLive(s: State, s': State)
    requires s'.objects == s.objects
    ensures forall slab :: LiveBytes(s', slab) == LiveBytes(s, slab)
  {
  }

  /** Bytes of the row of `id` that lie in `slab`. */
  ghost function RowIn(c: Content, s: State, id: ObjId, slab: nat): nat
  {
    if SlabNow(s, id) == Some(slab) then |c(id)| else 0
  }

  lemma RowInIs(c: Content, s: State, id: ObjId, slab: nat)
    requires ContentInv(c, s)
    ensures RowIn(c, s, id, slab) == if id in s.objects && Lives(s.objects[id], slab) then s.objects[id].size else 0
  {
    hide RangeRight;
  }

  // ---- what each transaction does to the books ----

  /** A remove takes the row's bytes from the live ones and books the bytes it read about as dead. */
  lemma RemoveSlack(c: Content, s: State, id: ObjId, seen: ObjRecord, slab: nat)
    requires ContentInv(c, s) && slab in s.slabs && (seen.loc.InSlab? ==> seen.size == |c(id)|)
    ensures slab in DeleteRow(s, id, seen).slabs
    ensures Slack(DeleteRow(s, id, seen), slab) ==
            Slack(s, slab) + RowIn(c, s, id, slab) - if SlabBooked(s, seen) == Some(slab) then |c(id)| else 0
  {
    hide LiveBytes, BookDead;
    var s' := DeleteRow(s, id, seen);
    LiveDelete(s, s', slab, id);
    RowInIs(c, s, id, slab);
    BookedRows(s.slabs, seen.loc, seen.size);
  }

  /** A placed record gains its slab nothing to explain, and leaves its old range unexplained. */
  lemma PlacedSlack(c: Content, cfg: Config, s: State, id: ObjId, rec: ObjRecord, slab: nat)
    requires ContentInv(c, s) && InsideInv(s) && s.mode.Up? && OpenIsTop(s, s.mode.slab) && s.slabs[s.mode.slab].len == s.mode.off
    requires rec.loc == InSlab(s.mode.slab, s.mode.off) && rec.size == |c(id)| && slab in Placed(cfg, s, id, rec).slabs
    ensures Slack(Placed(cfg, s, id, rec), slab) == if slab in s.slabs then Slack(s, slab) + RowIn(c, s, id, slab) else 0
  {
    hide LiveBytes;
    var s1 := s.(objects := s.objects[id := rec]);
    var s' := Placed(cfg, s, id, rec);
    CommitRows(s1, cfg, rec.size, 0);
    hide CommitAppend;
    LivePut(s, s', slab, id, rec);
    RowInIs(c, s, id, slab);
    if slab !in s.slabs {
      LiveUnknown(s, slab);
      assert SlabNow(s, id) != Some(slab) by { RowSlab(s, id); }
    }
  }

  lemma RowSlab(s: State, id: ObjId)
    requires InsideInv(s)
    ensures SlabNow(s, id).Some? ==> SlabNow(s, id).value in s.slabs
  {
  }

  /** Bytes appended for an object that moved or went are dead at once. */
  lemma OrphanSlack(cfg: Config, s: State, n: nat, slab: nat)
    requires InsideInv(s) && s.mode.Up? && OpenIsTop(s, s.mode.slab) && s.slabs[s.mode.slab].len == s.mode.off
    requires slab in CommitAppend(s, cfg, n, n).slabs
    ensures Slack(CommitAppend(s, cfg, n, n), slab) == if slab in s.slabs then Slack(s, slab) else 0
  {
    hide LiveBytes;
    CommitRows(s, cfg, n, n);
    hide CommitAppend;
    SameLive(s, CommitAppend(s, cfg, n, n));
    if slab !in s.slabs {
      LiveUnknown(s, slab);
    }
  }

  lemma GotoSlack(s: State, t: Tid, pc: Pc)
    ensures forall slab :: slab in s.slabs ==> Slack(Goto(s, t, pc), slab) == Slack(s, slab)
    ensures AccountInv(s) ==> AccountInv(Goto(s, t, pc))
  {
    hide LiveBytes;
    SameLive(s, Goto(s, t, pc));
  }

  // ---- exactly when the books stay balanced ----

  /** What a remove's transaction does to the books of every slab. */
  lemma RemoveMoves(c: Content, cfg: Config, s: State, t: Tid)
    requires Inv(c, s) && Enabled(c, cfg, s, t, RemoveTxn)
    ensures var s', pc := Apply(c, cfg, s, t, RemoveTxn), PcOf(s, t);
            && s'.slabs.Keys == s.slabs.Keys && s'.cut == s.cut
            && forall slab :: slab in s.slabs ==>
                 Slack(s', slab) == Slack(s, slab) + RowIn(c, s, pc.id, slab) - if SlabBooked(s, pc.seen) == Some(slab) then |c(pc.id)| else 0
  {
    hide TopInv, LenInv, DisjointInv, LockInv, LiveBytes, Slack, DeleteRow, ApplyRecord, ApplyCompact, ApplyOpen, ContentInv;
    var pc := PcOf(s, t);
    assert PcOk(c, s, pc);
    var mid := DeleteRow(s, pc.id, pc.seen);
    var s' := Apply(c, cfg, s, t, RemoveTxn);
    RemovedRows(s, pc.id, pc.seen);
    DeleteSame(s, pc.id, pc.seen);
    GotoSlack(mid, t, if pc.inserting then Rechecking(pc.id) else Idle);
    forall slab | slab in s.slabs
      ensures Slack(s', slab) == Slack(s, slab) + RowIn(c, s, pc.id, slab) - if SlabBooked(s, pc.seen) == Some(slab) then |c(pc.id)| else 0
    {
      RemoveSlack(c, s, pc.id, pc.seen, slab);
    }
  }

  lemma RemovedRows(s: State, id: ObjId, seen: ObjRecord)
    ensures DeleteRow(s, id, seen).slabs.Keys == s.slabs.Keys
  {
    BookedRows(s.slabs, seen.loc, seen.size);
  }

  /**
   * A remove of a non-empty object leaves every slab's books as they were if and only if the slab in which it books the
   * bytes dead is the slab the row points into at that moment. Of balanced books, which allow for bytes not accounted
   * for in a slab whose compaction was cut short, it leaves balanced ones if and only if that is so, or every slab it
   * unsettles is such a slab and the one booked has that many bytes to spare.
   */
  lemma RemoveBooksIff(c: Content, cfg: Config, s: State, t: Tid)
    requires Inv(c, s) && Enabled(c, cfg, s, t, RemoveTxn) && c(PcOf(s, t).id) != []
    ensures var s' := Apply(c, cfg, s, t, RemoveTxn);
            && s'.slabs.Keys == s.slabs.Keys
            && ((forall slab :: slab in s.slabs ==> Slack(s', slab) == Slack(s, slab)) <==> FindsItsRow(s, t, RemoveTxn))
    ensures AccountInv(s) ==>
              var now, booked := SlabNow(s, PcOf(s, t).id), SlabBooked(s, PcOf(s, t).seen);
              AccountInv(Apply(c, cfg, s, t, RemoveTxn)) <==>
                (FindsItsRow(s, t, RemoveTxn) ||
                 ((now.Some? ==> now.value in s.cut) &&
                  (booked.Some? ==> booked.value in s.cut && Slack(s, booked.value) >= |c(PcOf(s, t).id)|)))
  {
    hide Slack, Apply, TopInv, LenInv, DisjointInv, LockInv, ContentInv, ThreadInv;
    RemoveMoves(c, cfg, s, t);
    var pc, s' := PcOf(s, t), Apply(c, cfg, s, t, RemoveTxn);
    RowSlab(s, pc.id);
    var now, booked := SlabNow(s, pc.id), SlabBooked(s, pc.seen);
    if now != booked {
      if now.Some? { assert Slack(s', now.value) == Slack(s, now.value) + |c(pc.id)|; }
      if booked.Some? { assert Slack(s', booked.value) == Slack(s, booked.value) - |c(pc.id)|; }
    }
  }

  /** What an insert's transaction does to the books. */
  lemma InsertMoves(c: Content, cfg: Config, s: State, t: Tid)
    requires Inv(c, s) && Enabled(c, cfg, s, t, InsertTxn)
    ensures var s' := Apply(c, cfg, s, t, InsertTxn);
            && s.slabs.Keys <= s'.slabs.Keys && s'.cut == s.cut
            && forall slab :: slab in s'.slabs ==>
                 Slack(s', slab) == if slab in s.slabs then Slack(s, slab) + RowIn(c, s, PcOf(s, t).id, slab) else 0
  {
    hide DisjointInv, LiveBytes, Slack, ApplyRecord, ApplyCompact, ApplyOpen, ContentInv, ThreadInv, CommitAppend;
    var pc := PcOf(s, t);
    var rec := ObjRecord(|c(pc.id)|, InSlab(s.mode.slab, s.mode.off), 0, pc.now);
    var mid := Placed(cfg, s, pc.id, rec);
    CommitRows(s.(objects := s.objects[pc.id := rec]), cfg, rec.size, 0);
    GotoSlack(mid, t, Idle);
    forall slab | slab in mid.slabs
      ensures Slack(Apply(c, cfg, s, t, InsertTxn), slab) ==
              if slab in s.slabs then Slack(s, slab) + RowIn(c, s, pc.id, slab) else 0
    {
      PlacedSlack(c, cfg, s, pc.id, rec, slab);
    }
  }

  /**
   * An insert of a non-empty object leaves the books as they were if and only if it overwrites no row in a slab; of
   * balanced books it leaves balanced ones if and only if that is so or the slab's compaction was cut short.
   */
  lemma InsertBooksIff(c: Content, cfg: Config, s: State, t: Tid)
    requires Inv(c, s) && Enabled(c, cfg, s, t, InsertTxn) && c(PcOf(s, t).id) != []
    ensures var s' := Apply(c, cfg, s, t, InsertTxn);
            && s.slabs.Keys <= s'.slabs.Keys
            && ((forall slab :: slab in s.slabs ==> Slack(s', slab) == Slack(s, slab)) <==> FindsItsRow(s, t, InsertTxn))
    ensures AccountInv(s) ==>
              (AccountInv(Apply(c, cfg, s, t, InsertTxn)) <==>
                 FindsItsRow(s, t, InsertTxn) || SlabNow(s, PcOf(s, t).id).value in s.cut)
  {
    hide Slack, Apply, TopInv, LenInv, DisjointInv, LockInv, ContentInv, ThreadInv;
    InsertMoves(c, cfg, s, t);
    var id := PcOf(s, t).id;
    RowSlab(s, id);
    if SlabNow(s, id).Some? {
      assert RowIn(c, s, id, SlabNow(s, id).value) > 0;
    }
  }

  // ---- every run that finds its rows ----

  lemma SameBooks(s: State, s': State)
    requires s'.objects == s.objects && s'.slabs == s.slabs && s.cut <= s'.cut && AccountInv(s)
    ensures AccountInv(s')
  {
    hide LiveBytes;
    SameLive(s, s');
  }

  lemma RemoveKeepsBooks(c: Content, cfg: Config, s: State, t: Tid)
    requires Inv(c, s) && AccountInv(s) && Enabled(c, cfg, s, t, RemoveTxn) && FindsItsRow(s, t, RemoveTxn)
    ensures AccountInv(Apply(c, cfg, s, t, RemoveTxn))
  {
    hide Slack, Apply, Inv;
    RemoveMoves(c, cfg, s, t);
  }

  lemma InsertKeepsBooks(c: Content, cfg: Config, s: State, t: Tid)
    requires Inv(c, s) && AccountInv(s) && Enabled(c, cfg, s, t, InsertTxn) && FindsItsRow(s, t, InsertTxn)
    ensures AccountInv(Apply(c, cfg, s, t, InsertTxn))
  {
    hide Slack, Apply, Inv;
    InsertMoves(c, cfg, s, t);
  }

  lemma RecordKeepsBooks(c: Content, cfg: Config, s: State, t: Tid, a: Action)
    requires Inv(c, s) && AccountInv(s) && Enabled(c, cfg, s, t, a) && RecordStep(a)
    ensures AccountInv(Apply(c, cfg, s, t, a))
  {
    hide TopInv, LenInv, DisjointInv, LockInv, ThreadInv, LiveBytes, DeleteRow, ApplyRow, ApplyCompact, ApplyOpen, ContentInv;
    var s' := Apply(c, cfg, s, t, a);
    if a.Evict? {
      var rec := s.objects[a.id];
      RemovedRows(s, a.id, rec);
      DeleteSame(s, a.id, rec);
      assert rec.loc.InSlab? ==> rec.size == |c(a.id)| by { if rec.loc.InSlab? { SizeOf(c, s, a.id); } }
      hide Slack;
      forall slab | slab in s'.slabs
        ensures Slack(s', slab) == Slack(s, slab)
      {
        RemoveSlack(c, s, a.id, rec, slab);
      }
    } else if a.Claim? && a.id in s.objects {
    } else {
      var rec := s'.objects[a.id];
      assert s'.objects == s.objects[a.id := rec];
      forall slab
        ensures LiveBytes(s', slab) == LiveBytes(s, slab)
      {
        LivePut(s, s', slab, a.id, rec);
      }
    }
  }

  lemma MoveKeepsBooks(c: Content, cfg: Config, s: State, t: Tid)
    requires Inv(c, s) && AccountInv(s) && Enabled(c, cfg, s, t, MoveTxn)
    ensures AccountInv(Apply(c, cfg, s, t, MoveTxn))
  {
    hide DisjointInv, LiveBytes, Slack, ApplyRecord, ApplyRow, ApplyOpen, ContentInv, CommitAppend, ThreadInv, VictimOk;
    var pc := PcOf(s, t);
    AppendedBytes(c, s, t);
    var e, n := pc.rest[0], |pc.bytes|;
    var mid := Moved(cfg, s, pc.victim, e, n);
    assert Apply(c, cfg, s, t, MoveTxn) == Goto(mid, t, Moving(pc.victim, pc.rest[1..]));
    if e.id in s.objects && s.objects[e.id].loc == InSlab(pc.victim, e.off) {
      var rec := s.objects[e.id].(loc := InSlab(s.mode.slab, s.mode.off));
      SizeOf(c, s, e.id);
      CommitRows(s.(objects := s.objects[e.id := rec]), cfg, n, 0);
      assert pc.victim in s.slabs ==> pc.victim in s.cut by { VictimCut(c, s, pc.victim, pc.rest); }
      assert mid == Placed(cfg, s, e.id, rec);
      forall slab | slab in mid.slabs
        ensures Slack(mid, slab) == if slab in s.slabs then Slack(s, slab) + RowIn(c, s, e.id, slab) else 0
      {
        PlacedSlack(c, cfg, s, e.id, rec, slab);
      }
      assert AccountInv(mid);
    } else {
      CommitRows(s, cfg, n, n);
      forall slab | slab in mid.slabs
        ensures Slack(mid, slab) == if slab in s.slabs then Slack(s, slab) else 0
      {
        OrphanSlack(cfg, s, n, slab);
      }
      assert AccountInv(mid);
    }
    GotoSlack(mid, t, Moving(pc.victim, pc.rest[1..]));
  }

  lemma VictimCut(c: Content, s: State, victim: nat, rest: seq<Entry>)
    requires VictimOk(c, s, victim, rest)
    ensures victim in s.slabs ==> victim in s.cut
  {
  }

  lemma DropKeepsBooks(c: Content, cfg: Config, s: State, t: Tid)
    requires AccountInv(s) && Enabled(c, cfg, s, t, DropTxn)
    ensures AccountInv(Apply(c, cfg, s, t, DropTxn))
  {
    hide LiveBytes, ApplyRow, ApplyRecord, ApplyOpen;
    SameLive(s, Apply(c, cfg, s, t, DropTxn));
  }

  lemma OpenKeepsBooks(c: Content, cfg: Config, s: State, t: Tid, a: Action)
    requires Inv(c, s) && AccountInv(s) && Enabled(c, cfg, s, t, a) && !RowStep(a) && !RecordStep(a) && !IsCompactionStep(a)
    ensures AccountInv(Apply(c, cfg, s, t, a))
  {
    hide DisjointInv, LiveBytes, ContentInv, ThreadInv, LockInv, OpenIsTop, LostBytes;
    match a
    case Crash(files) => SameBooks(s, Apply(c, cfg, s, t, a));
    case ReconcileOne(slab) => SameBooks(s, Apply(c, cfg, s, t, a));
    case OpenIndex => IndexBooks(c, cfg, s, t);
    case FinishOpen => FinishBooks(c, cfg, s, t);
  }

  lemma IndexBooks(c: Content, cfg: Config, s: State, t: Tid)
    requires Inv(c, s) && AccountInv(s) && Enabled(c, cfg, s, t, OpenIndex)
    ensures AccountInv(Apply(c, cfg, s, t, OpenIndex))
  {
    hide DisjointInv, LiveBytes, ContentInv, ThreadInv, LockInv, OpenIsTop, TopInv, LenInv, ApplyRow, ApplyRecord, ApplyCompact;
    var s' := Apply(c, cfg, s, t, OpenIndex);
    SameLive(s, s');
    if !exists slab :: HasOpenSlab(s.slabs, slab) {
      LiveUnknown(s, s'.mode.slab);
    }
  }

  lemma FinishBooks(c: Content, cfg: Config, s: State, t: Tid)
    requires Inv(c, s) && AccountInv(s) && Enabled(c, cfg, s, t, FinishOpen)
    ensures AccountInv(Apply(c, cfg, s, t, FinishOpen))
  {
    hide DisjointInv, LiveBytes, ContentInv, ThreadInv, LockInv;
    FinishRows(c, cfg, s, t);
    hide TopInv, LenInv, Apply;
    SameLive(s, Apply(c, cfg, s, t, FinishOpen));
    if s.mode.damaged {
      LiveUnknown(s, s.mode.slab + 1);
    }
  }

  /** A step that finds the row its call looked at keeps the books balanced. */
  lemma StepKeepsBooks(c: Content, cfg: Config, s: State, t: Tid, a: Action)
    requires Inv(c, s) && AccountInv(s) && Enabled(c, cfg, s, t, a) && FindsItsRow(s, t, a)
    ensures AccountInv(Apply(c, cfg, s, t, a))
  {
    hide Inv, AccountInv, ApplyRow, ApplyRecord, ApplyCompact, ApplyOpen;
    if a.RemoveTxn? {
      RemoveKeepsBooks(c, cfg, s, t);
    } else if a.InsertTxn? {
      InsertKeepsBooks(c, cfg, s, t);
    } else if RowStep(a) {
      LookBooks(c, cfg, s, t, a);
    } else if RecordStep(a) {
      RecordKeepsBooks(c, cfg, s, t, a);
    } else if a.MoveTxn? {
      MoveKeepsBooks(c, cfg, s, t);
    } else if a.DropTxn? {
      DropKeepsBooks(c, cfg, s, t);
    } else if IsCompactionStep(a) {
      CompactBooks(c, cfg, s, t, a);
    } else {
      OpenKeepsBooks(c, cfg, s, t, a);
    }
  }

  lemma LookBooks(c: Content, cfg: Config, s: State, t: Tid, a: Action)
    requires AccountInv(s) && Enabled(c, cfg, s, t, a) && RowStep(a) && !a.RemoveTxn? && !a.InsertTxn?
    ensures AccountInv(Apply(c, cfg, s, t, a))
  {
    hide AccountInv, ApplyRecord, ApplyCompact, ApplyOpen, FileOf, CommitAppend;
    SameBooks(s, Apply(c, cfg, s, t, a));
  }

  lemma CompactBooks(c: Content, cfg: Config, s: State, t: Tid, a: Action)
    requires AccountInv(s) && Enabled(c, cfg, s, t, a) && IsCompactionStep(a) && !a.MoveTxn? && !a.DropTxn?
    ensures AccountInv(Apply(c, cfg, s, t, a))
  {
    hide AccountInv, ApplyRow, ApplyRecord, ApplyOpen, FileOf, CommitAppend, IsSnapshot, WorthCompacting;
    SameBooks(s, Apply(c, cfg, s, t, a));
  }

  /** Every remove and every insert of the run finds in its transaction the row it looked at. */
  ghost predicate AllFindRows(c: Content, cfg: Config, s: State, run: seq<Event>)
    requires Possible(c, cfg, s, run)
    decreases |run|
  {
    run != [] ==>
      FindsItsRow(s, run[0].tid, run[0].action) && AllFindRows(c, cfg, Apply(c, cfg, s, run[0].tid, run[0].action), run[1..])
  }

  lemma {:induction false} RunKeepsBooks(c: Content, cfg: Config, s: State, run: seq<Event>)
    requires Inv(c, s) && AccountInv(s) && Possible(c, cfg, s, run) && AllFindRows(c, cfg, s, run)
    ensures AccountInv(Outcome(c, cfg, s, run))
    decreases |run|
  {
    hide Inv, AccountInv, Apply, Enabled, FindsItsRow;
    if run != [] {
      StepKeeps(c, cfg, s, run[0].tid, run[0].action);
      StepKeepsBooks(c, cfg, s, run[0].tid, run[0].action);
      RunKeepsBooks(c, cfg, Apply(c, cfg, s, run[0].tid, run[0].action), run[1..]);
    }
  }

  /**
   * From an empty directory, over every interleaving in which removes and inserts find the rows they looked at: live
   * plus dead bytes never exceed a slab's length, and fill every slab whose compaction was not cut short.
   */
  lemma BooksBalance(c: Content, cfg: Config, run: seq<Event>)
    requires Possible(c, cfg, EMPTY_DIRECTORY, run) && AllFindRows(c, cfg, EMPTY_DIRECTORY, run)
    ensures AccountInv(Outcome(c, cfg, EMPTY_DIRECTORY, run))
  {
    hide Inv, Apply, Enabled, Possible, Outcome, AllFindRows;
    EmptyInv(c);
    assert AccountInv(EMPTY_DIRECTORY);
    RunKeepsBooks(c, cfg, EMPTY_DIRECTORY, run);
  }
}
