/** What objects see of a running slab store: their bytes and their rows. */
module SlabReads {
  import opened Prelude
  import opened SlabStore
  import opened SlabProofs

  // ---- bytes ----

  ghost predicate ReadsBack(c: Content, s: State, id: ObjId)
    requires id in s.objects
  {
    var rec := s.objects[id];
    rec.loc.InSlab? && Readable(s, rec.loc.slab, rec.loc.off, rec.size) &&
    ReadSlab(s, rec.loc.slab, rec.loc.off, rec.size) == c(id)
  }

  /** The row of the object points into a slab, but its bytes do not come back from there. */
  ghost predicate Fails(c: Content, s: State, id: ObjId)
  {
    id in s.objects && s.objects[id].loc.InSlab? && !ReadsBack(c, s, id)
  }

  ghost predicate NoneStartsFailing(c: Content, s: State, s': State)
  {
    forall id :: Fails(c, s', id) ==> Fails(c, s, id)
  }

  /** A record that stays where it is reads the same when its slab file was at most extended. */
  lemma SamePlaceReads(c: Content, s: State, s': State, id: ObjId)
    requires id in s.objects && id in s'.objects && s'.objects[id].loc == s.objects[id].loc && s'.objects[id].size == s.objects[id].size
    requires ReadsBack(c, s, id)
    requires s.objects[id].loc.InSlab? ==> FileOf(s, s.objects[id].loc.slab) <= FileOf(s', s.objects[id].loc.slab)
    ensures ReadsBack(c, s', id)
  {
    var rec := s.objects[id];
    var n := rec.loc.off + rec.size;
    assert FileOf(s', rec.loc.slab)[..n] == FileOf(s, rec.loc.slab)[..n];
    assert FileOf(s', rec.loc.slab)[rec.loc.off..n] == FileOf(s', rec.loc.slab)[..n][rec.loc.off..];
    assert FileOf(s, rec.loc.slab)[rec.loc.off..n] == FileOf(s, rec.loc.slab)[..n][rec.loc.off..];
  }

  /** Records keep their places or go, and no file of a slab in the table is cut. */
  lemma SamePlacesRead(c: Content, s: State, s': State)
    requires InsideInv(s)
    requires forall id :: id in s'.objects && s'.objects[id].loc.InSlab? ==>
               id in s.objects && s'.objects[id].loc == s.objects[id].loc && s'.objects[id].size == s.objects[id].size
    requires forall n :: n in s.slabs ==> FileOf(s, n) <= FileOf(s', n)
    ensures NoneStartsFailing(c, s, s')
  {
    hide ReadsBack, FileOf;
    forall id | Fails(c, s', id)
      ensures Fails(c, s, id)
    {
      if ReadsBack(c, s, id) {
        SamePlaceReads(c, s, s', id);
      }
    }
  }

  /** The placed record reads the tail just committed; the others are where they were. */
  lemma PlacedReads(c: Content, cfg: Config, s: State, id: ObjId, rec: ObjRecord)
    requires TailReady(c, s, id, rec) && LenInv(s)
    ensures NoneStartsFailing(c, s, Placed(cfg, s, id, rec)) && !Fails(c, Placed(cfg, s, id, rec), id)
  {
    hide ReadsBack;
    var s' := Placed(cfg, s, id, rec);
    assert s'.objects == s.objects[id := rec] && s'.files == s.files;
    hide CommitAppend;
    assert forall n :: FileOf(s', n) == FileOf(s, n);
    TailReads(c, s, s', id, rec);
    forall i | Fails(c, s', i)
      ensures Fails(c, s, i)
    {
      if ReadsBack(c, s, i) {
        SamePlaceReads(c, s, s', i);
      }
    }
  }

  lemma TailReads(c: Content, s: State, s': State, id: ObjId, rec: ObjRecord)
    requires TailReady(c, s, id, rec) && LenInv(s) && s'.files == s.files && id in s'.objects && s'.objects[id] == rec
    ensures ReadsBack(c, s', id)
  {
    var file, off := FileOf(s, s.mode.slab), s.mode.off;
    assert FileOf(s', s.mode.slab) == file;
    assert file[off..off + rec.size] == file[off..];
  }

  lemma GotoReads(c: Content, s: State, t: Tid, pc: Pc)
    ensures forall id :: Fails(c, Goto(s, t, pc), id) <==> Fails(c, s, id)
  {
    assert forall n :: FileOf(Goto(s, t, pc), n) == FileOf(s, n);
  }

  lemma LookReads(c: Content, cfg: Config, s: State, t: Tid, a: Action)
    requires Inv(c, s) && Enabled(c, cfg, s, t, a) && RowStep(a) && !a.InsertTxn?
    ensures NoneStartsFailing(c, s, Apply(c, cfg, s, t, a))
  {
    hide ReadsBack, TopInv, DisjointInv, ContentInv, LockInv, ThreadInv, CommitAppend, BookDead, ApplyRecord, ApplyCompact, ApplyOpen;
    var s' := Apply(c, cfg, s, t, a);
    if a.TornAppend? {
      assert (FileOf(s, s.mode.slab) + a.junk)[..s.mode.off] == FileOf(s, s.mode.slab);
    }
    assert forall n :: FileOf(s, n) <= FileOf(s', n);
    SamePlacesRead(c, s, s');
  }

  lemma RecordReads(c: Content, cfg: Config, s: State, t: Tid, a: Action)
    requires Inv(c, s) && Enabled(c, cfg, s, t, a) && RecordStep(a)
    ensures NoneStartsFailing(c, s, Apply(c, cfg, s, t, a))
  {
    hide ReadsBack, TopInv, LenInv, DisjointInv, ContentInv, LockInv, ThreadInv, BookDead, ApplyRow, ApplyCompact, ApplyOpen;
    var s' := Apply(c, cfg, s, t, a);
    assert forall n :: FileOf(s, n) <= FileOf(s', n);
    SamePlacesRead(c, s, s');
  }

  lemma InsertReads(c: Content, cfg: Config, s: State, t: Tid)
    requires Inv(c, s) && Enabled(c, cfg, s, t, InsertTxn)
    ensures NoneStartsFailing(c, s, Apply(c, cfg, s, t, InsertTxn)) && !Fails(c, Apply(c, cfg, s, t, InsertTxn), PcOf(s, t).id)
  {
    hide ReadsBack, TopInv, LenInv, InsideInv, DisjointInv, ContentInv, ThreadInv, CommitAppend, ApplyRecord, ApplyCompact, ApplyOpen;
    var pc := PcOf(s, t);
    var rec := ObjRecord(|c(pc.id)|, InSlab(s.mode.slab, s.mode.off), 0, pc.now);
    PlacedReads(c, cfg, s, pc.id, rec);
    GotoReads(c, Placed(cfg, s, pc.id, rec), t, Idle);
  }

  lemma MoveReads(c: Content, cfg: Config, s: State, t: Tid)
    requires Inv(c, s) && Enabled(c, cfg, s, t, MoveTxn)
    ensures NoneStartsFailing(c, s, Apply(c, cfg, s, t, MoveTxn))
  {
    hide ReadsBack, LenInv, DisjointInv, ContentInv, ThreadInv, CommitAppend, VictimOk, ApplyRow, ApplyRecord, ApplyOpen;
    var pc := PcOf(s, t);
    AppendedBytes(c, s, t);
    var e, n := pc.rest[0], |pc.bytes|;
    var next := Moving(pc.victim, pc.rest[1..]);
    var mid := Moved(cfg, s, pc.victim, e, n);
    assert Apply(c, cfg, s, t, MoveTxn) == Goto(mid, t, next);
    if e.id in s.objects && s.objects[e.id].loc == InSlab(pc.victim, e.off) {
      SizeOf(c, s, e.id);
      var rec := s.objects[e.id].(loc := InSlab(s.mode.slab, s.mode.off));
      assert mid == Placed(cfg, s, e.id, rec);
      PlacedReads(c, cfg, s, e.id, rec);
    } else {
      assert s.slabs[s.mode.slab].len == s.mode.off by { OpenLength(s); }
      CommitRows(s, cfg, n, n);
      assert forall k :: FileOf(mid, k) == FileOf(s, k);
      SamePlacesRead(c, s, mid);
    }
    GotoReads(c, mid, t, next);
  }

  lemma OpenLength(s: State)
    requires LenInv(s) && s.mode.Up?
    ensures s.mode.slab in s.slabs && s.slabs[s.mode.slab].len == s.mode.off
  {
  }

  lemma CompactReads(c: Content, cfg: Config, s: State, t: Tid, a: Action)
    requires Inv(c, s) && Enabled(c, cfg, s, t, a) && IsCompactionStep(a) && !a.MoveTxn?
    ensures NoneStartsFailing(c, s, Apply(c, cfg, s, t, a))
  {
    hide ReadsBack, TopInv, LenInv, DisjointInv, ContentInv, LockInv, CommitAppend, IsSnapshot, WorthCompacting, ThreadInv,
         ApplyRow, ApplyRecord, ApplyOpen;
    var s' := Apply(c, cfg, s, t, a);
    if a.DropUnlink? {
      DroppedIs(c, s, t);
    }
    assert forall n :: n in s.slabs ==> FileOf(s, n) <= FileOf(s', n);
    SamePlacesRead(c, s, s');
  }

  /** Cutting a file back to its tracked length takes no object's bytes. */
  lemma CutReads(c: Content, s: State, s': State, slab: nat)
    requires InsideInv(s) && slab in s.slabs && s.slabs[slab].len <= |FileOf(s, slab)|
    requires s'.objects == s.objects && s'.files == s.files[slab := FileOf(s, slab)[..s.slabs[slab].len]]
    ensures NoneStartsFailing(c, s, s')
  {
    hide ReadsBack;
    forall id | Fails(c, s', id)
      ensures Fails(c, s, id)
    {
      if ReadsBack(c, s, id) {
        CutRead(c, s, s', slab, id);
      }
    }
  }

  lemma CutRead(c: Content, s: State, s': State, slab: nat, id: ObjId)
    requires id in s.objects && ReadsBack(c, s, id) && s'.objects == s.objects
    requires InsideInv(s) && slab in s.slabs && s.slabs[slab].len <= |FileOf(s, slab)|
    requires s'.files == s.files[slab := FileOf(s, slab)[..s.slabs[slab].len]]
    ensures ReadsBack(c, s', id)
  {
    var rec := s.objects[id];
    var n := rec.loc.off + rec.size;
    if rec.loc.slab == slab {
      var file, file' := FileOf(s, slab), FileOf(s', slab);
      assert file'[rec.loc.off..n] == file[rec.loc.off..n];
    } else {
      assert FileOf(s', rec.loc.slab) == FileOf(s, rec.loc.slab);
    }
  }

  lemma OpenReads(c: Content, cfg: Config, s: State, t: Tid, a: Action)
    requires Inv(c, s) && Enabled(c, cfg, s, t, a) && (a.OpenIndex? || a.ReconcileOne? || a.FinishOpen?)
    ensures NoneStartsFailing(c, s, Apply(c, cfg, s, t, a))
  {
    hide ReadsBack, NoneStartsFailing, TopInv, DisjointInv, ContentInv, LockInv, ThreadInv, HasOpenSlab, ApplyRow, ApplyRecord, ApplyCompact;
    var s' := Apply(c, cfg, s, t, a);
    if a.ReconcileOne? && |FileOf(s, a.slab)| > MetaOf(s, a.slab).len {
      CutReads(c, s, s', a.slab);
    } else {
      assert forall n :: FileOf(s', n) == FileOf(s, n);
      SamePlacesRead(c, s, s');
    }
  }

  /** No step but a crash makes an object fail to read back, whatever lands between a compaction's steps. */
  lemma StepReads(c: Content, cfg: Config, s: State, t: Tid, a: Action)
    requires Inv(c, s) && Enabled(c, cfg, s, t, a) && !a.Crash?
    ensures NoneStartsFailing(c, s, Apply(c, cfg, s, t, a))
  {
    hide Inv, Enabled, Apply, NoneStartsFailing;
    if a.InsertTxn? {
      InsertReads(c, cfg, s, t);
    } else if RowStep(a) {
      LookReads(c, cfg, s, t, a);
    } else if RecordStep(a) {
      RecordReads(c, cfg, s, t, a);
    } else if a.MoveTxn? {
      MoveReads(c, cfg, s, t);
    } else if a.OpenIndex? || a.ReconcileOne? || a.FinishOpen? {
      OpenReads(c, cfg, s, t, a);
    } else {
      CompactReads(c, cfg, s, t, a);
    }
  }

  /**
   * Over a whole run without a crash, any threads inserting, removing, evicting, pinning and compacting behind an opening, several of
   * them at once and the same victim twice if need be: an object that does not read back at the end did not at the
   * start. What a crash had damaged stays damaged, and nothing else does.
   */
  lemma {:induction false} RunReads(c: Content, cfg: Config, s: State, run: seq<Event>)
    requires (forall i :: 0 <= i < |run| ==> !run[i].action.Crash?) && Possible(c, cfg, s, run)
    requires Inv(c, s)
    ensures NoneStartsFailing(c, s, Outcome(c, cfg, s, run))
    decreases |run|
  {
    hide Inv, Apply, Enabled, Fails;
    if run != [] {
      StepKeeps(c, cfg, s, run[0].tid, run[0].action);
      StepReads(c, cfg, s, run[0].tid, run[0].action);
      RunReads(c, cfg, Apply(c, cfg, s, run[0].tid, run[0].action), run[1..]);
    }
  }

  // ---- rows ----

  /** A row but for its place. */
  datatype Row = Row(size: nat, refcount: nat, lastAccess: nat)

  /** What a step does to one object's row on purpose. */
  datatype Effect = Nothing | Born(size: nat, now: nat) | Gone | Changed(delta: int) | Pinned | Stamped(now: nat)

  /** The effect of a step on `id`, read off the call the step belongs to. No step of a compaction has one. */
  function EffectOn(c: Content, s: State, t: Tid, a: Action, id: ObjId): Effect
  {
    var pc := PcOf(s, t);
    match a
    case InsertTxn => if pc.InsertAppended? && pc.id == id then Born(|c(id)|, pc.now) else Nothing
    case Claim(i, size, now) => if i == id && id !in s.objects then Born(size, now) else Nothing
    case Evict(i) => if i == id then Gone else Nothing
    case RemoveTxn => if pc.Removing? && pc.id == id then Gone else Nothing
    case RefDelta(i, delta) => if i == id then Changed(delta) else Nothing
    case Pin(i) => if i == id then Pinned else Nothing
    case Touch(i, now) => if i == id then Stamped(now) else Nothing
    case _ => Nothing
  }

  /** An object's row, if it has one. */
  function RowOf(s: State, id: ObjId): Option<Row>
  {
    if id in s.objects then Some(Row(s.objects[id].size, s.objects[id].refcount, s.objects[id].lastAccess)) else None
  }

  function After(row: Option<Row>, e: Effect): Option<Row>
  {
    match e
    case Nothing => row
    case Born(size, now) => Some(Row(size, 0, now))
    case Gone => None
    case Changed(delta) => if row.Some? then Some(row.value.(refcount := Max(row.value.refcount + delta, 0))) else None
    case Pinned => if row.Some? then Some(row.value.(refcount := Max(row.value.refcount, 1))) else None
    case Stamped(now) => if row.Some? then Some(row.value.(lastAccess := Max(row.value.lastAccess, now))) else None
  }

  lemma CallRow(c: Content, cfg: Config, s: State, t: Tid, a: Action, id: ObjId)
    requires Enabled(c, cfg, s, t, a) && RowStep(a)
    ensures RowOf(ApplyRow(c, cfg, s, t, a), id) == After(RowOf(s, id), EffectOn(c, s, t, a, id))
  {
    hide FileOf, BookDead, MetaOf, Grown;
  }

  lemma RecordRow(c: Content, cfg: Config, s: State, t: Tid, a: Action, id: ObjId)
    requires Enabled(c, cfg, s, t, a) && RecordStep(a)
    ensures RowOf(ApplyRecord(c, cfg, s, t, a), id) == After(RowOf(s, id), EffectOn(c, s, t, a, id))
  {
    hide BookDead;
  }

  lemma CompactRow(c: Content, cfg: Config, s: State, t: Tid, a: Action, id: ObjId)
    requires Enabled(c, cfg, s, t, a) && IsCompactionStep(a)
    ensures RowOf(ApplyCompact(c, cfg, s, t, a), id) == RowOf(s, id)
  {
    hide FileOf, MetaOf, Grown, IsSnapshot, WorthCompacting;
  }

  lemma OpenRow(c: Content, cfg: Config, s: State, t: Tid, a: Action, id: ObjId)
    requires Enabled(c, cfg, s, t, a) && !RowStep(a) && !RecordStep(a) && !IsCompactionStep(a)
    ensures RowOf(ApplyOpen(c, cfg, s, t, a), id) == RowOf(s, id)
  {
    hide FileOf, MetaOf, HasOpenSlab, LostBytes;
  }

  /** What a run does to one object on purpose, in order. */
  ghost function EffectsOn(c: Content, cfg: Config, s: State, run: seq<Event>, id: ObjId): seq<Effect>
    requires Possible(c, cfg, s, run)
    decreases |run|
  {
    if run == [] then []
    else
      var e := EffectOn(c, s, run[0].tid, run[0].action, id);
      (if e.Nothing? then [] else [e]) + EffectsOn(c, cfg, Apply(c, cfg, s, run[0].tid, run[0].action), run[1..], id)
  }

  function Fold(row: Option<Row>, effects: seq<Effect>): Option<Row>
    decreases |effects|
  {
    if effects == [] then row else Fold(After(row, effects[0]), effects[1..])
  }

  /**
   * Over any run, with crashes, reopens and compactions in it: an object's size, reference count and access time are
   * what its own inserts, claims, deletes, reference changes, pins and touches make of them, in their order. Compaction
   * reverts none of them and brings no deleted object back.
   */
  lemma {:induction false} RowsAreOwn(c: Content, cfg: Config, s: State, run: seq<Event>, id: ObjId)
    requires Possible(c, cfg, s, run)
    ensures RowOf(Outcome(c, cfg, s, run), id) == Fold(RowOf(s, id), EffectsOn(c, cfg, s, run, id))
    decreases |run|
  {
    hide Enabled, ApplyRow, ApplyRecord, ApplyCompact, ApplyOpen, RowOf, After, EffectOn;
    if run != [] {
      var t, a := run[0].tid, run[0].action;
      var next := Apply(c, cfg, s, t, a);
      var e := EffectOn(c, s, t, a, id);
      assert RowOf(next, id) == After(RowOf(s, id), e) by { StepRow(c, cfg, s, t, a, id); }
      RowsAreOwn(c, cfg, next, run[1..], id);
      var rest := EffectsOn(c, cfg, next, run[1..], id);
      assert After(RowOf(s, id), Nothing) == RowOf(s, id) by { NothingDone(RowOf(s, id)); }
      if e.Nothing? {
        assert [] + rest == rest;
      } else {
        assert ([e] + rest)[0] == e && ([e] + rest)[1..] == rest;
      }
    }
  }

  lemma NothingDone(row: Option<Row>)
    ensures After(row, Nothing) == row
  {
  }

  lemma StepRow(c: Content, cfg: Config, s: State, t: Tid, a: Action, id: ObjId)
    requires Enabled(c, cfg, s, t, a)
    ensures RowOf(Apply(c, cfg, s, t, a), id) == After(RowOf(s, id), EffectOn(c, s, t, a, id))
  {
    hide Enabled, ApplyRow, ApplyRecord, ApplyCompact, ApplyOpen, RowOf;
    if RowStep(a) {
      CallRow(c, cfg, s, t, a, id);
    } else if RecordStep(a) {
      RecordRow(c, cfg, s, t, a, id);
    } else if IsCompactionStep(a) {
      CompactRow(c, cfg, s, t, a, id);
    } else {
      OpenRow(c, cfg, s, t, a, id);
    }
  }

  /**
   * A referenced object leaves the index only by its own `remove`, and no eviction, compaction or other object's step
   * changes its count; a second insert of it does (`SlabRaces.SecondInsertUnpins`).
   */
  lemma PinnedSurvives(c: Content, cfg: Config, s: State, t: Tid, a: Action, id: ObjId)
    requires Enabled(c, cfg, s, t, a) && id in s.objects && s.objects[id].refcount > 0
    requires !(a.RemoveTxn? && PcOf(s, t).id == id)
    ensures id in Apply(c, cfg, s, t, a).objects
    ensures !(a.RefDelta? && a.id == id) && !(a.InsertTxn? && PcOf(s, t).id == id) ==>
              Apply(c, cfg, s, t, a).objects[id].refcount == s.objects[id].refcount
  {
    hide Apply;
    StepRow(c, cfg, s, t, a, id);
  }

  lemma {:induction false} NothingFromNothing(effects: seq<Effect>)
    requires forall i :: 0 <= i < |effects| ==> !effects[i].Born?
    ensures Fold(None, effects) == None
    decreases |effects|
  {
    if effects != [] {
      NothingFromNothing(effects[1..]);
    }
  }

  /** A deleted object stays out of the index until it is inserted or claimed again. */
  lemma DeletedStaysOut(c: Content, cfg: Config, s: State, run: seq<Event>, id: ObjId)
    requires Possible(c, cfg, s, run) && id !in s.objects
    requires forall i :: 0 <= i < |EffectsOn(c, cfg, s, run, id)| ==> !EffectsOn(c, cfg, s, run, id)[i].Born?
    ensures id !in Outcome(c, cfg, s, run).objects
  {
    hide Possible, Outcome, EffectsOn, Fold;
    RowsAreOwn(c, cfg, s, run, id);
    NothingFromNothing(EffectsOn(c, cfg, s, run, id));
  }
}
