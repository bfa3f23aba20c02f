/** What a write leaves in the index, and that what was written can be read. */
module SparseWrites {
  import opened Prelude
  import opened GroupRuns
  import opened GroupBitsModel
  import opened Coverage
  import opened SparseStore
  import opened SparseProofs
  import opened SparseRecords
  import opened SparseReads

  /** Some byte of the range lies in group `g`. */
  ghost predicate Touches(r: Run, g: nat)
  {
    exists p: nat :: InRun(r, p) && p / GROUP_BYTES == g
  }

  /** Group `g` has bytes below `size`, and all of them were written. */
  ghost predicate AllWritten(written: seq<Run>, size: nat, g: nat)
  {
    g * GROUP_BYTES < size && forall p: nat :: p < size && p / GROUP_BYTES == g ==> Has(written, p)
  }

  /**
   * The groups a decode has earned: for `write_slice` those some byte of a requested range lies in, once all of it
   * verified; for the partial writer those of which every byte was written, however the decode ended.
   */
  ghost predicate Earned(pc: Pc, g: nat)
    requires pc.Writing? && pc.stage.Decoded?
  {
    if pc.partial then AllWritten(pc.stage.written, pc.stage.size, g)
    else pc.stage.ok && exists i :: 0 <= i < |pc.ranges| && Touches(pc.ranges[i], g)
  }

  lemma TouchesIs(r: Run, g: nat)
    ensures Touches(r, g) <==> InRun(GroupsForBytes(r), g)
  {
    if InRun(GroupsForBytes(r), g) {
      var p := Max(r.start, g * GROUP_BYTES);
      assert InRun(r, p) && p / GROUP_BYTES == g;
    }
  }

  lemma AllWrittenIs(written: seq<Run>, size: nat, g: nat)
    ensures AllWritten(written, size, g) <==> FullyWritten(written, size, g)
  {
    var b := BytesOfGroup(g, size);
    forall p: nat
      ensures g * GROUP_BYTES < size ==> (InRun(b, p) <==> p < size && p / GROUP_BYTES == g)
    {
    }
    if AllWritten(written, size, g) {
      forall p | InRun(b, p)
        ensures Has(written, p)
      {
        var q: nat := p;
        assert q / GROUP_BYTES == g;
      }
    }
  }

  lemma MarksAreEarned(pc: Pc, g: nat)
    requires pc.Writing? && pc.stage.Decoded? && RangesFit(pc.ranges, pc.stage.size)
    ensures g in Marks(pc) <==> Earned(pc, g)
  {
    hide FullyWritten, AllWritten, Touches;
    AllWrittenIs(pc.stage.written, pc.stage.size, g);
    forall i | 0 <= i < |pc.ranges|
      ensures Touches(pc.ranges[i], g) <==> InRun(GroupsForBytes(pc.ranges[i]), g)
      ensures InRun(GroupsForBytes(pc.ranges[i]), g) ==> g < GroupCount(pc.stage.size)
    {
      TouchesIs(pc.ranges[i], g);
    }
    if FullyWritten(pc.stage.written, pc.stage.size, g) {
      InCount(pc.stage.written, pc.stage.size, g);
    }
  }

  lemma InCount(written: seq<Run>, size: nat, g: nat)
    requires FullyWritten(written, size, g)
    ensures g < GroupCount(size)
  {
  }

  /** Does the writer's transaction stamp the record? */
  ghost predicate Stamps(pc: Pc)
    requires pc.Writing? && pc.stage.Decoded?
  {
    if pc.partial then exists g: nat :: Earned(pc, g) else pc.stage.ok
  }

  lemma StampsIs(pc: Pc)
    requires pc.Writing? && pc.stage.Decoded? && RangesFit(pc.ranges, pc.stage.size)
    ensures Stamps(pc) <==> Commits(pc)
  {
    hide Earned, Marks;
    forall g: nat
      ensures g in Marks(pc) <==> Earned(pc, g)
    {
      MarksAreEarned(pc, g);
    }
  }

  lemma CommitApplies(c: Content, s: State, t: Tid, now: nat)
    requires Enabled(c, s, t, CommitBits(now)) && PcOf(s, t).id in s.records
    ensures var pc := PcOf(s, t);
            var rec := s.records[pc.id];
            Apply(c, s, t, CommitBits(now)).records ==
              if Commits(pc) then s.records[pc.id := rec.(present := rec.present + Marks(pc), lastAccess := Max(rec.lastAccess, now))]
              else s.records
  {
    GotoRecords();
    hide Marks, Commits, Goto, PcOf, DecodedAll, RangesFit, ApplyDelete, ApplyEnsure, ApplyRead, ApplyOther, WriteAt, Track, Bump, Drop;
  }

  lemma WriterHolds(c: Content, d: Sizes, s: State, t: Tid)
    requires Inv(c, d, s) && PcOf(s, t).Writing? && PcOf(s, t).stage.Decoded?
    ensures var pc := PcOf(s, t);
            pc.id in s.records && s.records[pc.id].size == pc.stage.size && RangesFit(pc.ranges, pc.stage.size)
  {
    hide PresentInv, LinkInv, LockInv, CountInv, DeleteInv, SizeInv, DecodedAll, ExtentRight;
    assert PcOk(c, d, s, PcOf(s, t));
  }

  /**
   * A finished decode lands: exactly the groups it earned become present, on top of what other writers committed
   * meanwhile, and nothing else changes but the access time.
   */
  lemma CommitLands(c: Content, d: Sizes, s: State, t: Tid, now: nat)
    requires Inv(c, d, s) && Enabled(c, s, t, CommitBits(now))
    ensures var pc := PcOf(s, t);
            var after := Apply(c, s, t, CommitBits(now)).records;
            && pc.id in s.records && after.Keys == s.records.Keys
            && (forall g: nat :: g in after[pc.id].present <==> g in s.records[pc.id].present || Earned(pc, g))
            && after[pc.id] == s.records[pc.id].(present := after[pc.id].present, lastAccess := after[pc.id].lastAccess)
            && after[pc.id].lastAccess == Max(s.records[pc.id].lastAccess, if Stamps(pc) then now else 0)
            && forall id :: id in after && id != pc.id ==> after[id] == s.records[id]
  {
    hide Inv, Enabled, Marks, Commits, Earned, Stamps, Apply;
    assert PcOf(s, t).Writing? && PcOf(s, t).stage.Decoded? by { CommitStage(c, s, t, now); }
    var pc := PcOf(s, t);
    WriterHolds(c, d, s, t);
    CommitApplies(c, s, t, now);
    StampsIs(pc);
    forall g: nat
      ensures g in Marks(pc) <==> Earned(pc, g)
      ensures Earned(pc, g) ==> Stamps(pc)
    {
      MarksAreEarned(pc, g);
      EarnedStamps(pc, g);
    }
  }

  lemma CommitStage(c: Content, s: State, t: Tid, now: nat)
    requires Enabled(c, s, t, CommitBits(now))
    ensures PcOf(s, t).Writing? && PcOf(s, t).stage.Decoded?
  {
  }

  lemma EarnedStamps(pc: Pc, g: nat)
    requires pc.Writing? && pc.stage.Decoded?
    ensures Earned(pc, g) ==> Stamps(pc)
  {
  }

  // ---- what was written can be read ----

  /** A read goes on to its file exactly if the range is not empty, inside the object, and every byte of it is in a present group. */
  lemma ReadStartsIff(c: Content, d: Sizes, s: State, t: Tid, id: ObjId, bytes: Run)
    requires Inv(c, d, s) && PcOf(s, t).Idle?
    ensures PcOf(Apply(c, s, t, StartRead(id, bytes)), t).Reading? <==>
              && id in s.records && bytes.start < bytes.end <= s.records[id].size
              && forall p: nat :: InRun(bytes, p) ==> p / GROUP_BYTES in s.records[id].present
  {
    hide Inv, Enabled, Covered, ApplyWriter, ApplyDelete, ApplyEnsure, ApplyOther;
    if id in s.records {
      CoveredIs(s.records[id], bytes);
      if Covered(s.records[id], bytes) {
        StartsReading(c, d, s, t, id, bytes);
      }
    }
  }

  lemma CoveredIs(rec: Record, bytes: Run)
    ensures Covered(rec, bytes) <==>
              && bytes.start < bytes.end <= rec.size
              && forall p: nat :: InRun(bytes, p) ==> p / GROUP_BYTES in rec.present
  {
    var groups := GroupsForBytes(bytes);
    if Covered(rec, bytes) {
      forall p: nat | InRun(bytes, p)
        ensures p / GROUP_BYTES in rec.present
      {
        assert p / GROUP_BYTES in Span(groups);
      }
    }
    if bytes.start < bytes.end <= rec.size && forall p: nat :: InRun(bytes, p) ==> p / GROUP_BYTES in rec.present {
      forall g: nat | g in Span(groups)
        ensures g in rec.present
      {
        TouchesIs(bytes, g);
        var p: nat :| InRun(bytes, p) && p / GROUP_BYTES == g;
      }
    }
  }

  /** No step of the run deletes the record of `id` or takes groups from it. */
  ghost predicate Kept(c: Content, s: State, events: seq<Event>, id: ObjId)
    requires Possible(c, s, events)
    decreases |events|
  {
    events == [] ||
    (var t, a := events[0].tid, events[0].action;
     && !(a.DeleteTxn? && PcOf(s, t).id == id) && !(a.Shrink? && a.id == id)
     && Kept(c, Apply(c, s, t, a), events[1..], id))
  }

  lemma {:induction false} KeptGrows(c: Content, s: State, events: seq<Event>, id: ObjId)
    requires Possible(c, s, events) && Kept(c, s, events, id) && id in s.records
    ensures id in Outcome(c, s, events).records && s.records[id].present <= Outcome(c, s, events).records[id].present
    decreases |events|
  {
    hide Apply, Enabled;
    if events != [] {
      PresentOnlyGrows(c, s, events[0].tid, events[0].action, id);
      KeptGrows(c, Apply(c, s, events[0].tid, events[0].action), events[1..], id);
    }
  }

  /**
   * A `write_slice` that has committed leaves every non-empty range it was asked for readable: after any run in which
   * nobody deletes the object or revalidates it, a read of the range goes on to its file.
   */
  lemma WrittenIsReadable(c: Content, d: Sizes, s: State, t: Tid, now: nat, i: nat, events: seq<Event>, u: Tid)
    requires Inv(c, d, s) && Enabled(c, s, t, CommitBits(now)) && !PcOf(s, t).partial && PcOf(s, t).stage.ok
    requires i < |PcOf(s, t).ranges| && PcOf(s, t).ranges[i].start < PcOf(s, t).ranges[i].end
    requires var s1 := Apply(c, s, t, CommitBits(now));
             && Possible(c, s1, events) && OneSize(d, events) && Kept(c, s1, events, PcOf(s, t).id)
             && PcOf(Outcome(c, s1, events), u).Idle?
    ensures var pc := PcOf(s, t);
            var s2 := Outcome(c, Apply(c, s, t, CommitBits(now)), events);
            && Enabled(c, s2, u, StartRead(pc.id, pc.ranges[i]))
            && PcOf(Apply(c, s2, u, StartRead(pc.id, pc.ranges[i])), u).Reading?
  {
    hide Inv, Enabled, Apply, Possible, Outcome, Kept, Earned, Touches, OneSize, Covered;
    CommitStage(c, s, t, now);
    var pc := PcOf(s, t);
    var id, r := pc.id, pc.ranges[i];
    var s1 := Apply(c, s, t, CommitBits(now));
    var s2 := Outcome(c, s1, events);
    WriterHolds(c, d, s, t);
    CommitLands(c, d, s, t, now);
    assert Declares(d, CommitBits(now));
    StepKeeps(c, d, s, t, CommitBits(now));
    RunKeeps(c, d, s1, events);
    KeptGrows(c, s1, events, id);
    forall p: nat | InRun(r, p)
      ensures p / GROUP_BYTES in s2.records[id].present
    {
      RequestedEarned(pc, i, p);
    }
    SameSize(c, d, s, s2, id);
    CoveredIs(s2.records[id], r);
    StartsReading(c, d, s2, u, id, r);
    GoneReading(s2, u, id, r);
  }

  lemma RequestedEarned(pc: Pc, i: nat, p: nat)
    requires pc.Writing? && pc.stage.Decoded? && !pc.partial && pc.stage.ok && i < |pc.ranges| && InRun(pc.ranges[i], p)
    ensures Earned(pc, p / GROUP_BYTES)
  {
    assert Touches(pc.ranges[i], p / GROUP_BYTES);
  }

  lemma SameSize(c: Content, d: Sizes, s: State, s2: State, id: ObjId)
    requires Inv(c, d, s) && Inv(c, d, s2) && id in s.records && id in s2.records
    ensures s2.records[id].size == s.records[id].size
  {
    hide PresentInv, LinkInv, LockInv, CountInv, DeleteInv, ThreadInv;
  }

  lemma GoneReading(s: State, u: Tid, id: ObjId, r: Run)
    requires id in s.links
    ensures PcOf(Goto(s, u, Reading(id, r, Seen(s.links[id]))), u).Reading?
  {
  }
}
