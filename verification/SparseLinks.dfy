/** When a record keeps its file, and exactly how it loses it. */
module SparseLinks {
  import opened Prelude
  import opened GroupRuns
  import opened Coverage
  import opened SparseStore
  import opened SparseProofs
  import opened SparseRecords
  import opened SparseReads

  ghost predicate AllLinked(s: State)
  {
    forall id :: id in s.records ==> id in s.links
  }

  /**
   * The two steps that leave `id` with a record and no file: a delete that unlinks after the record came back, and an
   * `ensure_sparse` that claims the record after its file was unlinked.
   */
  predicate Loses(s: State, t: Tid, a: Action, id: ObjId)
  {
    (a.Unlink? && a.done && PcOf(s, t).Deleting? && PcOf(s, t).id == id && id in s.records) ||
    (a.EnsureTxn? && PcOf(s, t).Ensuring? && PcOf(s, t).id == id && id !in s.records && id !in s.links)
  }

  /** What a transaction adds to and takes from the ids with a record. */
  lemma RecordKeys(c: Content, s: State, t: Tid, a: Action, id: ObjId)
    requires Enabled(c, s, t, a)
    ensures id in Apply(c, s, t, a).records && id !in s.records ==>
              a.EnsureTxn? && PcOf(s, t).id == id && Apply(c, s, t, a).links == s.links
    ensures id in s.records && id !in Apply(c, s, t, a).records ==> a.DeleteTxn? && PcOf(s, t).id == id
    ensures a.EnsureTxn? ==> PcOf(s, t).id in Apply(c, s, t, a).records && Apply(c, s, t, a).links == s.links
    ensures a.Unlink? ==> Apply(c, s, t, a).records == s.records
  {
    hide Enabled, ApplyWriter, ApplyDelete, ApplyEnsure, ApplyRead, ApplyOther;
    if !WritesTable(a) {
      OtherStepsKeepRecords(c, s, t, a);
    } else if a.CommitBits? {
      CommitKeys(c, s, t, a.now);
    } else if a.DeleteTxn? {
      DeleteKeys(c, s, t);
    } else if a.EnsureTxn? {
      EnsureKeys(c, s, t, a.now);
    } else {
      TransactionKeys(c, s, t, a);
    }
  }

  lemma CommitKeys(c: Content, s: State, t: Tid, now: nat)
    requires Enabled(c, s, t, CommitBits(now))
    ensures Apply(c, s, t, CommitBits(now)).records.Keys == s.records.Keys
  {
    GotoRecords();
    hide Marks, Commits, PcOf, RangesFit, WriteAt, Track, Bump, Drop, DecodedAll, Goto, Next, ApplyDelete, ApplyEnsure,
         ApplyRead, ApplyOther;
  }

  lemma DeleteKeys(c: Content, s: State, t: Tid)
    requires Enabled(c, s, t, DeleteTxn)
    ensures var after := Apply(c, s, t, DeleteTxn).records; after == s.records || after == s.records - {PcOf(s, t).id}
  {
    GotoRecords();
    hide PcOf, Goto, ApplyWriter, ApplyEnsure, ApplyRead, ApplyOther;
  }

  lemma EnsureKeys(c: Content, s: State, t: Tid, now: nat)
    requires Enabled(c, s, t, EnsureTxn(now))
    ensures var s' := Apply(c, s, t, EnsureTxn(now));
            s'.records.Keys == s.records.Keys + {PcOf(s, t).id} && s'.links == s.links
  {
    GotoRecords();
    GotoFiles();
    hide PcOf, Goto, ApplyWriter, ApplyDelete, ApplyRead, ApplyOther, SetLen;
    var pc := PcOf(s, t);
    var mid := if pc.id in s.records then s else s.(records := s.records[pc.id := Record(pc.size, {}, 0, now)]);
    assert Apply(c, s, t, EnsureTxn(now)) == Goto(mid, t, Idle);
  }

  lemma TransactionKeys(c: Content, s: State, t: Tid, a: Action)
    requires Enabled(c, s, t, a) && WritesTable(a) && !WriterStep(a) && !DeleteStep(a) && !EnsureStep(a)
    ensures Apply(c, s, t, a).records.Keys == s.records.Keys
  {
    GotoRecords();
    hide PcOf, Goto, ApplyWriter, ApplyDelete, ApplyEnsure, ApplyRead, Bump, Drop;
  }

  /** From a state where the object has a file if it has a record, exactly the two named steps break that. */
  lemma LosesIff(c: Content, s: State, t: Tid, a: Action, id: ObjId)
    requires Enabled(c, s, t, a) && (id in s.records ==> id in s.links)
    ensures var s' := Apply(c, s, t, a);
            id in s'.records && id !in s'.links <==> Loses(s, t, a, id)
  {
    hide Apply;
    RecordKeys(c, s, t, a, id);
    if id in s.links {
      LinkStep(c, s, t, a, id);
    }
  }

  /** Some state along the run has a record without a file. */
  ghost predicate EverLost(c: Content, s: State, events: seq<Event>)
    requires Possible(c, s, events)
    decreases |events|
  {
    !AllLinked(s) || (events != [] && EverLost(c, Apply(c, s, events[0].tid, events[0].action), events[1..]))
  }

  /** Some step of the run is one of the two for some id. */
  ghost predicate EverLoses(c: Content, s: State, events: seq<Event>)
    requires Possible(c, s, events)
    decreases |events|
  {
    events != [] &&
    ((exists id :: Loses(s, events[0].tid, events[0].action, id)) ||
     EverLoses(c, Apply(c, s, events[0].tid, events[0].action), events[1..]))
  }

  lemma StepLosesIff(c: Content, s: State, t: Tid, a: Action)
    requires Enabled(c, s, t, a) && AllLinked(s)
    ensures AllLinked(Apply(c, s, t, a)) <==> !exists id :: Loses(s, t, a, id)
  {
    hide Apply, Loses;
    var s' := Apply(c, s, t, a);
    forall id
      ensures id in s'.records && id !in s'.links <==> Loses(s, t, a, id)
    {
      LosesIff(c, s, t, a, id);
    }
  }

  /** Over any run from a store where every record has a file: a record loses it if and only if such a step happens. */
  lemma {:induction false} RunLosesIff(c: Content, s: State, events: seq<Event>)
    requires Possible(c, s, events) && AllLinked(s)
    ensures EverLost(c, s, events) <==> EverLoses(c, s, events)
    decreases |events|
  {
    hide Apply, Enabled, AllLinked, Loses;
    if events != [] {
      var next := Apply(c, s, events[0].tid, events[0].action);
      StepLosesIff(c, s, events[0].tid, events[0].action);
      if AllLinked(next) {
        RunLosesIff(c, next, events[1..]);
      }
    }
  }

  // ---- the guard a caller can keep ----

  /** No `ensure_sparse` of an id is under way while a delete of it is. */
  ghost predicate NoOverlap(s: State)
  {
    forall t: Tid, u: Tid :: PcOf(s, t).Ensuring? && PcOf(s, u).Deleting? ==> PcOf(s, t).id != PcOf(s, u).id
  }

  ghost predicate NeverOverlap(c: Content, s: State, events: seq<Event>)
    requires Possible(c, s, events)
    decreases |events|
  {
    NoOverlap(s) && (events != [] ==> NeverOverlap(c, Apply(c, s, events[0].tid, events[0].action), events[1..]))
  }

  /** An `ensure_sparse` past its open has a linked file; a delete about to unlink has no record. */
  ghost predicate CallsOk(s: State)
  {
    && (forall t: Tid :: PcOf(s, t).Ensuring? && !PcOf(s, t).at.Opening? ==> PcOf(s, t).id in s.links)
    && (forall t: Tid :: PcOf(s, t).Deleting? && PcOf(s, t).phase.Unlinking? ==> PcOf(s, t).id !in s.records)
  }

  lemma MoverOk(c: Content, s: State, t: Tid, a: Action)
    requires Enabled(c, s, t, a)
    ensures var s', pc := Apply(c, s, t, a), PcOf(Apply(c, s, t, a), t);
            && (pc.Ensuring? && !pc.at.Opening? ==>
                  pc.id in s'.links || (PcOf(s, t).Ensuring? && !PcOf(s, t).at.Opening? && PcOf(s, t).id == pc.id && s'.links == s.links))
            && (pc.Deleting? && pc.phase.Unlinking? ==>
                  pc.id !in s'.records ||
                  (PcOf(s, t).Deleting? && PcOf(s, t).phase.Unlinking? && PcOf(s, t).id == pc.id && s'.records.Keys == s.records.Keys))
  {
    hide ApplyWriter, ApplyDelete, ApplyEnsure, ApplyRead, ApplyOther;
    if WriterStep(a) {
      WriterMover(c, s, t, a);
    } else if DeleteStep(a) {
      DeleteMover(c, s, t, a);
    } else if EnsureStep(a) {
      EnsureMover(c, s, t, a);
    } else if ReadStep(a) {
      ReadMover(c, s, t, a);
    } else {
      OtherMover(c, s, t, a);
    }
  }

  lemma GotoSelf()
    ensures forall s: State, t: Tid, pc: Pc :: PcOf(Goto(s, t, pc), t) == pc
  {
  }

  lemma WriterMover(c: Content, s: State, t: Tid, a: Action)
    requires Enabled(c, s, t, a) && WriterStep(a)
    ensures var pc := PcOf(ApplyWriter(c, s, t, a), t); pc.Writing? || pc.Idle?
  {
    GotoSelf();
    hide Goto, DecodedAll, WriteAt, Track, Bump, Drop, RangesFit, Commits, Marks;
  }

  lemma DeleteMover(c: Content, s: State, t: Tid, a: Action)
    requires Enabled(c, s, t, a) && DeleteStep(a)
    ensures var s', pc := ApplyDelete(c, s, t, a), PcOf(ApplyDelete(c, s, t, a), t);
            && !pc.Ensuring? && (pc.Deleting? && pc.phase.Unlinking? ==> pc.id !in s'.records)
  {
    GotoSelf();
    GotoRecords();
    hide Goto, RangesFit, DecodedAll;
  }

  lemma EnsureMover(c: Content, s: State, t: Tid, a: Action)
    requires Enabled(c, s, t, a) && EnsureStep(a)
    ensures var s', pc := ApplyEnsure(c, s, t, a), PcOf(ApplyEnsure(c, s, t, a), t);
            && (pc.Ensuring? || pc.Idle?)
            && (pc.Ensuring? && !pc.at.Opening? ==>
                  pc.id in s'.links || (PcOf(s, t).Ensuring? && !PcOf(s, t).at.Opening? && PcOf(s, t).id == pc.id && s'.links == s.links))
  {
    GotoSelf();
    GotoFiles();
    hide Goto, RangesFit, DecodedAll, SetLen;
  }

  lemma ReadMover(c: Content, s: State, t: Tid, a: Action)
    requires Enabled(c, s, t, a) && ReadStep(a)
    ensures var pc := PcOf(ApplyRead(c, s, t, a), t); pc.Reading? || pc.Idle?
  {
    GotoSelf();
    hide Goto, RangesFit, DecodedAll, Covered;
  }

  lemma OtherMover(c: Content, s: State, t: Tid, a: Action)
    requires Enabled(c, s, t, a) && !WriterStep(a) && !DeleteStep(a) && !EnsureStep(a) && !ReadStep(a)
    ensures var s', pc := ApplyOther(c, s, t, a), PcOf(ApplyOther(c, s, t, a), t);
            pc.Pinning? || pc.Idle? || (pc == PcOf(s, t) && s'.links == s.links && s'.records.Keys == s.records.Keys)
  {
    GotoSelf();
    GotoFiles();
    GotoRecords();
    hide Goto, RangesFit, DecodedAll, Bump, Drop;
  }

  lemma CallsOkStep(c: Content, s: State, t: Tid, a: Action)
    requires Enabled(c, s, t, a) && AllLinked(s) && CallsOk(s) && NoOverlap(s)
    ensures AllLinked(Apply(c, s, t, a)) && CallsOk(Apply(c, s, t, a))
  {
    hide Apply, PcOf, RangesFit, DecodedAll;
    var s' := Apply(c, s, t, a);
    forall id
      ensures !Loses(s, t, a, id)
    {
    }
    StepLosesIff(c, s, t, a);
    MoverOk(c, s, t, a);
    hide Enabled;
    forall u: Tid | PcOf(s', u).Ensuring? && !PcOf(s', u).at.Opening?
      ensures PcOf(s', u).id in s'.links
    {
      if u != t {
        OthersStand(c, s, t, a, u);
        LinkStep(c, s, t, a, PcOf(s, u).id);
      }
    }
    forall u: Tid | PcOf(s', u).Deleting? && PcOf(s', u).phase.Unlinking?
      ensures PcOf(s', u).id !in s'.records
    {
      if u != t {
        OthersStand(c, s, t, a, u);
        RecordKeys(c, s, t, a, PcOf(s, u).id);
        EnsuresClaim(c, s, t, a);
      }
    }
  }

  lemma EnsuresClaim(c: Content, s: State, t: Tid, a: Action)
    requires Enabled(c, s, t, a)
    ensures a.EnsureTxn? ==> PcOf(s, t).Ensuring?
  {
  }

  lemma {:induction false} ApartKeepsFiles(c: Content, s: State, events: seq<Event>)
    requires Possible(c, s, events) && AllLinked(s) && CallsOk(s) && NeverOverlap(c, s, events)
    ensures AllLinked(Outcome(c, s, events))
    decreases |events|
  {
    hide Apply, Enabled, AllLinked, CallsOk, NoOverlap;
    if events != [] {
      CallsOkStep(c, s, events[0].tid, events[0].action);
      ApartKeepsFiles(c, Apply(c, s, events[0].tid, events[0].action), events[1..]);
    }
  }

  /**
   * After any run from an opened store whose records have their files: if no `ensure_sparse` of an id ever overlaps a
   * delete of it, every record still has its file.
   */
  lemma RecordsKeepFiles(c: Content, d: Sizes, s: State, events: seq<Event>)
    requires JustOpened(c, d, s) && AllLinked(s) && Possible(c, s, events) && NeverOverlap(c, s, events)
    ensures AllLinked(Outcome(c, s, events))
  {
    hide Possible, Outcome, NeverOverlap, AllLinked;
    assert forall t: Tid :: PcOf(s, t).Idle?;
    ApartKeepsFiles(c, s, events);
  }
}
