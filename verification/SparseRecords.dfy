/** What the steps of the sparse store do to records: what survives, what lands, what is never written back. */
module SparseRecords {
  import opened Prelude
  import opened GroupRuns
  import opened GroupBitsModel
  import opened Coverage
  import opened SparseStore
  import opened SparseProofs

  /** The actions that are a transaction on the objects table. */
  predicate WritesTable(a: Action)
  {
    a.CommitBits? || a.DeleteTxn? || a.EnsureTxn? || a.PinTxn? || a.RefDelta? || a.Touch? || a.Shrink?
  }

  lemma OtherStepsKeepRecords(c: Content, s: State, t: Tid, a: Action)
    requires Enabled(c, s, t, a) && !WritesTable(a)
    ensures Apply(c, s, t, a).records == s.records
  {
    hide Enabled, ApplyWriter, ApplyDelete, ApplyEnsure, ApplyRead, ApplyOther;
    if WriterStep(a) {
      WriterRecords(c, s, t, a);
    } else if DeleteStep(a) {
      DeleteRecords(c, s, t, a);
    } else if EnsureStep(a) {
      EnsureRecords(c, s, t, a);
    } else if ReadStep(a) {
      ReadRecords(c, s, t, a);
    } else {
      OtherRecords(c, s, t, a);
    }
  }

  lemma GotoRecords()
    ensures forall s: State, t: Tid, pc: Pc :: Goto(s, t, pc).records == s.records
  {
  }

  lemma WriterRecords(c: Content, s: State, t: Tid, a: Action)
    requires Enabled(c, s, t, a) && WriterStep(a) && !WritesTable(a)
    ensures ApplyWriter(c, s, t, a).records == s.records
  {
    GotoRecords();
    hide Enabled, DecodedAll, WriteAt, Track, Bump, Drop, RangesFit, Commits, Marks, PcOf, Goto, Next;
    match a
    case StartWrite(_, _, _) =>
    case ReadRecord =>
    case OpenFiles =>
    case WriteLeaf(_, _) =>
    case EndDecode(_) =>
    case Release =>
  }

  lemma DeleteRecords(c: Content, s: State, t: Tid, a: Action)
    requires Enabled(c, s, t, a) && DeleteStep(a) && !WritesTable(a)
    ensures ApplyDelete(c, s, t, a).records == s.records
  {
    GotoRecords();
    hide PcOf, Goto, RangesFit, DecodedAll;
  }

  lemma EnsureRecords(c: Content, s: State, t: Tid, a: Action)
    requires Enabled(c, s, t, a) && EnsureStep(a) && !WritesTable(a)
    ensures ApplyEnsure(c, s, t, a).records == s.records
  {
    GotoRecords();
    hide SetLen, PcOf, Goto, RangesFit, DecodedAll;
  }

  lemma ReadRecords(c: Content, s: State, t: Tid, a: Action)
    requires Enabled(c, s, t, a) && ReadStep(a)
    ensures ApplyRead(c, s, t, a).records == s.records
  {
    GotoRecords();
    hide Covered, PcOf, Goto, RangesFit, DecodedAll;
    match a
    case StartRead(_, _) =>
    case OpenForRead =>
    case ReadBytes =>
    case EndRead =>
  }

  lemma OtherRecords(c: Content, s: State, t: Tid, a: Action)
    requires Enabled(c, s, t, a) && !WriterStep(a) && !DeleteStep(a) && !EnsureStep(a) && !ReadStep(a) && !WritesTable(a)
    ensures ApplyOther(c, s, t, a).records == s.records
  {
    hide Enabled, Bump, Drop;
  }

  lemma EnsureTxnRecords(c: Content, s: State, t: Tid, now: nat, id: ObjId)
    requires Enabled(c, s, t, EnsureTxn(now)) && id in s.records
    ensures id in Apply(c, s, t, EnsureTxn(now)).records && Apply(c, s, t, EnsureTxn(now)).records[id] == s.records[id]
  {
    hide ApplyWriter, ApplyDelete, ApplyRead, ApplyOther;
  }

  /** What a transaction leaves of a record. */
  lemma TransactionKeeps(c: Content, s: State, t: Tid, a: Action, id: ObjId)
    requires Enabled(c, s, t, a) && WritesTable(a) && !WriterStep(a) && !DeleteStep(a) && !EnsureStep(a) && id in s.records
    ensures var after := ApplyOther(c, s, t, a).records;
            && id in after && (!(a.Shrink? && a.id == id) ==> s.records[id].present <= after[id].present)
            && (s.records[id].refcount > 0 && !(a.RefDelta? && a.id == id) ==> after[id].refcount == s.records[id].refcount)
  {
    hide Enabled, Bump, Drop;
  }

  lemma CommitKeeps(c: Content, s: State, t: Tid, now: nat, id: ObjId)
    requires Enabled(c, s, t, CommitBits(now)) && id in s.records
    ensures var after := Apply(c, s, t, CommitBits(now)).records;
            id in after && s.records[id].present <= after[id].present && after[id].refcount == s.records[id].refcount
  {
    GotoRecords();
    hide Enabled, Marks, Commits, PcOf, RangesFit, WriteAt, Track, Bump, Drop, DecodedAll, Goto, Next, ApplyDelete,
         ApplyEnsure, ApplyRead, ApplyOther;
  }

  lemma DeleteKeepsOthers(c: Content, s: State, t: Tid, id: ObjId)
    requires Enabled(c, s, t, DeleteTxn) && id in s.records
    requires PcOf(s, t).id != id || (PcOf(s, t).evicting && s.records[id].refcount > 0)
    ensures id in Apply(c, s, t, DeleteTxn).records && Apply(c, s, t, DeleteTxn).records[id] == s.records[id]
  {
    hide ApplyWriter, ApplyEnsure, ApplyRead, ApplyOther;
  }

  /** Only a `remove` of that very object takes a pinned record away; eviction and every other step leave it. */
  lemma PinnedSurvives(c: Content, s: State, t: Tid, a: Action, id: ObjId)
    requires Enabled(c, s, t, a)
    requires id in s.records && s.records[id].refcount > 0
    requires !(a.DeleteTxn? && PcOf(s, t).id == id && !PcOf(s, t).evicting)
    requires !(a.RefDelta? && a.id == id)
    ensures id in Apply(c, s, t, a).records && Apply(c, s, t, a).records[id].refcount == s.records[id].refcount
  {
    hide ApplyWriter, ApplyDelete, ApplyEnsure, ApplyRead, ApplyOther;
    if !WritesTable(a) {
      OtherStepsKeepRecords(c, s, t, a);
    } else if a.CommitBits? {
      CommitKeeps(c, s, t, a.now, id);
    } else if a.DeleteTxn? {
      DeleteKeepsOthers(c, s, t, id);
    } else if a.EnsureTxn? {
      EnsureTxnRecords(c, s, t, a.now, id);
    } else {
      TransactionKeeps(c, s, t, a, id);
    }
  }

  lemma DeleteSpares(c: Content, d: Sizes, s: State, t: Tid, id: ObjId)
    requires Inv(c, d, s) && Enabled(c, s, t, DeleteTxn) && id in s.records
    requires id in s.writers || (id in s.holds && PcOf(s, t).evicting)
    ensures id in Apply(c, s, t, DeleteTxn).records
  {
    hide PresentInv, LinkInv, LockInv, CountInv, SizeInv, ThreadInv, ApplyWriter, ApplyEnsure, ApplyRead, ApplyOther;
  }

  /** No step deletes the record of an object with a decode in flight, and eviction never takes a held one. */
  lemma BusyOrHeldSurvives(c: Content, d: Sizes, s: State, t: Tid, a: Action, id: ObjId)
    requires Inv(c, d, s) && Enabled(c, s, t, a) && id in s.records
    requires id in s.writers || (id in s.holds && !(a.DeleteTxn? && !PcOf(s, t).evicting))
    ensures id in Apply(c, s, t, a).records
  {
    hide Inv, Enabled, ApplyWriter, ApplyDelete, ApplyEnsure, ApplyRead, ApplyOther;
    if !WritesTable(a) {
      OtherStepsKeepRecords(c, s, t, a);
    } else if a.CommitBits? {
      CommitKeeps(c, s, t, a.now, id);
    } else if a.DeleteTxn? {
      DeleteSpares(c, d, s, t, id);
    } else if a.EnsureTxn? {
      EnsureTxnRecords(c, s, t, a.now, id);
    } else {
      TransactionKeeps(c, s, t, a, id);
    }
  }

  /** No stale snapshot is written back: a group once present stays so until a delete or a failed revalidation. */
  lemma PresentOnlyGrows(c: Content, s: State, t: Tid, a: Action, id: ObjId)
    requires Enabled(c, s, t, a) && id in s.records
    requires !(a.DeleteTxn? && PcOf(s, t).id == id) && !(a.Shrink? && a.id == id)
    ensures id in Apply(c, s, t, a).records && s.records[id].present <= Apply(c, s, t, a).records[id].present
  {
    hide Enabled, ApplyWriter, ApplyDelete, ApplyEnsure, ApplyRead, ApplyOther;
    if !WritesTable(a) {
      OtherStepsKeepRecords(c, s, t, a);
    } else if a.CommitBits? {
      CommitKeeps(c, s, t, a.now, id);
    } else if a.DeleteTxn? {
      DeleteKeepsOthers(c, s, t, id);
    } else if a.EnsureTxn? {
      EnsureTxnRecords(c, s, t, a.now, id);
    } else {
      TransactionKeeps(c, s, t, a, id);
    }
  }
}
