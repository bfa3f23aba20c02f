/**
 * When slabs are sealed: an append seals its slab exactly when it fills it, and nothing else seals one but an opening
 * that finds bytes of it missing.
 */
module SlabSeals {
  import opened Prelude
  import opened SlabStore
  import opened SlabProofs

  /** The opening at the end of which a damaged slab is sealed. */
  predicate FoundDamaged(s: State, a: Action, n: nat)
  {
    a.FinishOpen? && s.mode.Reconciling? && s.mode.damaged && s.mode.slab == n
  }

  /** A row of the slab table after a step: a fresh one, or with its length and seal as before, or appended to. */
  ghost predicate SealedRight(cfg: Config, s: State, s': State, n: nat)
    requires n in s'.slabs
  {
    || s'.slabs[n] == SlabMeta(0, 0, false)
    || (n in s.slabs && s'.slabs[n].len == s.slabs[n].len && s'.slabs[n].sealed == s.slabs[n].sealed)
    || (n in s.slabs && !s.slabs[n].sealed && (s'.slabs[n].sealed <==> s'.slabs[n].len >= cfg.sealBytes))
  }

  lemma CommitSeals(s: State, cfg: Config, n: nat, dead: nat)
    requires s.mode.Up? && OpenIsTop(s, s.mode.slab) && s.slabs[s.mode.slab].len == s.mode.off
    ensures forall k :: k in CommitAppend(s, cfg, n, dead).slabs ==> SealedRight(cfg, s, CommitAppend(s, cfg, n, dead), k)
  {
    hide OpenIsTop;
    assert !s.slabs[s.mode.slab].sealed by { OpenUnsealed(s); }
  }

  lemma OpenUnsealed(s: State)
    requires s.mode.Up? && OpenIsTop(s, s.mode.slab)
    ensures s.mode.slab in s.slabs && !s.slabs[s.mode.slab].sealed
  {
  }

  lemma OpenRow(c: Content, s: State)
    requires Inv(c, s) && s.mode.Up?
    ensures OpenIsTop(s, s.mode.slab) && s.slabs[s.mode.slab].len == s.mode.off
  {
    hide InsideInv, DisjointInv, ContentInv, LockInv, ThreadInv, OpenIsTop;
  }

  lemma GotoSlabs()
    ensures forall s: State, t: Tid, pc: Pc :: Goto(s, t, pc).slabs == s.slabs
  {
  }

  lemma RowSeals(c: Content, cfg: Config, s: State, t: Tid, a: Action)
    requires Inv(c, s) && Enabled(c, cfg, s, t, a) && RowStep(a)
    ensures forall n :: n in ApplyRow(c, cfg, s, t, a).slabs ==> SealedRight(cfg, s, ApplyRow(c, cfg, s, t, a), n)
  {
    GotoSlabs();
    hide Inv, CommitAppend, BookDead, FileOf, Goto;
    OpenRow(c, s);
    hide OpenIsTop;
    if a.InsertTxn? {
      var pc := PcOf(s, t);
      CommitSeals(s.(objects := s.objects[pc.id := ObjRecord(|c(pc.id)|, InSlab(s.mode.slab, s.mode.off), 0, pc.now)]), cfg, |c(pc.id)|, 0);
    } else if a.RemoveTxn? {
      BookedRows(s.slabs, PcOf(s, t).seen.loc, PcOf(s, t).seen.size);
    }
  }

  lemma RecordSeals(c: Content, cfg: Config, s: State, t: Tid, a: Action)
    requires Enabled(c, cfg, s, t, a) && RecordStep(a)
    ensures forall n :: n in ApplyRecord(c, cfg, s, t, a).slabs ==> SealedRight(cfg, s, ApplyRecord(c, cfg, s, t, a), n)
  {
    hide BookDead;
    if a.Evict? {
      BookedRows(s.slabs, s.objects[a.id].loc, s.objects[a.id].size);
    }
  }

  lemma CompactSeals(c: Content, cfg: Config, s: State, t: Tid, a: Action)
    requires Inv(c, s) && Enabled(c, cfg, s, t, a) && IsCompactionStep(a)
    ensures forall n :: n in ApplyCompact(c, cfg, s, t, a).slabs ==> SealedRight(cfg, s, ApplyCompact(c, cfg, s, t, a), n)
  {
    GotoSlabs();
    OpenRow(c, s);
    hide Inv, CommitAppend, FileOf, Goto, IsSnapshot, WorthCompacting, Readable, ReadSlab, OpenIsTop;
    if a.MoveTxn? {
      var e, n := PcOf(s, t).rest[0], |PcOf(s, t).bytes|;
      if e.id in s.objects && s.objects[e.id].loc == InSlab(PcOf(s, t).victim, e.off) {
        CommitSeals(s.(objects := s.objects[e.id := s.objects[e.id].(loc := InSlab(s.mode.slab, s.mode.off))]), cfg, n, 0);
      } else {
        CommitSeals(s, cfg, n, n);
      }
    }
  }

  lemma OpenSeals(c: Content, cfg: Config, s: State, t: Tid, a: Action)
    requires Enabled(c, cfg, s, t, a) && !RowStep(a) && !RecordStep(a) && !IsCompactionStep(a)
    ensures forall n :: n in ApplyOpen(c, cfg, s, t, a).slabs && !FoundDamaged(s, a, n) ==> SealedRight(cfg, s, ApplyOpen(c, cfg, s, t, a), n)
  {
    hide FileOf, HasOpenSlab, LostBytes;
  }

  /** What any step does to the seals. */
  lemma StepSeals(c: Content, cfg: Config, s: State, t: Tid, a: Action)
    requires Inv(c, s) && Enabled(c, cfg, s, t, a)
    ensures forall n :: n in Apply(c, cfg, s, t, a).slabs && !FoundDamaged(s, a, n) ==> SealedRight(cfg, s, Apply(c, cfg, s, t, a), n)
  {
    hide Inv, Enabled, ApplyRow, ApplyRecord, ApplyCompact, ApplyOpen, SealedRight;
    if RowStep(a) {
      RowSeals(c, cfg, s, t, a);
    } else if RecordStep(a) {
      RecordSeals(c, cfg, s, t, a);
    } else if IsCompactionStep(a) {
      CompactSeals(c, cfg, s, t, a);
    } else {
      OpenSeals(c, cfg, s, t, a);
    }
  }

  /** Some opening in the run finds slab `n` short of bytes. */
  ghost predicate EverDamaged(c: Content, cfg: Config, s: State, run: seq<Event>, n: nat)
    requires Possible(c, cfg, s, run)
    decreases |run|
  {
    run != [] &&
    (FoundDamaged(s, run[0].action, n) || EverDamaged(c, cfg, Apply(c, cfg, s, run[0].tid, run[0].action), run[1..], n))
  }

  /** An unsealed slab is short of the limit or empty; a sealed one has reached it. */
  ghost predicate SealedWhenFull(cfg: Config, s: State, n: nat)
  {
    n in s.slabs ==> if s.slabs[n].sealed then s.slabs[n].len >= cfg.sealBytes else s.slabs[n].len < cfg.sealBytes || s.slabs[n].len == 0
  }

  /**
   * Over any run, crashes and reopenings included: a slab that no opening found damaged is sealed when it is full and
   * not before.
   */
  lemma {:induction false} SealsAreRight(c: Content, cfg: Config, s: State, run: seq<Event>, n: nat)
    requires Inv(c, s) && Possible(c, cfg, s, run) && SealedWhenFull(cfg, s, n) && !EverDamaged(c, cfg, s, run, n)
    ensures SealedWhenFull(cfg, Outcome(c, cfg, s, run), n)
    decreases |run|
  {
    hide Inv, Enabled, Apply;
    if run != [] {
      var next := Apply(c, cfg, s, run[0].tid, run[0].action);
      StepKeeps(c, cfg, s, run[0].tid, run[0].action);
      StepSeals(c, cfg, s, run[0].tid, run[0].action);
      SealsAreRight(c, cfg, next, run[1..], n);
    }
  }

  /** In particular for every run from an empty directory. */
  lemma SealsFromEmpty(c: Content, cfg: Config, run: seq<Event>, n: nat)
    requires Possible(c, cfg, EMPTY_DIRECTORY, run) && !EverDamaged(c, cfg, EMPTY_DIRECTORY, run, n)
    ensures SealedWhenFull(cfg, Outcome(c, cfg, EMPTY_DIRECTORY, run), n)
  {
    hide Inv, Possible, Outcome, EverDamaged;
    EmptyInv(c);
    SealsAreRight(c, cfg, EMPTY_DIRECTORY, run, n);
  }
}
