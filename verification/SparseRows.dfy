/** What becomes of a record and of a hold over a run: what was done to that object, and nothing else. */
module SparseRows {
  import opened Prelude
  import opened GroupRuns
  import opened Coverage
  import opened SparseStore
  import opened SparseProofs
  import opened SparseRecords
  import opened SparseWrites

  /** A record but for its present set. */
  datatype Row = Row(size: nat, refcount: nat, lastAccess: nat)

  function RowOf(s: State, id: ObjId): Option<Row>
  {
    if id in s.records then Some(Row(s.records[id].size, s.records[id].refcount, s.records[id].lastAccess)) else None
  }

  /** What a step does to one object's record on purpose. */
  datatype Effect = Nothing | Claimed(size: nat, now: nat) | Gone | Changed(delta: int) | Pinned | Stamped(now: nat)

  ghost function EffectOn(s: State, t: Tid, a: Action, id: ObjId): Effect
  {
    var pc := PcOf(s, t);
    match a
    case CommitBits(now) => if pc.Writing? && pc.stage.Decoded? && pc.id == id && Stamps(pc) then Stamped(now) else Nothing
    case DeleteTxn =>
      if pc.Deleting? && pc.id == id && (pc.evicting ==> id in s.records && s.records[id].refcount == 0) then Gone else Nothing
    case EnsureTxn(now) => if pc.Ensuring? && pc.id == id && id !in s.records then Claimed(pc.size, now) else Nothing
    case PinTxn => if pc.Pinning? && pc.id == id then Pinned else Nothing
    case RefDelta(i, delta) => if i == id then Changed(delta) else Nothing
    case Touch(i, now) => if i == id then Stamped(now) else Nothing
    case _ => Nothing
  }

  function After(row: Option<Row>, e: Effect): Option<Row>
  {
    match e
    case Nothing => row
    case Claimed(size, now) => Some(Row(size, 0, now))
    case Gone => None
    case Changed(delta) => if row.Some? then Some(row.value.(refcount := Max(row.value.refcount + delta, 0))) else None
    case Pinned => if row.Some? then Some(row.value.(refcount := Max(row.value.refcount, 1))) else None
    case Stamped(now) => if row.Some? then Some(row.value.(lastAccess := Max(row.value.lastAccess, now))) else None
  }

  lemma CommitRow(c: Content, d: Sizes, s: State, t: Tid, now: nat, id: ObjId)
    requires Inv(c, d, s) && Enabled(c, s, t, CommitBits(now))
    ensures RowOf(Apply(c, s, t, CommitBits(now)), id) == After(RowOf(s, id), EffectOn(s, t, CommitBits(now), id))
  {
    hide Inv, Enabled, Apply, Stamps, Earned;
    CommitStage(c, s, t, now);
    CommitLands(c, d, s, t, now);
  }

  lemma DeleteRow(c: Content, s: State, t: Tid, id: ObjId)
    requires Enabled(c, s, t, DeleteTxn)
    ensures RowOf(Apply(c, s, t, DeleteTxn), id) == After(RowOf(s, id), EffectOn(s, t, DeleteTxn, id))
  {
    GotoRecords();
    hide Goto, ApplyWriter, ApplyEnsure, ApplyRead, ApplyOther;
  }

  lemma ClaimRow(c: Content, s: State, t: Tid, now: nat, id: ObjId)
    requires Enabled(c, s, t, EnsureTxn(now))
    ensures RowOf(Apply(c, s, t, EnsureTxn(now)), id) == After(RowOf(s, id), EffectOn(s, t, EnsureTxn(now), id))
  {
    GotoRecords();
    hide Goto, ApplyWriter, ApplyDelete, ApplyRead, ApplyOther, SetLen;
  }

  lemma OtherRow(c: Content, s: State, t: Tid, a: Action, id: ObjId)
    requires Enabled(c, s, t, a) && WritesTable(a) && !WriterStep(a) && !DeleteStep(a) && !EnsureStep(a)
    ensures RowOf(Apply(c, s, t, a), id) == After(RowOf(s, id), EffectOn(s, t, a, id))
  {
    GotoRecords();
    hide Goto, ApplyWriter, ApplyDelete, ApplyEnsure, ApplyRead, Bump, Drop;
  }

  lemma StepRow(c: Content, d: Sizes, s: State, t: Tid, a: Action, id: ObjId)
    requires Inv(c, d, s) && Enabled(c, s, t, a)
    ensures RowOf(Apply(c, s, t, a), id) == After(RowOf(s, id), EffectOn(s, t, a, id))
  {
    hide Inv, Enabled, Apply, Stamps;
    if !WritesTable(a) {
      OtherStepsKeepRecords(c, s, t, a);
    } else if a.CommitBits? {
      CommitRow(c, d, s, t, a.now, id);
    } else if a.DeleteTxn? {
      DeleteRow(c, s, t, id);
    } else if a.EnsureTxn? {
      ClaimRow(c, s, t, a.now, id);
    } else {
      OtherRow(c, s, t, a, id);
    }
  }

  /** What a run does to one object's record on purpose, in order. */
  ghost function EffectsOn(c: Content, s: State, events: seq<Event>, id: ObjId): seq<Effect>
    requires Possible(c, s, events)
    decreases |events|
  {
    if events == [] then []
    else
      var e := EffectOn(s, events[0].tid, events[0].action, id);
      (if e.Nothing? then [] else [e]) + EffectsOn(c, Apply(c, s, events[0].tid, events[0].action), events[1..], id)
  }

  function Fold(row: Option<Row>, effects: seq<Effect>): Option<Row>
    decreases |effects|
  {
    if effects == [] then row else Fold(After(row, effects[0]), effects[1..])
  }

  /**
   * Over any run whose `ensure_sparse` calls agree on sizes: an object's size, reference count and access time are what
   * its own claims, deletes, pins, reference changes, touches and finished writes make of them, in their order.
   */
  lemma {:induction false} RowsAreOwn(c: Content, d: Sizes, s: State, events: seq<Event>, id: ObjId)
    requires Inv(c, d, s) && Possible(c, s, events) && OneSize(d, events)
    ensures RowOf(Outcome(c, s, events), id) == Fold(RowOf(s, id), EffectsOn(c, s, events, id))
    decreases |events|
  {
    hide Inv, Enabled, Apply, RowOf, After, EffectOn, Declares;
    if events != [] {
      var t, a := events[0].tid, events[0].action;
      var next := Apply(c, s, t, a);
      var e := EffectOn(s, t, a, id);
      StepRow(c, d, s, t, a, id);
      StepKeeps(c, d, s, t, a);
      RowsAreOwn(c, d, next, events[1..], id);
      var rest := EffectsOn(c, next, events[1..], id);
      NothingDone(RowOf(s, id));
      if e.Nothing? {
        assert [] + rest == rest;
      } else {
        assert ([e] + rest)[0] == e && ([e] + rest)[1..] == rest;
      }
    }
  }

  lemma NothingDone(row: Option<Row>)
    ensures After(row, Nothing) == row
  {
  }

  // ---- holds ----

  /** How often an object is held against eviction. */
  function HeldTimes(s: State, id: ObjId): nat { if id in s.holds then s.holds[id] else 0 }

  function HoldsAfter(n: nat, a: Action, id: ObjId): nat
  {
    if a == Hold(id) then n + 1 else if a == Unhold(id) then Max(n - 1, 0) else n
  }

  function FoldHolds(n: nat, events: seq<Event>, id: ObjId): nat
    decreases |events|
  {
    if events == [] then n else FoldHolds(HoldsAfter(n, events[0].action, id), events[1..], id)
  }

  /** No entry counts zero holds. */
  predicate HoldsPositive(s: State) { forall id :: id in s.holds ==> s.holds[id] > 0 }

  lemma GotoHolds()
    ensures forall s: State, t: Tid, pc: Pc :: Goto(s, t, pc).holds == s.holds
  {
  }

  lemma StepHolds(c: Content, s: State, t: Tid, a: Action, id: ObjId)
    requires Enabled(c, s, t, a) && HoldsPositive(s)
    ensures HoldsPositive(Apply(c, s, t, a)) && HeldTimes(Apply(c, s, t, a), id) == HoldsAfter(HeldTimes(s, id), a, id)
  {
    if a.Hold? || a.Unhold? {
      hide ApplyWriter, ApplyDelete, ApplyEnsure, ApplyRead;
    } else {
      SameHolds(c, s, t, a);
    }
  }

  lemma SameHolds(c: Content, s: State, t: Tid, a: Action)
    requires Enabled(c, s, t, a) && !a.Hold? && !a.Unhold?
    ensures Apply(c, s, t, a).holds == s.holds
  {
    if EnsureStep(a) {
      HoldsThroughEnsure(c, s, t, a);
    } else if DeleteStep(a) {
      HoldsThroughDelete(c, s, t, a);
    } else {
      HoldsThroughWrites(c, s, t, a);
    }
  }

  lemma HoldsThroughEnsure(c: Content, s: State, t: Tid, a: Action)
    requires Enabled(c, s, t, a) && EnsureStep(a)
    ensures Apply(c, s, t, a).holds == s.holds
  {
    GotoHolds();
    hide Goto, PcOf, Next, SetLen, ApplyWriter, ApplyDelete, ApplyRead, ApplyOther;
  }

  lemma HoldsThroughDelete(c: Content, s: State, t: Tid, a: Action)
    requires Enabled(c, s, t, a) && DeleteStep(a)
    ensures Apply(c, s, t, a).holds == s.holds
  {
    GotoHolds();
    hide Goto, PcOf, Next, ApplyWriter, ApplyEnsure, ApplyRead, ApplyOther;
  }

  lemma HoldsThroughWrites(c: Content, s: State, t: Tid, a: Action)
    requires Enabled(c, s, t, a) && !EnsureStep(a) && !DeleteStep(a) && !a.Hold? && !a.Unhold?
    ensures Apply(c, s, t, a).holds == s.holds
  {
    GotoHolds();
    hide Goto, PcOf, Next, Bump, Drop, WriteAt, Track, Marks, Commits, Covered, RangesFit, DecodedAll, ApplyEnsure, ApplyDelete;
  }

  /** An object is held as often as it was held and not let go: an entry of the table is a hold still open. */
  lemma {:induction false} HoldsAreOwn(c: Content, s: State, events: seq<Event>, id: ObjId)
    requires Possible(c, s, events) && HoldsPositive(s)
    ensures HeldTimes(Outcome(c, s, events), id) == FoldHolds(HeldTimes(s, id), events, id)
    ensures id in Outcome(c, s, events).holds <==> HeldTimes(Outcome(c, s, events), id) > 0
    decreases |events|
  {
    hide Apply, Enabled;
    if events != [] {
      StepHolds(c, s, events[0].tid, events[0].action, id);
      HoldsAreOwn(c, Apply(c, s, events[0].tid, events[0].action), events[1..], id);
    }
  }
}
