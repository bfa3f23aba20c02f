/**
 * Runs in which the books of the slabs come out wrong: a remove that races with a compaction, two removes of one
 * object, two inserts of one object.
 */
module SlabRaces {
  import opened Prelude
  import opened MapSum
  import opened SlabStore
  import opened SlabProofs
  import opened SlabAccounts
  import opened SlabReads

  ghost predicate Leads(c: Content, cfg: Config, s: State, run: seq<Event>, s': State)
  {
    Possible(c, cfg, s, run) && Outcome(c, cfg, s, run) == s'
  }

  lemma LeadsTo(c: Content, cfg: Config, s: State, run: seq<Event>, s': State)
    requires Leads(c, cfg, s, run, s')
    ensures Possible(c, cfg, s, run) && Outcome(c, cfg, s, run) == s'
  {
  }

  lemma One(c: Content, cfg: Config, s: State, t: Tid, a: Action)
    requires Enabled(c, cfg, s, t, a)
    ensures Leads(c, cfg, s, [Event(t, a)], Apply(c, cfg, s, t, a))
  {
    hide Apply, Enabled;
    var e, s' := [Event(t, a)], Apply(c, cfg, s, t, a);
    assert e[1..] == [] && Possible(c, cfg, s', []) && Outcome(c, cfg, s', []) == s';
    assert e[0].tid == t && e[0].action == a;
    assert Possible(c, cfg, s, e) && Outcome(c, cfg, s, e) == Outcome(c, cfg, s', e[1..]);
  }

  lemma {:induction false} Then(c: Content, cfg: Config, s: State, e: seq<Event>, mid: State, f: seq<Event>, s': State)
    requires Leads(c, cfg, s, e, mid) && Leads(c, cfg, mid, f, s')
    ensures Leads(c, cfg, s, e + f, s')
    decreases |e|
  {
    hide Apply, Enabled;
    if e == [] {
      assert e + f == f;
    } else {
      assert (e + f)[1..] == e[1..] + f;
      Then(c, cfg, Apply(c, cfg, s, e[0].tid, e[0].action), e[1..], mid, f, s');
    }
  }

  /** Threads other than `t` are where they were. */
  ghost predicate OthersStand(s: State, s': State, t: Tid)
  {
    forall u: Tid :: u != t ==> PcOf(s', u) == PcOf(s, u)
  }

  /** Everything but the threads is as it was. */
  ghost predicate SameStore(s: State, s': State)
  {
    s'.objects == s.objects && s'.slabs == s.slabs && s'.files == s.files && s'.mode == s.mode && s'.pending == s.pending && s'.cut == s.cut
  }

  // ---- short pieces ----

  /** The store behind its first opening, empty and idle. */
  const FRESH := State(map[], map[0 := SlabMeta(0, 0, false)], map[], Up(0, 0), None, map[], {})

  lemma FirstIndex(c: Content, cfg: Config) returns (s: State)
    ensures Leads(c, cfg, EMPTY_DIRECTORY, [Event(0, OpenIndex)], s)
    ensures s == FRESH.(mode := Reconciling(0, {}, false))
  {
    hide Leads, ApplyRow, ApplyRecord, ApplyCompact;
    s := Apply(c, cfg, EMPTY_DIRECTORY, 0, OpenIndex);
    One(c, cfg, EMPTY_DIRECTORY, 0, OpenIndex);
    var slabs := EMPTY_DIRECTORY.slabs;
    assert slabs.Keys == {};
    assert IsNext(slabs.Keys, NextSlab(slabs));
    assert s.mode == Reconciling(0, {}, false);
  }

  /** The first opening of an empty directory. */
  lemma FirstOpening(c: Content, cfg: Config) returns (e: seq<Event>)
    ensures Leads(c, cfg, EMPTY_DIRECTORY, e, FRESH)
  {
    hide Leads, ApplyRow, ApplyRecord, ApplyCompact;
    var mid := FirstIndex(c, cfg);
    One(c, cfg, mid, 0, FinishOpen);
    Then(c, cfg, EMPTY_DIRECTORY, [Event(0, OpenIndex)], mid, [Event(0, FinishOpen)], FRESH);
    e := [Event(0, OpenIndex)] + [Event(0, FinishOpen)];
  }

  lemma LooksToInsert(c: Content, cfg: Config, s: State, t: Tid, id: ObjId) returns (s': State)
    requires s.mode.Up? && PcOf(s, t).Idle? && id !in s.objects
    ensures Leads(c, cfg, s, [Event(t, StartInsert(id))], s')
    ensures SameStore(s, s') && OthersStand(s, s', t) && PcOf(s', t) == Inserting(id)
  {
    hide Leads, ApplyRecord, ApplyCompact, ApplyOpen;
    s' := Apply(c, cfg, s, t, StartInsert(id));
    One(c, cfg, s, t, StartInsert(id));
  }

  lemma LooksToRemove(c: Content, cfg: Config, s: State, t: Tid, id: ObjId) returns (s': State)
    requires s.mode.Up? && PcOf(s, t).Idle? && id in s.objects
    ensures Leads(c, cfg, s, [Event(t, StartRemove(id))], s')
    ensures SameStore(s, s') && OthersStand(s, s', t) && PcOf(s', t) == Removing(id, s.objects[id], false)
  {
    hide Leads, ApplyRecord, ApplyCompact, ApplyOpen;
    s' := Apply(c, cfg, s, t, StartRemove(id));
    One(c, cfg, s, t, StartRemove(id));
  }

  lemma Removes(c: Content, cfg: Config, s: State, t: Tid, id: ObjId, seen: ObjRecord) returns (s': State)
    requires s.mode.Up? && PcOf(s, t) == Removing(id, seen, false)
    ensures Leads(c, cfg, s, [Event(t, RemoveTxn)], s')
    ensures OthersStand(s, s', t) && PcOf(s', t).Idle? && s'.objects == s.objects - {id}
    ensures s'.slabs == BookDead(s.slabs, seen.loc, seen.size) && s'.files == s.files && s'.mode == s.mode && s'.cut == s.cut
    ensures s'.pending == s.pending
  {
    hide Leads, ApplyRecord, ApplyCompact, ApplyOpen, BookDead;
    s' := Apply(c, cfg, s, t, RemoveTxn);
    One(c, cfg, s, t, RemoveTxn);
  }

  /** The append and the transaction of an insert that has looked. */
  lemma Inserts(c: Content, cfg: Config, s: State, t: Tid, id: ObjId) returns (e: seq<Event>, s': State)
    requires s.mode.Up? && PcOf(s, t) == Inserting(id) && s.pending.None? && s.mode.slab in s.slabs
    ensures e == [Event(t, InsertAppend(0)), Event(t, InsertTxn)]
    ensures Leads(c, cfg, s, e, s') && OthersStand(s, s', t) && PcOf(s', t).Idle?
    ensures s'.objects == s.objects[id := ObjRecord(|c(id)|, InSlab(s.mode.slab, s.mode.off), 0, 0)]
    ensures s'.files == s.files[s.mode.slab := FileOf(s, s.mode.slab) + c(id)] && s'.pending.None? && s'.cut == s.cut
    ensures var slab, len := s.mode.slab, s.mode.off + |c(id)|;
            if len >= cfg.sealBytes then
              && s'.mode == Up(slab + 1, 0)
              && s'.slabs == s.slabs[slab + 1 := SlabMeta(0, 0, false)][slab := SlabMeta(len, s.slabs[slab].dead, true)]
            else
              && s'.mode == Up(slab, len)
              && s'.slabs == s.slabs[slab := SlabMeta(len, s.slabs[slab].dead, s.slabs[slab].sealed)]
  {
    hide Leads, ApplyRecord, ApplyCompact, ApplyOpen;
    var mid := Apply(c, cfg, s, t, InsertAppend(0));
    assert PcOf(mid, t) == InsertAppended(id, 0);
    s' := Apply(c, cfg, mid, t, InsertTxn);
    One(c, cfg, s, t, InsertAppend(0));
    One(c, cfg, mid, t, InsertTxn);
    Then(c, cfg, s, [Event(t, InsertAppend(0))], mid, [Event(t, InsertTxn)], s');
    e := [Event(t, InsertAppend(0)), Event(t, InsertTxn)];
    assert e == [Event(t, InsertAppend(0))] + [Event(t, InsertTxn)];
  }

  // ---- two removes ----

  lemma NothingLives(s: State, slab: nat)
    requires forall id :: id in s.objects ==> !Lives(s.objects[id], slab)
    ensures LiveBytes(s, slab) == 0
  {
    TotalZero(s.objects, LiveIn(slab));
  }

  /** Two threads read one row, and each books its bytes dead: more dead bytes than the slab has. */
  lemma RacingRemoves(c: Content, cfg: Config, id: ObjId) returns (run: seq<Event>)
    requires c(id) != []
    ensures Possible(c, cfg, EMPTY_DIRECTORY, run)
    ensures var s := Outcome(c, cfg, EMPTY_DIRECTORY, run); 0 in s.slabs && Slack(s, 0) == -|c(id)| && !AccountInv(s)
  {
    hide Leads, LiveBytes;
    var e0 := FirstOpening(c, cfg);
    var s0 := FRESH;
    var s1 := LooksToInsert(c, cfg, s0, 0, id);
    var e2, s2 := Inserts(c, cfg, s1, 0, id);
    var s3 := LooksToRemove(c, cfg, s2, 1, id);
    var s4 := LooksToRemove(c, cfg, s3, 2, id);
    var s5 := Removes(c, cfg, s4, 1, id, s2.objects[id]);
    var s6 := Removes(c, cfg, s5, 2, id, s2.objects[id]);
    Then(c, cfg, EMPTY_DIRECTORY, e0, s0, [Event(0, StartInsert(id))], s1);
    run := e0 + [Event(0, StartInsert(id))];
    Then(c, cfg, EMPTY_DIRECTORY, run, s1, e2, s2);
    run := run + e2;
    Then(c, cfg, EMPTY_DIRECTORY, run, s2, [Event(1, StartRemove(id))], s3);
    run := run + [Event(1, StartRemove(id))];
    Then(c, cfg, EMPTY_DIRECTORY, run, s3, [Event(2, StartRemove(id))], s4);
    run := run + [Event(2, StartRemove(id))];
    Then(c, cfg, EMPTY_DIRECTORY, run, s4, [Event(1, RemoveTxn)], s5);
    run := run + [Event(1, RemoveTxn)];
    Then(c, cfg, EMPTY_DIRECTORY, run, s5, [Event(2, RemoveTxn)], s6);
    run := run + [Event(2, RemoveTxn)];
    LeadsTo(c, cfg, EMPTY_DIRECTORY, run, s6);
    NothingLives(s6, 0);
  }

  // ---- two inserts ----

  lemma Pins(c: Content, cfg: Config, s: State, t: Tid, id: ObjId) returns (s': State)
    requires s.mode.Up? && id in s.objects
    ensures Leads(c, cfg, s, [Event(t, Pin(id))], s')
    ensures s' == s.(objects := s.objects[id := s.objects[id].(refcount := Max(s.objects[id].refcount, 1))])
  {
    hide Leads, ApplyRow, ApplyCompact, ApplyOpen;
    s' := Apply(c, cfg, s, t, Pin(id));
    One(c, cfg, s, t, Pin(id));
  }

  /** One thread stores and pins an object that another had found absent before. */
  lemma PinnedMeanwhile(c: Content, cfg: Config, id: ObjId) returns (run: seq<Event>, s: State)
    ensures Leads(c, cfg, EMPTY_DIRECTORY, run, s)
    ensures s.objects == map[id := ObjRecord(|c(id)|, InSlab(0, 0), 1, 0)] && PcOf(s, 1) == Inserting(id)
    ensures s.cut == {} && s.mode.Up? && s.pending.None?
    ensures if |c(id)| >= cfg.sealBytes then s.mode == Up(1, 0) && s.slabs == map[0 := SlabMeta(|c(id)|, 0, true), 1 := SlabMeta(0, 0, false)]
            else s.mode == Up(0, |c(id)|) && s.slabs == map[0 := SlabMeta(|c(id)|, 0, false)]
  {
    hide Leads;
    run := FirstOpening(c, cfg);
    var s1 := LooksToInsert(c, cfg, FRESH, 0, id);
    Then(c, cfg, EMPTY_DIRECTORY, run, FRESH, [Event(0, StartInsert(id))], s1);
    run := run + [Event(0, StartInsert(id))];
    var s2 := LooksToInsert(c, cfg, s1, 1, id);
    Then(c, cfg, EMPTY_DIRECTORY, run, s1, [Event(1, StartInsert(id))], s2);
    run := run + [Event(1, StartInsert(id))];
    var e, s3 := Inserts(c, cfg, s2, 0, id);
    Then(c, cfg, EMPTY_DIRECTORY, run, s2, e, s3);
    run := run + e;
    s := Pins(c, cfg, s3, 2, id);
    Then(c, cfg, EMPTY_DIRECTORY, run, s3, [Event(2, Pin(id))], s);
    run := run + [Event(2, Pin(id))];
    assert PcOf(s, 1) == PcOf(s3, 1);
  }

  /**
   * Two threads find an object absent and both store it: the second row replaces the first, its pin is gone, and the
   * first copy's bytes are neither live nor dead.
   */
  lemma SecondInsertUnpins(c: Content, cfg: Config, id: ObjId) returns (run: seq<Event>, more: seq<Event>)
    requires c(id) != []
    ensures Possible(c, cfg, EMPTY_DIRECTORY, run) && Possible(c, cfg, EMPTY_DIRECTORY, run + more)
    ensures RowOf(Outcome(c, cfg, EMPTY_DIRECTORY, run), id) == Some(Row(|c(id)|, 1, 0))
    ensures forall i :: 0 <= i < |more| ==> more[i].action.InsertAppend? || more[i].action.InsertTxn?
    ensures var s := Outcome(c, cfg, EMPTY_DIRECTORY, run + more);
            RowOf(s, id) == Some(Row(|c(id)|, 0, 0)) && 0 in s.slabs && Slack(s, 0) == |c(id)| && !AccountInv(s)
  {
    hide Leads, LiveBytes, Possible, Outcome;
    var mid;
    run, mid := PinnedMeanwhile(c, cfg, id);
    LeadsTo(c, cfg, EMPTY_DIRECTORY, run, mid);
    var s;
    more, s := Inserts(c, cfg, mid, 1, id);
    Then(c, cfg, EMPTY_DIRECTORY, run, mid, more, s);
    LeadsTo(c, cfg, EMPTY_DIRECTORY, run + more, s);
    OneRowLives(s, id, 0);
    assert 0 in s.slabs && s.slabs[0].len == LiveBytes(s, 0) + |c(id)| && s.slabs[0].dead == 0;
  }

  lemma OneRowLives(s: State, id: ObjId, slab: nat)
    requires s.objects.Keys == {id}
    ensures LiveBytes(s, slab) == if Lives(s.objects[id], slab) then s.objects[id].size else 0
  {
    var rest := s.(objects := s.objects - {id});
    LiveDelete(s, rest, slab, id);
    NothingLives(rest, slab);
  }

  // ---- a remove and a compaction ----

  /** A sealed slab with one live object, the other removed. */
  ghost predicate OneLeft(c: Content, s: State, a: ObjId, b: ObjId)
  {
    && s.objects == map[a := ObjRecord(|c(a)|, InSlab(0, 0), 0, 0)] && FileOf(s, 0) == c(a) + c(b)
    && s.slabs == map[0 := SlabMeta(|c(a)| + |c(b)|, |c(b)|, true), 1 := SlabMeta(0, 0, false)]
    && s.mode == Up(1, 0) && s.cut == {} && s.pending.None?
  }

  lemma StoresTwo(c: Content, cfg: Config, a: ObjId, b: ObjId) returns (run: seq<Event>, s: State)
    requires a != b && |c(a)| < cfg.sealBytes <= |c(a)| + |c(b)|
    ensures Leads(c, cfg, EMPTY_DIRECTORY, run, s)
    ensures forall t: Tid :: PcOf(s, t).Idle?
    ensures s.objects == map[a := ObjRecord(|c(a)|, InSlab(0, 0), 0, 0), b := ObjRecord(|c(b)|, InSlab(0, |c(a)|), 0, 0)]
    ensures s.slabs == map[0 := SlabMeta(|c(a)| + |c(b)|, 0, true), 1 := SlabMeta(0, 0, false)]
    ensures FileOf(s, 0) == c(a) + c(b) && s.mode == Up(1, 0) && s.cut == {} && s.pending.None?
  {
    hide Leads;
    run := FirstOpening(c, cfg);
    var s1 := LooksToInsert(c, cfg, FRESH, 0, a);
    Then(c, cfg, EMPTY_DIRECTORY, run, FRESH, [Event(0, StartInsert(a))], s1);
    run := run + [Event(0, StartInsert(a))];
    var e, s2 := Inserts(c, cfg, s1, 0, a);
    Then(c, cfg, EMPTY_DIRECTORY, run, s1, e, s2);
    run := run + e;
    var s3 := LooksToInsert(c, cfg, s2, 0, b);
    Then(c, cfg, EMPTY_DIRECTORY, run, s2, [Event(0, StartInsert(b))], s3);
    run := run + [Event(0, StartInsert(b))];
    assert FileOf(s3, 0) == c(a);
    e, s := Inserts(c, cfg, s3, 0, b);
    Then(c, cfg, EMPTY_DIRECTORY, run, s3, e, s);
    run := run + e;
  }

  lemma StoresTwoRemovesOne(c: Content, cfg: Config, a: ObjId, b: ObjId) returns (run: seq<Event>, s: State)
    requires a != b && |c(a)| < cfg.sealBytes <= |c(a)| + |c(b)|
    ensures Leads(c, cfg, EMPTY_DIRECTORY, run, s) && OneLeft(c, s, a, b) && forall t: Tid :: PcOf(s, t).Idle?
  {
    hide Leads;
    var s0;
    run, s0 := StoresTwo(c, cfg, a, b);
    var s1 := LooksToRemove(c, cfg, s0, 0, b);
    Then(c, cfg, EMPTY_DIRECTORY, run, s0, [Event(0, StartRemove(b))], s1);
    run := run + [Event(0, StartRemove(b))];
    s := Removes(c, cfg, s1, 0, b, s0.objects[b]);
    Then(c, cfg, EMPTY_DIRECTORY, run, s1, [Event(0, RemoveTxn)], s);
    run := run + [Event(0, RemoveTxn)];
    assert FileOf(s, 0) == FileOf(s0, 0);
  }

  /** Thread `t` starts compacting slab 0 and reads its one live object. */
  lemma ReadsVictim(c: Content, cfg: Config, s: State, t: Tid, a: ObjId, b: ObjId) returns (run: seq<Event>, s': State)
    requires OneLeft(c, s, a, b) && PcOf(s, t).Idle?
    requires |c(b)| * 256 >= (|c(a)| + |c(b)|) * cfg.compactDeadNum && |c(a)| > 0
    ensures Leads(c, cfg, s, run, s') && OthersStand(s, s', t) && SameStore(s.(cut := {0}), s')
    ensures PcOf(s', t) == MoveRead(0, [Entry(a, 0, |c(a)|)], c(a))
  {
    hide Leads, ApplyRow, ApplyRecord, ApplyOpen;
    var live := [Entry(a, 0, |c(a)|)];
    assert live[0] in live;
    assert IsSnapshot(s, 0, live) && WorthCompacting(s, cfg, 0);
    hide IsSnapshot, WorthCompacting;
    var mid := Apply(c, cfg, s, t, CompactStart(0, live));
    One(c, cfg, s, t, CompactStart(0, live));
    assert FileOf(mid, 0) == c(a) + c(b);
    s' := Apply(c, cfg, mid, t, ReadEntry);
    One(c, cfg, mid, t, ReadEntry);
    Then(c, cfg, s, [Event(t, CompactStart(0, live))], mid, [Event(t, ReadEntry)], s');
    run := [Event(t, CompactStart(0, live))] + [Event(t, ReadEntry)];
  }

  /** It appends the bytes to the open slab and repoints the row. */
  lemma MovesRow(c: Content, cfg: Config, s: State, t: Tid, a: ObjId) returns (run: seq<Event>, s': State)
    requires s.mode == Up(1, 0) && s.pending.None? && PcOf(s, t) == MoveRead(0, [Entry(a, 0, |c(a)|)], c(a)) && |c(a)| < cfg.sealBytes
    requires a in s.objects && s.objects[a].loc == InSlab(0, 0) && 1 in s.slabs && s.slabs[1] == SlabMeta(0, 0, false)
    ensures Leads(c, cfg, s, run, s') && OthersStand(s, s', t) && s'.cut == s.cut && s'.mode.Up?
    ensures s'.objects == s.objects[a := s.objects[a].(loc := InSlab(1, 0))]
    ensures s'.slabs == s.slabs[1 := SlabMeta(|c(a)|, 0, false)]
  {
    hide Leads, ApplyRow, ApplyRecord, ApplyOpen;
    var mid := Apply(c, cfg, s, t, MoveAppend);
    assert PcOf(mid, t) == MoveAppended(0, [Entry(a, 0, |c(a)|)], c(a));
    One(c, cfg, s, t, MoveAppend);
    s' := Apply(c, cfg, mid, t, MoveTxn);
    One(c, cfg, mid, t, MoveTxn);
    Then(c, cfg, s, [Event(t, MoveAppend)], mid, [Event(t, MoveTxn)], s');
    run := [Event(t, MoveAppend)] + [Event(t, MoveTxn)];
  }

  /**
   * A remove reads its row, a compaction moves the object, the remove deletes the row and books the bytes dead in the
   * slab it read: those in the open slab, which no compaction was ever cut short in, are neither live nor dead.
   */
  lemma RemoveLeaksMoved(c: Content, cfg: Config, a: ObjId, b: ObjId) returns (run: seq<Event>)
    requires a != b && 0 < |c(a)| < cfg.sealBytes <= |c(a)| + |c(b)|
    requires |c(b)| * 256 >= (|c(a)| + |c(b)|) * cfg.compactDeadNum
    ensures Possible(c, cfg, EMPTY_DIRECTORY, run)
    ensures var s := Outcome(c, cfg, EMPTY_DIRECTORY, run);
            s.objects == map[] && 1 in s.slabs && 1 !in s.cut && Slack(s, 1) == |c(a)| && !AccountInv(s)
  {
    hide Leads, LiveBytes, Possible, Outcome;
    var s0;
    run, s0 := StoresTwoRemovesOne(c, cfg, a, b);
    var s1 := LooksToRemove(c, cfg, s0, 1, a);
    Then(c, cfg, EMPTY_DIRECTORY, run, s0, [Event(1, StartRemove(a))], s1);
    run := run + [Event(1, StartRemove(a))];
    assert OneLeft(c, s1, a, b) by { assert FileOf(s1, 0) == FileOf(s0, 0); }
    var e2, s2 := ReadsVictim(c, cfg, s1, 0, a, b);
    Then(c, cfg, EMPTY_DIRECTORY, run, s1, e2, s2);
    run := run + e2;
    var e3, s3 := MovesRow(c, cfg, s2, 0, a);
    Then(c, cfg, EMPTY_DIRECTORY, run, s2, e3, s3);
    run := run + e3;
    assert PcOf(s3, 1) == PcOf(s1, 1);
    var s4 := Removes(c, cfg, s3, 1, a, s0.objects[a]);
    Then(c, cfg, EMPTY_DIRECTORY, run, s3, [Event(1, RemoveTxn)], s4);
    run := run + [Event(1, RemoveTxn)];
    LeadsTo(c, cfg, EMPTY_DIRECTORY, run, s4);
    NothingLives(s4, 1);
  }
}
