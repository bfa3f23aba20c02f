/**
 * The slab half of the blob store: append-only packfiles, their index rows, compaction, crash and reopen, run by any
 * number of threads. A step is one file operation or one index transaction; a failed commit is a crash, and a crash
 * may come at any point. Appends hold the slab lock from the write to their transaction; nothing else holds it.
 */
module SlabStore {
  import opened Prelude
  import opened MapSum

  type Tid = nat

  /** `Elsewhere` is a sparse file, complete or not, or the user's own file. */
  datatype Loc = InSlab(slab: nat, off: nat) | Elsewhere(complete: bool)

  datatype ObjRecord = ObjRecord(size: nat, loc: Loc, refcount: nat, lastAccess: nat)

  datatype SlabMeta = SlabMeta(len: nat, dead: nat, sealed: bool)

  datatype Config = Config(sealBytes: nat, compactDeadNum: nat)

  /** One live object of a compaction's snapshot: where it was and how long it is. */
  datatype Entry = Entry(id: ObjId, off: nat, size: nat)

  /** Bytes a thread appended to the open slab under the slab lock, their index transaction still to come. */
  datatype Pending = Pending(tid: Tid, bytes: seq<byte>)

  /**
   * Where a thread is: in `insert_bytes` behind its look at the index, or behind its append, or about to retire an
   * incomplete row; in `remove` with the row it read, on its own or for such an insert; in a compaction of `victim`, with the entries still
   * to move, the first one read or appended; behind the transaction that dropped the victim.
   */
  datatype Pc =
    | Idle
    | Inserting(id: ObjId)
    | InsertAppended(id: ObjId, now: nat)
    | Retiring(id: ObjId)
    | Removing(id: ObjId, seen: ObjRecord, inserting: bool)
    | Rechecking(id: ObjId)
    | Moving(victim: nat, rest: seq<Entry>)
    | MoveRead(victim: nat, rest: seq<Entry>, bytes: seq<byte>)
    | MoveAppended(victim: nat, rest: seq<Entry>, bytes: seq<byte>)
    | Dropped(victim: nat)

  /** `Up` is the running store with its `open_slab` pair; `Reconciling` is `open_with` walking the slab files. */
  datatype Mode = Down | Reconciling(slab: nat, todo: set<nat>, damaged: bool) | Up(slab: nat, off: nat)

  /** `cut` names the slabs whose compaction is under way or was cut short. */
  datatype State = State(
    objects: map<ObjId, ObjRecord>,
    slabs: map<nat, SlabMeta>,
    files: map<nat, seq<byte>>,
    mode: Mode,
    pending: Option<Pending>,
    pcs: map<Tid, Pc>,
    cut: set<nat>)

  datatype Action =
    | StartInsert(id: ObjId)
    | Retire
    | Recheck
    | InsertAppend(now: nat)
    | TornAppend(junk: seq<byte>)
    | InsertTxn
    | Claim(id: ObjId, size: nat, now: nat)
    | Evict(id: ObjId)
    | StartRemove(id: ObjId)
    | RemoveTxn
    | RemoveSkip
    | RefDelta(id: ObjId, delta: int)
    | Pin(id: ObjId)
    | Touch(id: ObjId, now: nat)
    | CompactStart(victim: nat, live: seq<Entry>)
    | ReadEntry
    | MoveAppend
    | MoveTxn
    | CompactAbort
    | DropTxn
    | DropUnlink
    | Crash(files: map<nat, seq<byte>>)
    | OpenIndex
    | ReconcileOne(slab: nat)
    | FinishOpen

  function PcOf(s: State, t: Tid): Pc { if t in s.pcs then s.pcs[t] else Idle }

  function Goto(s: State, t: Tid, pc: Pc): State { s.(pcs := s.pcs[t := pc]) }

  function FileOf(s: State, slab: nat): seq<byte> { if slab in s.files then s.files[slab] else [] }

  predicate Lives(rec: ObjRecord, slab: nat) { rec.loc.InSlab? && rec.loc.slab == slab }

  predicate Complete(rec: ObjRecord) { rec.loc.InSlab? || rec.loc.complete }

  /** `max key + 1`, or zero: the number a fresh slab gets. */
  ghost predicate IsNext(keys: set<nat>, n: nat)
  {
    (forall s :: s in keys ==> s < n) && (n > 0 ==> n - 1 in keys)
  }

  ghost function NextSlab(slabs: map<nat, SlabMeta>): (n: nat)
    ensures IsNext(slabs.Keys, n)
  {
    NextExists(slabs.Keys);
    var n: nat :| IsNext(slabs.Keys, n);
    n
  }

  lemma {:induction false} NextExists(keys: set<nat>)
    ensures exists n: nat :: IsNext(keys, n)
    decreases |keys|
  {
    if keys == {} {
      assert IsNext(keys, 0);
    } else {
      var k :| k in keys;
      NextExists(keys - {k});
      var n: nat :| IsNext(keys - {k}, n);
      var m := if n > k then n else k + 1;
      forall s | s in keys
        ensures s < m
      {
        assert s == k || s in keys - {k};
      }
      assert IsNext(keys, m);
    }
  }

  /** The row update both `insert_bytes` and `compact_slab` make after an append. */
  function Grown(m: SlabMeta, newLen: nat, newlyDead: nat, cfg: Config): SlabMeta
  {
    SlabMeta(newLen, m.dead + newlyDead, m.sealed || newLen >= cfg.sealBytes)
  }

  function MetaOf(s: State, slab: nat): SlabMeta { if slab in s.slabs then s.slabs[slab] else SlabMeta(0, 0, false) }

  /** Commit an append of `n` bytes: grow the row, seal it and open the next slab when it is full. */
  function CommitAppend(s: State, cfg: Config, n: nat, newlyDead: nat): State
    requires s.mode.Up?
  {
    var slab, off := s.mode.slab, s.mode.off;
    var m := Grown(MetaOf(s, slab), off + n, newlyDead, cfg);
    if off + n >= cfg.sealBytes
    then s.(slabs := s.slabs[slab + 1 := SlabMeta(0, 0, false)][slab := m], mode := Up(slab + 1, 0), pending := None)
    else s.(slabs := s.slabs[slab := m], mode := Up(slab, off + n), pending := None)
  }

  /** Book `n` bytes of a slab dead, if the slab still has a row. */
  function BookDead(slabs: map<nat, SlabMeta>, loc: Loc, n: nat): map<nat, SlabMeta>
  {
    if loc.InSlab? && loc.slab in slabs then slabs[loc.slab := slabs[loc.slab].(dead := slabs[loc.slab].dead + n)] else slabs
  }

  /** Delete the row of an id, booking the range of the record `seen` dead. */
  function DeleteRow(s: State, id: ObjId, seen: ObjRecord): State
  {
    s.(objects := s.objects - {id}, slabs := BookDead(s.slabs, seen.loc, seen.size))
  }

  predicate Readable(s: State, slab: nat, off: nat, size: nat) { off + size <= |FileOf(s, slab)| }

  function ReadSlab(s: State, slab: nat, off: nat, size: nat): seq<byte>
    requires Readable(s, slab, off, size)
  {
    FileOf(s, slab)[off..off + size]
  }

  /** `live` lists exactly the records in the victim. */
  ghost predicate IsSnapshot(s: State, victim: nat, live: seq<Entry>)
  {
    && (forall i :: 0 <= i < |live| ==>
          live[i].id in s.objects && s.objects[live[i].id].loc == InSlab(victim, live[i].off) &&
          s.objects[live[i].id].size == live[i].size)
    && (forall id :: id in s.objects && Lives(s.objects[id], victim) ==>
          Entry(id, s.objects[id].loc.off, s.objects[id].size) in live)
  }

  /**
   * A slab that was worth compacting when some thread listed the slabs: sealed and dead enough still, or dropped by
   * another compaction since.
   */
  predicate WorthCompacting(s: State, cfg: Config, victim: nat)
    requires s.mode.Up?
  {
    && victim < s.mode.slab
    && (victim in s.slabs ==> s.slabs[victim].sealed && s.slabs[victim].len > 0 &&
                              s.slabs[victim].dead * 256 >= s.slabs[victim].len * cfg.compactDeadNum)
  }

  /** What a hard kill may do to the files: any of them can lose bytes from its end. */
  ghost predicate LostBytes(before: map<nat, seq<byte>>, after: map<nat, seq<byte>>)
  {
    after.Keys <= before.Keys && forall s :: s in after ==> after[s] <= before[s]
  }

  ghost predicate Enabled(c: Content, cfg: Config, s: State, t: Tid, a: Action)
  {
    var pc := PcOf(s, t);
    match a
    case StartInsert(_) => s.mode.Up? && pc.Idle?
    case Retire => s.mode.Up? && pc.Retiring?
    case Recheck => s.mode.Up? && pc.Rechecking?
    case InsertAppend(_) => s.mode.Up? && pc.Inserting? && s.pending.None?
    case TornAppend(_) => s.mode.Up? && (pc.Inserting? || pc.MoveRead?) && s.pending.None?
    case InsertTxn => s.mode.Up? && pc.InsertAppended?
    case Claim(_, _, _) => s.mode.Up?
    case Evict(id) => s.mode.Up? && id in s.objects && s.objects[id].refcount == 0
    case StartRemove(_) => s.mode.Up? && pc.Idle?
    case RemoveTxn => s.mode.Up? && pc.Removing?
    case RemoveSkip => s.mode.Up? && pc.Removing?
    case RefDelta(id, _) => s.mode.Up? && id in s.objects
    case Pin(id) => s.mode.Up? && id in s.objects
    case Touch(id, _) => s.mode.Up? && id in s.objects
    case CompactStart(victim, live) => s.mode.Up? && pc.Idle? && WorthCompacting(s, cfg, victim) && IsSnapshot(s, victim, live)
    case ReadEntry =>
      s.mode.Up? && pc.Moving? && pc.rest != [] && Readable(s, pc.victim, pc.rest[0].off, pc.rest[0].size)
    case MoveAppend => s.mode.Up? && pc.MoveRead? && s.pending.None?
    case MoveTxn => s.mode.Up? && pc.MoveAppended? && pc.rest != []
    case CompactAbort => s.mode.Up? && pc.Moving?
    case DropTxn => s.mode.Up? && pc.Moving? && pc.rest == []
    case DropUnlink => s.mode.Up? && pc.Dropped?
    case Crash(files) => LostBytes(s.files, files)
    case OpenIndex => s.mode.Down?
    case ReconcileOne(slab) => s.mode.Reconciling? && slab in s.mode.todo
    case FinishOpen => s.mode.Reconciling? && s.mode.todo == {}
  }

  /** The newest unsealed slab, if there is one. */
  ghost predicate HasOpenSlab(slabs: map<nat, SlabMeta>, slab: nat)
  {
    slab in slabs && !slabs[slab].sealed && forall s :: s in slabs && !slabs[s].sealed ==> s <= slab
  }

  /** The steps of inserts and removes. */
  predicate RowStep(a: Action)
  {
    a.StartInsert? || a.Retire? || a.Recheck? || a.InsertAppend? || a.TornAppend? || a.InsertTxn? ||
    a.StartRemove? || a.RemoveTxn? || a.RemoveSkip?
  }

  /** One transaction on one record. */
  predicate RecordStep(a: Action)
  {
    a.Claim? || a.Evict? || a.RefDelta? || a.Pin? || a.Touch?
  }

  predicate IsCompactionStep(a: Action)
  {
    a.CompactStart? || a.ReadEntry? || a.MoveAppend? || a.MoveTxn? || a.CompactAbort? || a.DropTxn? || a.DropUnlink?
  }

  ghost function ApplyRow(c: Content, cfg: Config, s: State, t: Tid, a: Action): State
    requires Enabled(c, cfg, s, t, a) && RowStep(a)
  {
    var pc := PcOf(s, t);
    match a
    case StartInsert(id) =>
      if id !in s.objects then Goto(s, t, Inserting(id))
      else if Complete(s.objects[id]) then s
      else Goto(s, t, Retiring(id))
    case Retire =>
      Goto(s, t, if pc.id in s.objects then Removing(pc.id, s.objects[pc.id], true) else Rechecking(pc.id))
    case Recheck => Goto(s, t, if pc.id in s.objects then Idle else Inserting(pc.id))
    case InsertAppend(now) =>
      Goto(s.(files := s.files[s.mode.slab := FileOf(s, s.mode.slab) + c(pc.id)], pending := Some(Pending(t, c(pc.id)))), t,
           InsertAppended(pc.id, now))
    case TornAppend(junk) =>
      var torn := FileOf(s, s.mode.slab) + junk;
      Goto(s.(files := s.files[s.mode.slab := if s.mode.off <= |torn| then torn[..s.mode.off] else torn]), t, Idle)
    case InsertTxn =>
      var n := |c(pc.id)|;
      Goto(CommitAppend(s.(objects := s.objects[pc.id := ObjRecord(n, InSlab(s.mode.slab, s.mode.off), 0, pc.now)]), cfg, n, 0),
           t, Idle)
    case StartRemove(id) => if id in s.objects then Goto(s, t, Removing(id, s.objects[id], false)) else s
    case RemoveTxn => Goto(DeleteRow(s, pc.id, pc.seen), t, if pc.inserting then Rechecking(pc.id) else Idle)
    case RemoveSkip => Goto(s, t, if pc.inserting then Rechecking(pc.id) else Idle)
  }

  ghost function ApplyRecord(c: Content, cfg: Config, s: State, t: Tid, a: Action): State
    requires Enabled(c, cfg, s, t, a) && RecordStep(a)
  {
    match a
    case Claim(id, size, now) =>
      if id in s.objects then s else s.(objects := s.objects[id := ObjRecord(size, Elsewhere(false), 0, now)])
    case Evict(id) => DeleteRow(s, id, s.objects[id])
    case RefDelta(id, delta) =>
      s.(objects := s.objects[id := s.objects[id].(refcount := Max(s.objects[id].refcount + delta, 0))])
    case Pin(id) =>
      s.(objects := s.objects[id := s.objects[id].(refcount := Max(s.objects[id].refcount, 1))])
    case Touch(id, now) =>
      s.(objects := s.objects[id := s.objects[id].(lastAccess := Max(s.objects[id].lastAccess, now))])
  }

  ghost function ApplyCompact(c: Content, cfg: Config, s: State, t: Tid, a: Action): State
    requires Enabled(c, cfg, s, t, a) && IsCompactionStep(a)
  {
    var pc := PcOf(s, t);
    match a
    case CompactStart(victim, live) => Goto(s.(cut := s.cut + {victim}), t, Moving(victim, live))
    case ReadEntry => Goto(s, t, MoveRead(pc.victim, pc.rest, ReadSlab(s, pc.victim, pc.rest[0].off, pc.rest[0].size)))
    case MoveAppend =>
      Goto(s.(files := s.files[s.mode.slab := FileOf(s, s.mode.slab) + pc.bytes], pending := Some(Pending(t, pc.bytes))), t,
           MoveAppended(pc.victim, pc.rest, pc.bytes))
    case MoveTxn =>
      var e, n := pc.rest[0], |pc.bytes|;
      Goto(
        if e.id in s.objects && s.objects[e.id].loc == InSlab(pc.victim, e.off)
        then CommitAppend(s.(objects := s.objects[e.id := s.objects[e.id].(loc := InSlab(s.mode.slab, s.mode.off))]), cfg, n, 0)
        else CommitAppend(s, cfg, n, n),
        t, Moving(pc.victim, pc.rest[1..]))
    case CompactAbort => Goto(s, t, Idle)
    case DropTxn => Goto(s.(slabs := s.slabs - {pc.victim}, cut := s.cut - {pc.victim}), t, Dropped(pc.victim))
    case DropUnlink => Goto(s.(files := s.files - {pc.victim}), t, Idle)
  }

  ghost function ApplyOpen(c: Content, cfg: Config, s: State, t: Tid, a: Action): State
    requires Enabled(c, cfg, s, t, a) && !RowStep(a) && !RecordStep(a) && !IsCompactionStep(a)
  {
    match a
    case Crash(files) => s.(files := files, mode := Down, pending := None, pcs := map[])
    case OpenIndex =>
      if exists slab :: HasOpenSlab(s.slabs, slab)
      then
        var slab :| HasOpenSlab(s.slabs, slab);
        s.(mode := Reconciling(slab, s.slabs.Keys, false))
      else
        var n := NextSlab(s.slabs);
        s.(slabs := s.slabs[n := SlabMeta(0, 0, false)], mode := Reconciling(n, s.slabs.Keys, false))
    case ReconcileOne(slab) =>
      var len, file := MetaOf(s, slab).len, FileOf(s, slab);
      var next := s.mode.(todo := s.mode.todo - {slab});
      if |file| > len then s.(files := s.files[slab := file[..len]], mode := next)
      else if |file| < len && slab == s.mode.slab then s.(mode := next.(damaged := true))
      else s.(mode := next)
    case FinishOpen =>
      var slab := s.mode.slab;
      if s.mode.damaged
      then
        var sealed_ := s.slabs[slab := MetaOf(s, slab).(sealed := true)];
        var n := NextSlab(sealed_);
        s.(slabs := sealed_[n := SlabMeta(0, 0, false)], mode := Up(n, 0))
      else s.(mode := Up(slab, MetaOf(s, slab).len))
  }

  ghost function Apply(c: Content, cfg: Config, s: State, t: Tid, a: Action): State
    requires Enabled(c, cfg, s, t, a)
  {
    if RowStep(a) then ApplyRow(c, cfg, s, t, a)
    else if RecordStep(a) then ApplyRecord(c, cfg, s, t, a)
    else if IsCompactionStep(a) then ApplyCompact(c, cfg, s, t, a)
    else ApplyOpen(c, cfg, s, t, a)
  }

  // ---- what every reachable state keeps ----

  /** The open slab is the only unsealed one and carries the highest number; no file lies beyond it. */
  ghost predicate OpenIsTop(s: State, slab: nat)
  {
    && slab in s.slabs && !s.slabs[slab].sealed
    && (forall n :: n in s.slabs && n != slab ==> s.slabs[n].sealed && n < slab)
    && (forall n :: n in s.files ==> n <= slab)
  }

  ghost predicate TopInv(s: State)
  {
    match s.mode
    case Up(slab, _) => OpenIsTop(s, slab)
    case Reconciling(slab, _, _) => OpenIsTop(s, slab)
    case Down => (s.slabs == map[] && s.files == map[] && s.objects == map[]) || exists slab :: OpenIsTop(s, slab)
  }

  /** Tracked and physical length of the open slab agree, up to an append in flight. */
  ghost predicate LenInv(s: State)
  {
    match s.mode
    case Up(slab, off) =>
      && slab in s.slabs && s.slabs[slab].len == off
      && |FileOf(s, slab)| == off + (if s.pending.Some? then |s.pending.value.bytes| else 0)
      && (s.pending.Some? ==> FileOf(s, slab)[off..] == s.pending.value.bytes)
    case Reconciling(slab, todo, damaged) =>
      && s.pending.None? && slab in s.slabs && todo <= s.slabs.Keys
      && (slab !in todo ==> |FileOf(s, slab)| <= s.slabs[slab].len)
      && (slab !in todo && !damaged ==> |FileOf(s, slab)| == s.slabs[slab].len)
    case Down => s.pending.None?
  }

  /** Live ranges lie inside their slab's tracked length. */
  ghost predicate InsideInv(s: State)
  {
    forall id :: id in s.objects && s.objects[id].loc.InSlab? ==>
      s.objects[id].loc.slab in s.slabs &&
      s.objects[id].loc.off + s.objects[id].size <= s.slabs[s.objects[id].loc.slab].len
  }

  ghost predicate SameSlab(a: ObjRecord, b: ObjRecord)
  {
    a.loc.InSlab? && b.loc.InSlab? && a.loc.slab == b.loc.slab
  }

  ghost predicate Apart(a: ObjRecord, b: ObjRecord)
    requires a.loc.InSlab? && b.loc.InSlab?
  {
    a.loc.off + a.size <= b.loc.off || b.loc.off + b.size <= a.loc.off
  }

  /** Live ranges of one slab do not overlap. */
  ghost predicate DisjointInv(s: State)
  {
    forall a, b :: a in s.objects && b in s.objects && a != b && SameSlab(s.objects[a], s.objects[b]) ==>
      Apart(s.objects[a], s.objects[b])
  }

  /** Wherever the bytes of `[off, off + |content|)` still exist in `file`, they are `content`. */
  ghost predicate RangeRight(file: seq<byte>, off: nat, content: seq<byte>)
  {
    forall p :: 0 <= p < |content| && off + p < |file| ==> file[off + p] == content[p]
  }

  ghost predicate ContentInv(c: Content, s: State)
  {
    forall id :: id in s.objects && s.objects[id].loc.InSlab? ==>
      s.objects[id].size == |c(id)| && RangeRight(FileOf(s, s.objects[id].loc.slab), s.objects[id].loc.off, c(id))
  }

  /** The slab lock is held by exactly the thread whose appended bytes wait for their transaction. */
  ghost predicate LockInv(c: Content, s: State)
  {
    && (s.pending.Some? ==>
          var pc := PcOf(s, s.pending.value.tid);
          (pc.InsertAppended? && s.pending.value.bytes == c(pc.id)) || (pc.MoveAppended? && s.pending.value.bytes == pc.bytes))
    && (forall t: Tid :: PcOf(s, t).InsertAppended? || PcOf(s, t).MoveAppended? ==> s.pending.Some? && s.pending.value.tid == t)
  }

  /** A compaction's victim is below the open slab and sealed, and its entries cover every record left in it. */
  ghost predicate VictimOk(c: Content, s: State, victim: nat, rest: seq<Entry>)
  {
    && s.mode.Up? && victim < s.mode.slab
    && (victim in s.slabs ==> s.slabs[victim].sealed && victim in s.cut)
    && (forall i :: 0 <= i < |rest| ==>
          rest[i].size == |c(rest[i].id)| && RangeRight(FileOf(s, victim), rest[i].off, c(rest[i].id)))
    && (forall id :: id in s.objects && Lives(s.objects[id], victim) ==>
          exists i :: 0 <= i < |rest| && rest[i].id == id && rest[i].off == s.objects[id].loc.off)
  }

  ghost predicate PcOk(c: Content, s: State, pc: Pc)
  {
    match pc
    case Idle => true
    case Removing(id, seen, _) => s.mode.Up? && (seen.loc.InSlab? ==> seen.size == |c(id)|)
    case Moving(victim, rest) => VictimOk(c, s, victim, rest)
    case MoveRead(victim, rest, bytes) => VictimOk(c, s, victim, rest) && rest != [] && bytes == c(rest[0].id)
    case MoveAppended(victim, rest, bytes) => VictimOk(c, s, victim, rest) && rest != [] && bytes == c(rest[0].id)
    case Dropped(victim) => s.mode.Up? && victim !in s.slabs && victim < s.mode.slab
    case _ => s.mode.Up?
  }

  ghost predicate ThreadInv(c: Content, s: State)
  {
    forall t: Tid :: PcOk(c, s, PcOf(s, t))
  }

  /** What holds after every run. */
  ghost predicate Inv(c: Content, s: State)
  {
    TopInv(s) && LenInv(s) && InsideInv(s) && DisjointInv(s) && ContentInv(c, s) && LockInv(c, s) && ThreadInv(c, s)
  }

  // ---- accounts ----

  ghost function LiveIn(slab: nat): (ObjId, ObjRecord) -> nat
  {
    (id: ObjId, rec: ObjRecord) => if Lives(rec, slab) then rec.size else 0
  }

  /** Bytes of the objects whose records point into `slab`. */
  ghost function LiveBytes(s: State, slab: nat): nat { Total(s.objects, LiveIn(slab)) }

  /** Tracked bytes of a slab that are neither live nor dead. */
  ghost function Slack(s: State, slab: nat): int
    requires slab in s.slabs
  {
    s.slabs[slab].len - LiveBytes(s, slab) - s.slabs[slab].dead
  }

  /** Live plus dead bytes never exceed a slab's length, and fill it where no compaction was cut short. */
  ghost predicate AccountInv(s: State)
  {
    forall slab :: slab in s.slabs ==> Slack(s, slab) >= 0 && (slab !in s.cut ==> Slack(s, slab) == 0)
  }

  /** The slab an id's row points into, if any. */
  function SlabNow(s: State, id: ObjId): (r: Option<nat>)
  {
    if id in s.objects && s.objects[id].loc.InSlab? then Some(s.objects[id].loc.slab) else None
  }

  /** The slab in which deleting the record `seen` books its bytes dead, if any. */
  function SlabBooked(s: State, seen: ObjRecord): (r: Option<nat>)
  {
    if seen.loc.InSlab? && seen.loc.slab in s.slabs then Some(seen.loc.slab) else None
  }

  /**
   * The transaction finds the row its call looked at: a remove books the slab the row points into now, and an insert
   * overwrites no row that points into a slab.
   */
  predicate FindsItsRow(s: State, t: Tid, a: Action)
  {
    var pc := PcOf(s, t);
    && (a.RemoveTxn? && pc.Removing? ==> SlabNow(s, pc.id) == SlabBooked(s, pc.seen))
    && (a.InsertTxn? && pc.InsertAppended? ==> SlabNow(s, pc.id).None?)
  }
}
