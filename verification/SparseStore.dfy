/**
 * The sparse half of the blob store as a protocol: any number of threads run `write_slice`,
 * `write_slice_partial`, `read_range`, `remove`, eviction, `ensure_sparse`, `pin` and `revalidate`, one step at a
 * time. A step is one index transaction, one file operation or one lock acquisition.
 */
module SparseStore {
  import opened Prelude
  import opened GroupRuns
  import opened GroupBitsModel
  import opened Coverage

  type Tid = nat
  type Inode = nat

  const MAX_OBJECT_BYTES: nat := 68719476736

  datatype Record = Record(size: nat, present: set<nat>, refcount: nat, lastAccess: nat)

  /** How far a registered sparse decode has come. */
  datatype Stage =
    | Registered
    | RecordRead(size: nat)
    | Decoding(size: nat, inode: Inode, written: seq<Run>)
    | Decoded(size: nat, inode: Inode, written: seq<Run>, ok: bool)
    | Releasing

  /** How far `ensure_sparse` has come: its file opened, found too short, long enough. */
  datatype EnsureStage = Opening | Testing(inode: Inode) | Sizing(inode: Inode) | Claiming

  /**
   * How far a `read_range` has come. `seen` is the inode the path named when the record was read: the program does
   * not know it, the theorems speak of it.
   */
  datatype ReadStage = Seen(seen: Inode) | Open(seen: Inode, inode: Inode) | Got(seen: Inode, inode: Inode, data: seq<byte>)

  /** How far a delete that holds the writers lock has come. */
  datatype Phase = Locked | Unlinking | Unlocking

  datatype Pc =
    | Idle
    | Writing(id: ObjId, ranges: seq<Run>, partial: bool, stage: Stage)
    | RemoveSeen(id: ObjId)
    | Deleting(id: ObjId, evicting: bool, phase: Phase)
    | Ensuring(id: ObjId, size: nat, at: EnsureStage)
    | Reading(id: ObjId, bytes: Run, reading: ReadStage)
    | Pinning(id: ObjId)

  /**
   * `links` is the directory: which inode the path of an id names now. `files` holds every inode, unlinked ones
   * included, because a thread may still have one open; `owners` remembers which id an inode was made for. `lock` is the
   * `sparse_writers` mutex and `holdLock` the `evict_holds` mutex, recorded while a delete keeps them across steps.
   */
  datatype State = State(
    records: map<ObjId, Record>,
    links: map<ObjId, Inode>,
    files: map<Inode, seq<byte>>,
    owners: map<Inode, ObjId>,
    writers: map<ObjId, nat>,
    holds: map<ObjId, nat>,
    lock: Option<Tid>,
    holdLock: Option<Tid>,
    pcs: map<Tid, Pc>)

  datatype Action =
    | StartWrite(id: ObjId, ranges: seq<Run>, partial: bool)
    | ReadRecord
    | OpenFiles
    | WriteLeaf(pos: nat, leaf: seq<byte>)
    | EndDecode(ok: bool)
    | CommitBits(now: nat)
    | Release
    | StartRemove(id: ObjId)
    | LockForRemove
    | LockForEvict(id: ObjId)
    | DeleteTxn
    | Unlink(done: bool)
    | Unlock
    | StartEnsure(id: ObjId, size: nat)
    | EnsureOpen(node: Inode)
    | EnsureTest
    | EnsureSetLen
    | EnsureTxn(now: nat)
    | StartRead(id: ObjId, bytes: Run)
    | OpenForRead
    | ReadBytes
    | EndRead
    | StartPin(id: ObjId)
    | PinTxn
    | RefDelta(id: ObjId, delta: int)
    | Touch(id: ObjId, now: nat)
    | Shrink(id: ObjId, failed: set<nat>)
    | Hold(id: ObjId)
    | Unhold(id: ObjId)

  function PcOf(s: State, t: Tid): Pc { if t in s.pcs then s.pcs[t] else Idle }

  predicate IsWriting(pc: Pc, id: ObjId) { pc.Writing? && pc.id == id }

  /** The counters of `sparse_writers` and `evict_holds`. */
  function Bump(m: map<ObjId, nat>, id: ObjId): map<ObjId, nat>
  {
    m[id := if id in m then m[id] + 1 else 1]
  }

  function Drop(m: map<ObjId, nat>, id: ObjId): map<ObjId, nat>
  {
    if id !in m then m else if m[id] <= 1 then m - {id} else m[id := m[id] - 1]
  }

  /** A positioned write, extending the file with zeros when it starts past the end. */
  function WriteAt(file: seq<byte>, pos: nat, data: seq<byte>): seq<byte>
  {
    var padded := if |file| < pos + |data| then file + seq(pos + |data| - |file|, _ => 0) else file;
    padded[..pos] + data + padded[pos + |data|..]
  }

  /** `set_len`: the file gets exactly this length, zeros at the end or the end cut off. */
  function SetLen(file: seq<byte>, len: nat): (r: seq<byte>)
    ensures |r| == len
  {
    if |file| < len then file + seq(len - |file|, _ => 0) else file[..len]
  }

  /** `TrackWrites::write_at`: extend the last extent or open a new one. */
  function Track(written: seq<Run>, pos: nat, end: nat): seq<Run>
  {
    if written != [] && written[|written| - 1].end == pos
    then written[..|written| - 1] + [Run(written[|written| - 1].start, end)]
    else written + [Run(pos, end)]
  }

  /** The groups a writer marks when its decode is over. */
  ghost function Marks(pc: Pc): set<nat>
    requires pc.Writing? && pc.stage.Decoded?
  {
    var n := GroupCount(pc.stage.size);
    if pc.partial then set g: nat | g < n && FullyWritten(pc.stage.written, pc.stage.size, g)
    else if pc.stage.ok then set g: nat | g < n && Requested(pc.ranges, g)
    else {}
  }

  /** Does the writer reach its index transaction? `write_slice` only after success, the partial one when something landed. */
  ghost predicate Commits(pc: Pc)
    requires pc.Writing? && pc.stage.Decoded?
  {
    if pc.partial then Marks(pc) != {} else pc.stage.ok
  }

  function RangesFit(ranges: seq<Run>, size: nat): bool
  {
    forall i :: 0 <= i < |ranges| ==> ranges[i].end <= size
  }

  /** When an action may happen; the decoder's promises are the conditions of `WriteLeaf` and `EndDecode`. */
  ghost predicate Enabled(c: Content, s: State, t: Tid, a: Action)
  {
    var pc := PcOf(s, t);
    match a
    case StartWrite(_, _, _) => pc.Idle? && s.lock.None?
    case ReadRecord => pc.Writing? && pc.stage.Registered?
    case OpenFiles => pc.Writing? && pc.stage.RecordRead?
    case WriteLeaf(pos, leaf) =>
      && pc.Writing? && pc.stage.Decoding? && leaf != []
      && pos + |leaf| <= pc.stage.size && pos + |leaf| <= |c(pc.id)|
      && leaf == c(pc.id)[pos..pos + |leaf|]
    case EndDecode(ok) =>
      && pc.Writing? && pc.stage.Decoding?
      && (ok ==> DecodedAll(pc.stage.written, pc.ranges, pc.stage.size))
    case CommitBits(_) => pc.Writing? && pc.stage.Decoded?
    case Release => pc.Writing? && pc.stage.Releasing? && s.lock.None?
    case StartRemove(_) => pc.Idle?
    case LockForRemove => pc.RemoveSeen? && s.lock.None?
    case LockForEvict(_) => pc.Idle? && s.lock.None? && s.holdLock.None?
    case DeleteTxn => pc.Deleting? && pc.phase.Locked?
    case Unlink(_) => pc.Deleting? && pc.phase.Unlinking?
    case Unlock => pc.Deleting? && pc.phase.Unlocking?
    case StartEnsure(_, _) => pc.Idle?
    case EnsureOpen(node) => pc.Ensuring? && pc.at.Opening? && node !in s.files
    case EnsureTest => pc.Ensuring? && pc.at.Testing?
    case EnsureSetLen => pc.Ensuring? && pc.at.Sizing?
    case EnsureTxn(_) => pc.Ensuring? && pc.at.Claiming?
    case StartRead(_, _) => pc.Idle?
    case OpenForRead => pc.Reading? && pc.reading.Seen?
    case ReadBytes => pc.Reading? && pc.reading.Open?
    case EndRead => pc.Reading? && pc.reading.Got?
    case StartPin(_) => pc.Idle?
    case PinTxn => pc.Pinning?
    case RefDelta(_, _) => true
    case Touch(_, _) => true
    case Shrink(_, _) => true
    case Hold(_) => s.holdLock.None?
    case Unhold(_) => s.holdLock.None?
  }

  function Goto(s: State, t: Tid, pc: Pc): State { s.(pcs := s.pcs[t := pc]) }

  function Next(pc: Pc, stage: Stage): Pc
    requires pc.Writing?
  {
    pc.(stage := stage)
  }

  /** The steps of a slice writer. */
  predicate WriterStep(a: Action)
  {
    a.StartWrite? || a.ReadRecord? || a.OpenFiles? || a.WriteLeaf? || a.EndDecode? || a.CommitBits? || a.Release?
  }

  /** The steps of a remove or an eviction. */
  predicate DeleteStep(a: Action)
  {
    a.StartRemove? || a.LockForRemove? || a.LockForEvict? || a.DeleteTxn? || a.Unlink? || a.Unlock?
  }

  ghost function ApplyWriter(c: Content, s: State, t: Tid, a: Action): State
    requires Enabled(c, s, t, a) && WriterStep(a)
  {
    var pc := PcOf(s, t);
    match a
    case StartWrite(id, ranges, partial) =>
      Goto(s.(writers := Bump(s.writers, id)), t, Writing(id, ranges, partial, Registered))
    case ReadRecord =>
      if pc.id in s.records && RangesFit(pc.ranges, s.records[pc.id].size)
      then Goto(s, t, Next(pc, RecordRead(s.records[pc.id].size)))
      else Goto(s, t, Next(pc, Releasing))
    case OpenFiles =>
      if pc.id in s.links then Goto(s, t, Next(pc, Decoding(pc.stage.size, s.links[pc.id], [])))
      else Goto(s, t, Next(pc, Releasing))
    case WriteLeaf(pos, leaf) =>
      if pc.stage.inode in s.files
      then Goto(s.(files := s.files[pc.stage.inode := WriteAt(s.files[pc.stage.inode], pos, leaf)]), t,
                Next(pc, Decoding(pc.stage.size, pc.stage.inode, Track(pc.stage.written, pos, pos + |leaf|))))
      else s
    case EndDecode(ok) =>
      Goto(s, t, Next(pc, Decoded(pc.stage.size, pc.stage.inode, pc.stage.written, ok)))
    case CommitBits(now) =>
      if Commits(pc) && pc.id in s.records
      then
        var rec := s.records[pc.id];
        Goto(s.(records := s.records[pc.id := rec.(present := rec.present + Marks(pc),
                                                   lastAccess := Max(rec.lastAccess, now))]),
             t, Next(pc, Releasing))
      else Goto(s, t, Next(pc, Releasing))
    case Release => Goto(s.(writers := Drop(s.writers, pc.id)), t, Idle)
  }

  ghost function ApplyDelete(c: Content, s: State, t: Tid, a: Action): State
    requires Enabled(c, s, t, a) && DeleteStep(a)
  {
    var pc := PcOf(s, t);
    match a
    case StartRemove(id) => if id in s.records then Goto(s, t, RemoveSeen(id)) else s
    case LockForRemove =>
      if pc.id in s.writers then Goto(s, t, Idle)
      else Goto(s.(lock := Some(t)), t, Deleting(pc.id, false, Locked))
    case LockForEvict(id) =>
      if id in s.writers || id in s.holds then s
      else Goto(s.(lock := Some(t), holdLock := Some(t)), t, Deleting(id, true, Locked))
    case DeleteTxn =>
      if pc.evicting && !(pc.id in s.records && s.records[pc.id].refcount == 0)
      then Goto(s, t, pc.(phase := Unlocking))
      else Goto(s.(records := s.records - {pc.id}), t, pc.(phase := Unlinking))
    case Unlink(done) =>
      Goto(if done then s.(links := s.links - {pc.id}) else s, t, pc.(phase := Unlocking))
    case Unlock =>
      Goto(s.(lock := None, holdLock := if pc.evicting then None else s.holdLock), t, Idle)
  }

  /** The steps of `ensure_sparse`. */
  predicate EnsureStep(a: Action)
  {
    a.StartEnsure? || a.EnsureOpen? || a.EnsureTest? || a.EnsureSetLen? || a.EnsureTxn?
  }

  /** The steps of `read_range`. */
  predicate ReadStep(a: Action)
  {
    a.StartRead? || a.OpenForRead? || a.ReadBytes? || a.EndRead?
  }

  ghost function ApplyEnsure(c: Content, s: State, t: Tid, a: Action): State
    requires Enabled(c, s, t, a) && EnsureStep(a)
  {
    var pc := PcOf(s, t);
    match a
    case StartEnsure(id, size) =>
      if size > MAX_OBJECT_BYTES || id in s.records then s else Goto(s, t, Ensuring(id, size, Opening))
    case EnsureOpen(node) =>
      if pc.id in s.links then Goto(s, t, pc.(at := Testing(s.links[pc.id])))
      else Goto(s.(links := s.links[pc.id := node], files := s.files[node := []], owners := s.owners[node := pc.id]), t,
                pc.(at := Testing(node)))
    case EnsureTest =>
      var inode := pc.at.inode;
      if inode in s.files && |s.files[inode]| < pc.size then Goto(s, t, pc.(at := Sizing(inode)))
      else Goto(s, t, pc.(at := Claiming))
    case EnsureSetLen =>
      var inode := pc.at.inode;
      if inode in s.files then Goto(s.(files := s.files[inode := SetLen(s.files[inode], pc.size)]), t, pc.(at := Claiming))
      else s
    case EnsureTxn(now) =>
      Goto(if pc.id in s.records then s
           else s.(records := s.records[pc.id := Record(pc.size, {}, 0, now)]), t, Idle)
  }

  /**
   * A read that finds no record, an absent group, no file or a short file ends in an error. Ranges are given as the caller's
   * are after clamping to the recorded size; an empty one is answered at once and takes no step.
   */
  ghost function ApplyRead(c: Content, s: State, t: Tid, a: Action): State
    requires Enabled(c, s, t, a) && ReadStep(a)
  {
    var pc := PcOf(s, t);
    match a
    case StartRead(id, bytes) =>
      if id in s.records && Covered(s.records[id], bytes) && id in s.links
      then Goto(s, t, Reading(id, bytes, Seen(s.links[id]))) else s
    case OpenForRead =>
      if pc.id in s.links then Goto(s, t, pc.(reading := Open(pc.reading.seen, s.links[pc.id]))) else Goto(s, t, Idle)
    case ReadBytes =>
      var inode := pc.reading.inode;
      if inode in s.files && pc.bytes.start <= pc.bytes.end <= |s.files[inode]|
      then Goto(s, t, pc.(reading := Got(pc.reading.seen, inode, s.files[inode][pc.bytes.start..pc.bytes.end])))
      else Goto(s, t, Idle)
    case EndRead => Goto(s, t, Idle)
  }

  /** A non-empty range inside the object whose groups are all marked present. */
  ghost predicate Covered(rec: Record, bytes: Run)
  {
    bytes.start < bytes.end <= rec.size && Span(GroupsForBytes(bytes)) <= rec.present
  }

  ghost function ApplyOther(c: Content, s: State, t: Tid, a: Action): State
    requires Enabled(c, s, t, a) && !WriterStep(a) && !DeleteStep(a) && !EnsureStep(a) && !ReadStep(a)
  {
    var pc := PcOf(s, t);
    match a
    case StartPin(id) =>
      if id in s.records && s.records[id].refcount == 0 then Goto(s, t, Pinning(id)) else s
    case PinTxn =>
      Goto(if pc.id in s.records && s.records[pc.id].refcount == 0
           then s.(records := s.records[pc.id := s.records[pc.id].(refcount := 1)]) else s, t, Idle)
    case RefDelta(id, delta) =>
      if id in s.records
      then s.(records := s.records[id := s.records[id].(refcount := Max(s.records[id].refcount + delta, 0))])
      else s
    case Touch(id, now) =>
      if id in s.records
      then s.(records := s.records[id := s.records[id].(lastAccess := Max(s.records[id].lastAccess, now))])
      else s
    case Shrink(id, failed) =>
      if id in s.records
      then s.(records := s.records[id := s.records[id].(present := s.records[id].present - failed)])
      else s
    case Hold(id) => s.(holds := Bump(s.holds, id))
    case Unhold(id) => s.(holds := Drop(s.holds, id))
  }

  ghost function Apply(c: Content, s: State, t: Tid, a: Action): State
    requires Enabled(c, s, t, a)
  {
    if WriterStep(a) then ApplyWriter(c, s, t, a)
    else if DeleteStep(a) then ApplyDelete(c, s, t, a)
    else if EnsureStep(a) then ApplyEnsure(c, s, t, a)
    else if ReadStep(a) then ApplyRead(c, s, t, a)
    else ApplyOther(c, s, t, a)
  }

  // ---- what every reachable state keeps ----

  /** The bytes of group `g` in the file are the object's own bytes. */
  ghost predicate GroupRight(file: seq<byte>, content: seq<byte>, size: nat, g: nat)
  {
    forall p :: InRun(BytesOfGroup(g, size), p) ==> p < |file| && p < |content| && file[p] == content[p]
  }

  ghost predicate ExtentRight(file: seq<byte>, content: seq<byte>, r: Run)
  {
    r.start < r.end && forall p :: InRun(r, p) ==> p < |file| && p < |content| && file[p] == content[p]
  }

  /** Every group marked present holds the object's bytes in the file its path names now. */
  ghost predicate PresentInv(c: Content, s: State)
  {
    forall id, g: nat :: id in s.records && g in s.records[id].present ==>
      && g < GroupCount(s.records[id].size)
      && id in s.links && s.links[id] in s.files
      && GroupRight(s.files[s.links[id]], c(id), s.records[id].size, g)
  }

  /** Every inode was made for one id, and a path names an inode made for its own. */
  ghost predicate LinkInv(s: State)
  {
    && s.owners.Keys == s.files.Keys
    && (forall id :: id in s.links ==> s.links[id] in s.files && s.owners[s.links[id]] == id)
  }

  /** The two mutexes are held by exactly the threads that say so. */
  ghost predicate LockInv(s: State)
  {
    && (forall t: Tid :: PcOf(s, t).Deleting? ==> s.lock == Some(t))
    && (forall t: Tid :: PcOf(s, t).Deleting? && PcOf(s, t).evicting ==> s.holdLock == Some(t))
    && (s.holdLock.Some? ==> PcOf(s, s.holdLock.value).Deleting? && PcOf(s, s.holdLock.value).evicting)
  }

  ghost function WritersOf(s: State, id: ObjId): set<Tid>
  {
    set t | t in s.pcs && IsWriting(s.pcs[t], id)
  }

  /** `sparse_writers` counts the registered decodes of each id, and drops the entry at zero. */
  ghost predicate CountInv(s: State)
  {
    forall id: ObjId :: |WritersOf(s, id)| == (if id in s.writers then s.writers[id] else 0) && (id in s.writers ==> s.writers[id] > 0)
  }

  /** A delete holding the lock has no registered writer; once its record is gone nothing can be present again. */
  ghost predicate DeleteInv(s: State)
  {
    forall t: Tid :: PcOf(s, t).Deleting? ==>
      var pc := PcOf(s, t);
      && (!pc.phase.Unlocking? ==> pc.id !in s.writers)
      && (pc.phase.Unlinking? && pc.id in s.records ==> s.records[pc.id].present == {})
      && (pc.evicting && pc.phase.Locked? ==> pc.id !in s.holds)
  }

  /** The size every caller declares for an id. */
  type Sizes = ObjId -> nat

  ghost predicate SizeInv(d: Sizes, s: State)
  {
    forall id :: id in s.records ==> s.records[id].size == d(id)
  }

  /** What each thread relies on. */
  ghost predicate ThreadInv(c: Content, d: Sizes, s: State)
  {
    forall t: Tid :: PcOk(c, d, s, PcOf(s, t))
  }

  ghost predicate PcOk(c: Content, d: Sizes, s: State, pc: Pc)
  {
    match pc
    case Writing(_, _, _, _) => WriterOk(c, s, pc)
    case Ensuring(_, _, _) => EnsureOk(d, s, pc)
    case Reading(_, _, _) => ReadOk(c, d, s, pc)
    case _ => true
  }

  /** A registered decode works on the record and the inode it first saw, and wrote only right bytes. */
  ghost predicate WriterOk(c: Content, s: State, pc: Pc)
    requires pc.Writing?
  {
    match pc.stage
    case Registered => true
    case Releasing => true
    case RecordRead(size) => pc.id in s.records && s.records[pc.id].size == size && RangesFit(pc.ranges, size)
    case Decoding(size, inode, written) => DecodeOk(c, s, pc.id, pc.ranges, size, inode, written)
    case Decoded(size, inode, written, ok) =>
      && DecodeOk(c, s, pc.id, pc.ranges, size, inode, written)
      && (ok ==> DecodedAll(written, pc.ranges, size))
  }

  ghost predicate DecodeOk(c: Content, s: State, id: ObjId, ranges: seq<Run>, size: nat, inode: Inode, written: seq<Run>)
  {
    && id in s.records && s.records[id].size == size && RangesFit(ranges, size)
    && id in s.links && s.links[id] == inode && inode in s.files
    && forall i :: 0 <= i < |written| ==> written[i].end <= size && ExtentRight(s.files[inode], c(id), written[i])
  }

  /** An `ensure_sparse` declares the id's size and works on an inode made for the id. */
  ghost predicate EnsureOk(d: Sizes, s: State, pc: Pc)
    requires pc.Ensuring?
  {
    && pc.size == d(pc.id)
    && (pc.at.Testing? || pc.at.Sizing? ==> Owned(s, pc.at.inode, pc.id))
  }

  predicate Owned(s: State, inode: Inode, id: ObjId)
  {
    inode in s.files && inode in s.owners && s.owners[inode] == id
  }

  /** The inode a read saw under the path holds the right bytes, linked still or not. */
  ghost predicate ReadOk(c: Content, d: Sizes, s: State, pc: Pc)
    requires pc.Reading?
  {
    && pc.bytes.end <= d(pc.id)
    && Owned(s, pc.reading.seen, pc.id) && ExtentRight(s.files[pc.reading.seen], c(pc.id), pc.bytes)
    && (pc.reading.Got? && pc.reading.inode == pc.reading.seen ==>
          pc.bytes.end <= |c(pc.id)| && pc.reading.data == c(pc.id)[pc.bytes.start..pc.bytes.end])
  }

  ghost predicate Inv(c: Content, d: Sizes, s: State)
  {
    PresentInv(c, s) && LinkInv(s) && LockInv(s) && CountInv(s) && DeleteInv(s) && SizeInv(d, s) && ThreadInv(c, d, s)
  }
}
