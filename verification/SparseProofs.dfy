/** Every interleaving of the sparse operations keeps the store's invariant. */
module SparseProofs {
  import opened Prelude
  import opened GroupRuns
  import opened GroupBitsModel
  import opened Coverage
  import opened SparseStore

  // ---- moving one thread ----

  lemma PcOfGoto(s: State, t: Tid, pc: Pc, u: Tid)
    ensures PcOf(Goto(s, t, pc), u) == if u == t then pc else PcOf(s, u)
  {
  }

  lemma WritersOfGoto(s: State, t: Tid, pc: Pc, id: ObjId)
    ensures WritersOf(Goto(s, t, pc), id) ==
            if IsWriting(pc, id) then WritersOf(s, id) + {t} else WritersOf(s, id) - {t}
    ensures t in WritersOf(s, id) <==> IsWriting(PcOf(s, t), id)
  {
  }

  /** A thread that moves inside or outside a decode without (de)registering leaves the counts right. */
  lemma CountKept(s: State, s': State, t: Tid, pc: Pc)
    requires CountInv(s)
    requires s'.writers == s.writers && s'.pcs == s.pcs[t := pc]
    requires forall id: ObjId :: IsWriting(pc, id) <==> IsWriting(PcOf(s, t), id)
    ensures CountInv(s')
  {
    forall id: ObjId
      ensures WritersOf(s', id) == WritersOf(s, id)
    {
      WritersOfGoto(s, t, pc, id);
      assert WritersOf(s', id) == WritersOf(Goto(s, t, pc), id);
    }
  }

  lemma CountStart(s: State, t: Tid, id: ObjId, pc: Pc)
    requires CountInv(s) && PcOf(s, t).Idle? && pc.Writing? && pc.id == id
    ensures CountInv(Goto(s.(writers := Bump(s.writers, id)), t, pc))
  {
    var s' := Goto(s.(writers := Bump(s.writers, id)), t, pc);
    forall i: ObjId
      ensures |WritersOf(s', i)| == (if i in s'.writers then s'.writers[i] else 0) && (i in s'.writers ==> s'.writers[i] > 0)
    {
      WritersOfGoto(s, t, pc, i);
      assert WritersOf(s', i) == WritersOf(Goto(s, t, pc), i);
    }
  }

  lemma CountRelease(s: State, t: Tid, id: ObjId)
    requires CountInv(s) && IsWriting(PcOf(s, t), id)
    ensures CountInv(Goto(s.(writers := Drop(s.writers, id)), t, Idle))
  {
    var s' := Goto(s.(writers := Drop(s.writers, id)), t, Idle);
    WritersOfGoto(s, t, Idle, id);
    forall i: ObjId
      ensures |WritersOf(s', i)| == (if i in s'.writers then s'.writers[i] else 0) && (i in s'.writers ==> s'.writers[i] > 0)
    {
      WritersOfGoto(s, t, Idle, i);
      assert WritersOf(s', i) == WritersOf(Goto(s, t, Idle), i);
    }
  }

  /** A registered writer shows in the counter map. */
  lemma WriterCounted(s: State, t: Tid, id: ObjId)
    requires CountInv(s) && IsWriting(PcOf(s, t), id)
    ensures id in s.writers
  {
    assert t in WritersOf(s, id);
  }

  lemma NoDeleter(s: State, t: Tid)
    requires LockInv(s) && s.lock.None?
    ensures !PcOf(s, t).Deleting?
  {
  }

  /** Locks and deletes are untouched when a thread moves that is not deleting before or after. */
  lemma LocksKept(s: State, s': State, t: Tid, pc: Pc)
    requires LockInv(s)
    requires s'.lock == s.lock && s'.holdLock == s.holdLock && s'.pcs == s.pcs[t := pc]
    requires !PcOf(s, t).Deleting? && !pc.Deleting?
    ensures LockInv(s')
  {
    forall u: Tid
      ensures PcOf(s', u) == if u == t then pc else PcOf(s, u)
    {
    }
  }

  lemma DeletesKept(s: State, s': State, t: Tid, pc: Pc)
    requires DeleteInv(s)
    requires s'.records == s.records && s'.writers == s.writers && s'.holds == s.holds && s'.pcs == s.pcs[t := pc]
    requires !pc.Deleting?
    ensures DeleteInv(s')
  {
    forall u: Tid
      ensures PcOf(s', u) == if u == t then pc else PcOf(s, u)
    {
    }
  }

  /** Threads keep what they rely on when the records, links and files do not change. */
  lemma SameDataSamePc(c: Content, d: Sizes, s: State, s': State, pc: Pc)
    requires s'.records == s.records && s'.links == s.links && s'.files == s.files && s'.owners == s.owners
    requires PcOk(c, d, s, pc)
    ensures PcOk(c, d, s', pc)
  {
    hide DecodedAll, ExtentRight, RangesFit;
  }

  /** A step that leads to the data of `mid` and moves thread `t` to `pc`. */
  lemma ThreadsMoved(c: Content, d: Sizes, s: State, mid: State, s': State, t: Tid, pc: Pc)
    requires forall u: Tid :: u != t ==> PcOk(c, d, mid, PcOf(s, u))
    requires s'.records == mid.records && s'.links == mid.links && s'.files == mid.files && s'.owners == mid.owners
    requires s'.pcs == s.pcs[t := pc] && PcOk(c, d, mid, pc)
    ensures ThreadInv(c, d, s')
  {
    hide PcOk;
    forall u: Tid
      ensures PcOk(c, d, s', PcOf(s', u))
    {
      assert PcOf(s', u) == if u == t then pc else PcOf(s, u);
      SameDataSamePc(c, d, mid, s', PcOf(s', u));
    }
  }

  /** The same when the data does not change at all. */
  lemma ThreadsKept(c: Content, d: Sizes, s: State, s': State, t: Tid, pc: Pc)
    requires ThreadInv(c, d, s)
    requires s'.records == s.records && s'.links == s.links && s'.files == s.files && s'.owners == s.owners
    requires s'.pcs == s.pcs[t := pc] && PcOk(c, d, s, pc)
    ensures ThreadInv(c, d, s')
  {
    hide PcOk;
    ThreadsMoved(c, d, s, s, s', t, pc);
  }

  /** A step that only moves thread `t`, outside deletes, keeping its registration. */
  lemma OnlyMoves(c: Content, d: Sizes, s: State, t: Tid, pc: Pc)
    requires Inv(c, d, s)
    requires !PcOf(s, t).Deleting? && !pc.Deleting?
    requires forall id: ObjId :: IsWriting(pc, id) <==> IsWriting(PcOf(s, t), id)
    requires PcOk(c, d, s, pc)
    ensures Inv(c, d, Goto(s, t, pc))
  {
    hide GroupRight, PcOk, WritersOf;
    var s' := Goto(s, t, pc);
    assert LockInv(s') by { LocksKept(s, s', t, pc); }
    assert CountInv(s') by { CountKept(s, s', t, pc); }
    assert DeleteInv(s') by { DeletesKept(s, s', t, pc); }
    assert ThreadInv(c, d, s') by { ThreadsKept(c, d, s, s', t, pc); }
  }

  // ---- the writer's steps ----

  lemma StartWriteKeeps(c: Content, d: Sizes, s: State, t: Tid, id: ObjId, ranges: seq<Run>, partial: bool)
    requires Inv(c, d, s) && Enabled(c, s, t, StartWrite(id, ranges, partial))
    ensures Inv(c, d, Apply(c, s, t, StartWrite(id, ranges, partial)))
  {
    hide GroupRight, PcOk, WritersOf;
    var pc := Writing(id, ranges, partial, Registered);
    var s' := Apply(c, s, t, StartWrite(id, ranges, partial));
    assert LockInv(s') by { LocksKept(s, s', t, pc); }
    assert CountInv(s') by { CountStart(s, t, id, pc); }
    assert DeleteInv(s') by {
      forall u: Tid
        ensures !PcOf(s', u).Deleting?
      {
        NoDeleter(s, u);
        PcOfGoto(s, t, pc, u);
      }
    }
    assert ThreadInv(c, d, s') by {
      RegisteredIsOk(c, d, s, pc);
      ThreadsKept(c, d, s, s', t, pc);
    }
  }

  lemma RegisteredIsOk(c: Content, d: Sizes, s: State, pc: Pc)
    requires pc.Idle? || (pc.Writing? && (pc.stage.Registered? || pc.stage.Releasing?))
    ensures PcOk(c, d, s, pc)
  {
  }

  lemma ReadRecordKeeps(c: Content, d: Sizes, s: State, t: Tid)
    requires Inv(c, d, s) && Enabled(c, s, t, ReadRecord)
    ensures Inv(c, d, Apply(c, s, t, ReadRecord))
  {
    hide GroupRight, WritersOf, PresentInv, LinkInv, LockInv, CountInv, DeleteInv, SizeInv, ThreadInv;
    var pc := PcOf(s, t);
    if pc.id in s.records && RangesFit(pc.ranges, s.records[pc.id].size) {
      OnlyMoves(c, d, s, t, Next(pc, RecordRead(s.records[pc.id].size)));
    } else {
      OnlyMoves(c, d, s, t, Next(pc, Releasing));
    }
  }

  lemma OpenFilesKeeps(c: Content, d: Sizes, s: State, t: Tid)
    requires Inv(c, d, s) && Enabled(c, s, t, OpenFiles)
    ensures Inv(c, d, Apply(c, s, t, OpenFiles))
  {
    hide GroupRight, WritersOf, PresentInv, LockInv, CountInv, DeleteInv, SizeInv;
    var pc := PcOf(s, t);
    if pc.id in s.links {
      var pc' := Next(pc, Decoding(pc.stage.size, s.links[pc.id], []));
      assert PcOk(c, d, s, pc);
      OnlyMoves(c, d, s, t, pc');
    } else {
      OnlyMoves(c, d, s, t, Next(pc, Releasing));
    }
  }

  lemma EndDecodeKeeps(c: Content, d: Sizes, s: State, t: Tid, ok: bool)
    requires Inv(c, d, s) && Enabled(c, s, t, EndDecode(ok))
    ensures Inv(c, d, Apply(c, s, t, EndDecode(ok)))
  {
    hide GroupRight, WritersOf, PresentInv, LinkInv, LockInv, CountInv, DeleteInv, SizeInv, DecodeOk, DecodedAll;
    var pc := PcOf(s, t);
    assert PcOk(c, d, s, pc);
    OnlyMoves(c, d, s, t, Next(pc, Decoded(pc.stage.size, pc.stage.inode, pc.stage.written, ok)));
  }

  /** Overwriting with the object's own bytes never makes a right byte wrong. */
  lemma WriteAtRight(file: seq<byte>, content: seq<byte>, pos: nat, leaf: seq<byte>, p: nat)
    requires pos + |leaf| <= |content| && leaf == content[pos..pos + |leaf|]
    ensures p < |file| && p < |content| && file[p] == content[p] ==>
              p < |WriteAt(file, pos, leaf)| && WriteAt(file, pos, leaf)[p] == content[p]
    ensures pos <= p < pos + |leaf| ==>
              p < |WriteAt(file, pos, leaf)| && p < |content| && WriteAt(file, pos, leaf)[p] == content[p]
  {
  }

  lemma GroupStaysRight(file: seq<byte>, content: seq<byte>, pos: nat, leaf: seq<byte>, size: nat, g: nat)
    requires pos + |leaf| <= |content| && leaf == content[pos..pos + |leaf|]
    requires GroupRight(file, content, size, g)
    ensures GroupRight(WriteAt(file, pos, leaf), content, size, g)
  {
    hide WriteAt, BytesOfGroup;
    forall p | InRun(BytesOfGroup(g, size), p)
      ensures p < |WriteAt(file, pos, leaf)| && p < |content| && WriteAt(file, pos, leaf)[p] == content[p]
    {
      WriteAtRight(file, content, pos, leaf, p);
    }
  }

  lemma ExtentStaysRight(file: seq<byte>, content: seq<byte>, pos: nat, leaf: seq<byte>, r: Run)
    requires pos + |leaf| <= |content| && leaf == content[pos..pos + |leaf|]
    requires ExtentRight(file, content, r)
    ensures ExtentRight(WriteAt(file, pos, leaf), content, r)
  {
    hide WriteAt;
    forall p | InRun(r, p)
      ensures p < |WriteAt(file, pos, leaf)| && p < |content| && WriteAt(file, pos, leaf)[p] == content[p]
    {
      WriteAtRight(file, content, pos, leaf, p);
    }
  }

  lemma NewExtentRight(file: seq<byte>, content: seq<byte>, pos: nat, leaf: seq<byte>)
    requires pos + |leaf| <= |content| && leaf == content[pos..pos + |leaf|] && leaf != []
    ensures ExtentRight(WriteAt(file, pos, leaf), content, Run(pos, pos + |leaf|))
  {
    hide WriteAt;
    var r, next := Run(pos, pos + |leaf|), WriteAt(file, pos, leaf);
    assert r.start < r.end;
    forall p | InRun(r, p)
      ensures p < |next| && p < |content| && next[p] == content[p]
    {
      WriteAtRight(file, content, pos, leaf, p);
    }
  }

  /** The extents recorded after one more leaf are still right, and inside the object. */
  lemma TrackRight(file: seq<byte>, content: seq<byte>, pos: nat, leaf: seq<byte>, written: seq<Run>, size: nat)
    requires pos + |leaf| <= |content| && leaf == content[pos..pos + |leaf|] && leaf != [] && pos + |leaf| <= size
    requires forall i :: 0 <= i < |written| ==> written[i].end <= size && ExtentRight(file, content, written[i])
    ensures var after := Track(written, pos, pos + |leaf|);
            forall i :: 0 <= i < |after| ==> after[i].end <= size && ExtentRight(WriteAt(file, pos, leaf), content, after[i])
  {
    var after := Track(written, pos, pos + |leaf|);
    var file' := WriteAt(file, pos, leaf);
    NewExtentRight(file, content, pos, leaf);
    forall i | 0 <= i < |after|
      ensures after[i].end <= size && ExtentRight(file', content, after[i])
    {
      hide WriteAt;
      if i < |written| {
        ExtentStaysRight(file, content, pos, leaf, written[i]);
      }
    }
  }

  lemma WriteLeafPresent(c: Content, s: State, id: ObjId, pos: nat, leaf: seq<byte>)
    requires PresentInv(c, s) && LinkInv(s) && id in s.links
    requires pos + |leaf| <= |c(id)| && leaf == c(id)[pos..pos + |leaf|]
    ensures PresentInv(c, s.(files := s.files[s.links[id] := WriteAt(s.files[s.links[id]], pos, leaf)]))
  {
    hide WriteAt, GroupRight;
    var s' := s.(files := s.files[s.links[id] := WriteAt(s.files[s.links[id]], pos, leaf)]);
    forall i, g: nat | i in s'.records && g in s'.records[i].present
      ensures g < GroupCount(s'.records[i].size) && i in s'.links && s'.links[i] in s'.files
      ensures GroupRight(s'.files[s'.links[i]], c(i), s'.records[i].size, g)
    {
      if i == id {
        GroupStaysRight(s.files[s.links[id]], c(id), pos, leaf, s.records[id].size, g);
      }
    }
  }

  lemma WriteLeafOthers(c: Content, d: Sizes, s: State, id: ObjId, pos: nat, leaf: seq<byte>, pc: Pc)
    requires LinkInv(s) && id in s.links && PcOk(c, d, s, pc)
    requires pos + |leaf| <= |c(id)| && leaf == c(id)[pos..pos + |leaf|]
    ensures PcOk(c, d, s.(files := s.files[s.links[id] := WriteAt(s.files[s.links[id]], pos, leaf)]), pc)
  {
    hide WriteAt, ExtentRight, DecodedAll, RangesFit;
    var file := s.files[s.links[id]];
    if pc.Writing? && pc.id == id && (pc.stage.Decoding? || pc.stage.Decoded?) {
      forall i | 0 <= i < |pc.stage.written|
        ensures ExtentRight(WriteAt(file, pos, leaf), c(id), pc.stage.written[i])
      {
        ExtentStaysRight(file, c(id), pos, leaf, pc.stage.written[i]);
      }
    } else if pc.Reading? && pc.reading.seen == s.links[id] {
      ExtentStaysRight(file, c(id), pos, leaf, pc.bytes);
    }
  }

  lemma FileChanged(d: Sizes, s: State, s': State, inode: Inode)
    requires LinkInv(s) && SizeInv(d, s) && inode in s.files
    requires s'.records == s.records && s'.links == s.links && s'.owners == s.owners && s'.files.Keys == s.files.Keys
    ensures LinkInv(s') && SizeInv(d, s')
  {
  }

  lemma WriteLeafKeeps(c: Content, d: Sizes, s: State, t: Tid, pos: nat, leaf: seq<byte>)
    requires Inv(c, d, s) && Enabled(c, s, t, WriteLeaf(pos, leaf))
    ensures Inv(c, d, Apply(c, s, t, WriteLeaf(pos, leaf)))
  {
    hide GroupRight, WritersOf, WriteAt, Track, ExtentRight, DecodedAll, ApplyDelete, ApplyEnsure, ApplyRead, ApplyOther;
    var pc := PcOf(s, t);
    assert PcOk(c, d, s, pc);
    var id, inode := pc.id, pc.stage.inode;
    var s' := Apply(c, s, t, WriteLeaf(pos, leaf));
    var mid := s.(files := s.files[inode := WriteAt(s.files[inode], pos, leaf)]);
    var pc' := Next(pc, Decoding(pc.stage.size, inode, Track(pc.stage.written, pos, pos + |leaf|)));
    assert s' == Goto(mid, t, pc');
    assert PresentInv(c, s') by { WriteLeafPresent(c, s, id, pos, leaf); }
    assert LinkInv(s') && SizeInv(d, s') by { FileChanged(d, s, s', inode); }
    assert LockInv(s') by { LocksKept(s, s', t, pc'); }
    assert CountInv(s') by { CountKept(s, s', t, pc'); }
    assert DeleteInv(s') by { DeletesKept(s, s', t, pc'); }
    assert ThreadInv(c, d, s') by {
      assert PcOk(c, d, mid, pc') by { TrackRight(s.files[inode], c(id), pos, leaf, pc.stage.written, pc.stage.size); }
      hide PcOk;
      forall u: Tid | u != t
        ensures PcOk(c, d, mid, PcOf(s, u))
      {
        WriteLeafOthers(c, d, s, id, pos, leaf, PcOf(s, u));
      }
      ThreadsMoved(c, d, s, mid, s', t, pc');
    }
  }

  /** Everything a writer marks is right in the file it wrote. */
  lemma MarksRight(c: Content, s: State, pc: Pc, g: nat)
    requires pc.Writing? && pc.stage.Decoded? && WriterOk(c, s, pc) && g in Marks(pc)
    ensures g < GroupCount(pc.stage.size)
    ensures GroupRight(s.files[pc.stage.inode], c(pc.id), pc.stage.size, g)
  {
    hide DecodedAll, Requested;
    var st := pc.stage;
    assert FullyWritten(st.written, st.size, g) by {
      if !pc.partial {
        LandedIsRequested(st.written, pc.ranges, st.size, g);
      }
    }
    forall p | InRun(BytesOfGroup(g, st.size), p)
      ensures p < |s.files[st.inode]| && p < |c(pc.id)| && s.files[st.inode][p] == c(pc.id)[p]
    {
      assert Has(st.written, p);
      var i :| 0 <= i < |st.written| && InRun(st.written[i], p);
      assert ExtentRight(s.files[st.inode], c(pc.id), st.written[i]);
    }
  }

  lemma CommitPresent(c: Content, s: State, pc: Pc, rec: Record)
    requires PresentInv(c, s) && pc.Writing? && pc.stage.Decoded? && WriterOk(c, s, pc)
    requires rec.size == s.records[pc.id].size && rec.present == s.records[pc.id].present + Marks(pc)
    ensures PresentInv(c, s.(records := s.records[pc.id := rec]))
  {
    hide GroupRight, Marks, DecodedAll;
    var s' := s.(records := s.records[pc.id := rec]);
    forall i, g: nat | i in s'.records && g in s'.records[i].present
      ensures g < GroupCount(s'.records[i].size) && i in s'.links && s'.links[i] in s'.files
      ensures GroupRight(s'.files[s'.links[i]], c(i), s'.records[i].size, g)
    {
      if i == pc.id && g in Marks(pc) {
        MarksRight(c, s, pc, g);
      } else {
        assert g in s.records[i].present;
      }
    }
  }

  /** Rewriting a record without changing its size leaves every thread valid. */
  lemma RecordRewriteKeepsPc(c: Content, d: Sizes, s: State, id: ObjId, rec: Record, pc: Pc)
    requires id in s.records && rec.size == s.records[id].size && PcOk(c, d, s, pc)
    ensures PcOk(c, d, s.(records := s.records[id := rec]), pc)
  {
    hide ExtentRight, DecodedAll, RangesFit;
  }

  /** A commit that touches the record of an id with a registered writer cannot disturb a delete. */
  lemma CommitDeletes(s: State, s': State, t: Tid, id: ObjId, pc': Pc)
    requires DeleteInv(s) && CountInv(s) && IsWriting(PcOf(s, t), id) && !pc'.Deleting?
    requires s'.writers == s.writers && s'.holds == s.holds && s'.pcs == s.pcs[t := pc']
    requires forall i :: i != id ==> (i in s'.records <==> i in s.records) && (i in s.records ==> s'.records[i] == s.records[i])
    ensures DeleteInv(s')
  {
    WriterCounted(s, t, id);
    forall u: Tid | PcOf(s', u).Deleting?
      ensures PcOf(s', u) == PcOf(s, u)
    {
    }
  }

  lemma CommitBitsKeeps(c: Content, d: Sizes, s: State, t: Tid, now: nat)
    requires Inv(c, d, s) && Enabled(c, s, t, CommitBits(now))
    ensures Inv(c, d, Apply(c, s, t, CommitBits(now)))
  {
    hide GroupRight, WritersOf, Marks, Commits, DecodedAll, ExtentRight;
    var pc := PcOf(s, t);
    var pc' := Next(pc, Releasing);
    assert PcOk(c, d, s, pc);
    if Commits(pc) && pc.id in s.records {
      var old_ := s.records[pc.id];
      var rec := old_.(present := old_.present + Marks(pc), lastAccess := Max(old_.lastAccess, now));
      var mid := s.(records := s.records[pc.id := rec]);
      var s' := Goto(mid, t, pc');
      assert s' == Apply(c, s, t, CommitBits(now));
      assert PresentInv(c, s') by { CommitPresent(c, s, pc, rec); }
      assert LinkInv(s') && SizeInv(d, s');
      assert LockInv(s') by { LocksKept(s, s', t, pc'); }
      assert CountInv(s') by { CountKept(s, s', t, pc'); }
      assert DeleteInv(s') by { CommitDeletes(s, s', t, pc.id, pc'); }
      assert ThreadInv(c, d, s') by {
        RegisteredIsOk(c, d, mid, pc');
        hide PcOk;
        forall u: Tid | u != t
          ensures PcOk(c, d, mid, PcOf(s, u))
        {
          RecordRewriteKeepsPc(c, d, s, pc.id, rec, PcOf(s, u));
        }
        ThreadsMoved(c, d, s, mid, s', t, pc');
      }
    } else {
      OnlyMoves(c, d, s, t, pc');
    }
  }

  lemma ReleaseKeeps(c: Content, d: Sizes, s: State, t: Tid)
    requires Inv(c, d, s) && Enabled(c, s, t, Release)
    ensures Inv(c, d, Apply(c, s, t, Release))
  {
    hide GroupRight, PcOk, WritersOf;
    var pc := PcOf(s, t);
    var s' := Apply(c, s, t, Release);
    assert LockInv(s') by { LocksKept(s, s', t, Idle); }
    assert CountInv(s') by { CountRelease(s, t, pc.id); }
    assert DeleteInv(s') by {
      forall u: Tid
        ensures !PcOf(s', u).Deleting?
      {
        NoDeleter(s, u);
        PcOfGoto(s, t, Idle, u);
      }
    }
    assert ThreadInv(c, d, s') by {
      RegisteredIsOk(c, d, s, Idle);
      ThreadsKept(c, d, s, s', t, Idle);
    }
  }

  // ---- deletes ----

  /** Idle threads and threads about to delete rely on nothing. */
  lemma DeletingIsOk(c: Content, d: Sizes, s: State, pc: Pc)
    requires pc.Idle? || pc.RemoveSeen? || pc.Deleting? || pc.Pinning?
    ensures PcOk(c, d, s, pc)
  {
  }

  lemma StartRemoveKeeps(c: Content, d: Sizes, s: State, t: Tid, id: ObjId)
    requires Inv(c, d, s) && Enabled(c, s, t, StartRemove(id))
    ensures Inv(c, d, Apply(c, s, t, StartRemove(id)))
  {
    hide Inv;
    if id in s.records {
      OnlyMoves(c, d, s, t, RemoveSeen(id));
    }
  }

  /** Taking the lock for a delete of an id without registered writers. */
  lemma LockKeeps(c: Content, d: Sizes, s: State, t: Tid, id: ObjId, evicting: bool)
    requires Inv(c, d, s) && s.lock.None? && id !in s.writers
    requires PcOf(s, t).Idle? || PcOf(s, t).RemoveSeen?
    requires evicting ==> s.holdLock.None? && id !in s.holds
    ensures Inv(c, d, Goto(s.(lock := Some(t), holdLock := if evicting then Some(t) else s.holdLock), t, Deleting(id, evicting, Locked)))
  {
    hide GroupRight, PcOk, WritersOf;
    var pc := Deleting(id, evicting, Locked);
    var s' := Goto(s.(lock := Some(t), holdLock := if evicting then Some(t) else s.holdLock), t, pc);
    forall u: Tid
      ensures !PcOf(s, u).Deleting?
      ensures PcOf(s', u) == if u == t then pc else PcOf(s, u)
    {
      NoDeleter(s, u);
    }
    assert s.holdLock.None?;
    assert LockInv(s');
    assert CountInv(s') by { CountKept(s, s', t, pc); }
    assert DeleteInv(s');
    assert ThreadInv(c, d, s') by {
      DeletingIsOk(c, d, s, pc);
      ThreadsKept(c, d, s, s', t, pc);
    }
  }

  lemma LockForRemoveKeeps(c: Content, d: Sizes, s: State, t: Tid)
    requires Inv(c, d, s) && Enabled(c, s, t, LockForRemove)
    ensures Inv(c, d, Apply(c, s, t, LockForRemove))
  {
    hide Inv;
    var id := PcOf(s, t).id;
    if id in s.writers {
      OnlyMoves(c, d, s, t, Idle);
    } else {
      LockKeeps(c, d, s, t, id, false);
    }
  }

  lemma LockForEvictKeeps(c: Content, d: Sizes, s: State, t: Tid, id: ObjId)
    requires Inv(c, d, s) && Enabled(c, s, t, LockForEvict(id))
    ensures Inv(c, d, Apply(c, s, t, LockForEvict(id)))
  {
    hide Inv;
    if !(id in s.writers || id in s.holds) {
      LockKeeps(c, d, s, t, id, true);
    }
  }

  /** While thread `t` deletes, no other thread does. */
  lemma OnlyDeleter(s: State, t: Tid, u: Tid)
    requires LockInv(s) && PcOf(s, t).Deleting? && PcOf(s, u).Deleting?
    ensures u == t
  {
  }

  /** Threads other than writers of `id` do not notice its record or its link going away. */
  lemma DeleteKeepsPc(c: Content, d: Sizes, s: State, s': State, id: ObjId, pc: Pc)
    requires !IsWriting(pc, id) && PcOk(c, d, s, pc)
    requires s'.files == s.files && s'.owners == s.owners
    requires s'.records == s.records || s'.records == s.records - {id}
    requires s'.links == s.links || s'.links == s.links - {id}
    ensures PcOk(c, d, s', pc)
  {
    hide ExtentRight, DecodedAll, RangesFit;
  }

  lemma DeleteKeepsThreads(c: Content, d: Sizes, s: State, s': State, t: Tid, id: ObjId, pc: Pc)
    requires ThreadInv(c, d, s) && CountInv(s) && id !in s.writers && pc.Deleting?
    requires s'.files == s.files && s'.owners == s.owners && s'.pcs == s.pcs[t := pc]
    requires s'.records == s.records || s'.records == s.records - {id}
    requires s'.links == s.links || s'.links == s.links - {id}
    ensures ThreadInv(c, d, s')
  {
    hide PcOk, WritersOf, CountInv;
    var mid := s'.(pcs := s.pcs);
    forall u: Tid | u != t
      ensures PcOk(c, d, mid, PcOf(s, u))
    {
      if IsWriting(PcOf(s, u), id) {
        WriterCounted(s, u, id);
      }
      DeleteKeepsPc(c, d, s, mid, id, PcOf(s, u));
    }
    DeletingIsOk(c, d, mid, pc);
    ThreadsMoved(c, d, s, mid, s', t, pc);
  }

  lemma DeletePhases(s: State, s': State, t: Tid, pc: Pc)
    requires LockInv(s) && PcOf(s, t).Deleting? && pc.Deleting?
    requires pc.id == PcOf(s, t).id && pc.evicting == PcOf(s, t).evicting
    requires s'.lock == s.lock && s'.holdLock == s.holdLock && s'.pcs == s.pcs[t := pc]
    ensures LockInv(s')
    ensures forall u: Tid :: PcOf(s', u).Deleting? ==> u == t && PcOf(s', u) == pc
  {
    forall u: Tid
      ensures PcOf(s', u) == if u == t then pc else PcOf(s, u)
    {
    }
    forall u: Tid | PcOf(s', u).Deleting?
      ensures u == t
    {
      OnlyDeleter(s, t, u);
    }
  }

  lemma DeleteTxnKeeps(c: Content, d: Sizes, s: State, t: Tid)
    requires Inv(c, d, s) && Enabled(c, s, t, DeleteTxn)
    ensures Inv(c, d, Apply(c, s, t, DeleteTxn))
  {
    hide GroupRight, PcOk, WritersOf, ApplyWriter, ApplyOther, ApplyEnsure, ApplyRead, PresentInv, CountInv, LockInv, ThreadInv;
    var pc := PcOf(s, t);
    var s' := Apply(c, s, t, DeleteTxn);
    var pc' := if pc.evicting && !(pc.id in s.records && s.records[pc.id].refcount == 0)
               then pc.(phase := Unlocking) else pc.(phase := Unlinking);
    assert s'.pcs == s.pcs[t := pc'] && (s'.records == s.records || s'.records == s.records - {pc.id});
    assert CountInv(s') by { CountKept(s, s', t, pc'); }
    assert LockInv(s') && DeleteInv(s') by { DeletePhases(s, s', t, pc'); }
    assert ThreadInv(c, d, s') by { DeleteKeepsThreads(c, d, s, s', t, pc.id, pc'); }
    assert PresentInv(c, s') by { FewerRecords(c, s, s', pc.id); }
    assert LinkInv(s') && SizeInv(d, s');
  }

  lemma FewerRecords(c: Content, s: State, s': State, id: ObjId)
    requires PresentInv(c, s) && (s'.records == s.records || s'.records == s.records - {id})
    requires s'.files == s.files && s'.links == s.links
    ensures PresentInv(c, s')
  {
    hide GroupRight;
  }

  lemma UnlinkPresent(c: Content, s: State, s': State, id: ObjId)
    requires PresentInv(c, s) && (id in s.records ==> s.records[id].present == {})
    requires s'.records == s.records && s'.files == s.files && s'.links == s.links - {id}
    ensures PresentInv(c, s')
  {
    hide GroupRight;
  }

  lemma UnlinkKeeps(c: Content, d: Sizes, s: State, t: Tid, done: bool)
    requires Inv(c, d, s) && Enabled(c, s, t, Unlink(done))
    ensures Inv(c, d, Apply(c, s, t, Unlink(done)))
  {
    hide GroupRight, PcOk, WritersOf, ApplyWriter, ApplyOther, ApplyEnsure, ApplyRead;
    var pc := PcOf(s, t);
    var s' := Apply(c, s, t, Unlink(done));
    var pc' := pc.(phase := Unlocking);
    assert CountInv(s') by { CountKept(s, s', t, pc'); }
    assert LockInv(s') by { DeletePhases(s, s', t, pc'); }
    assert DeleteInv(s') by { DeletePhases(s, s', t, pc'); }
    assert ThreadInv(c, d, s') by { DeleteKeepsThreads(c, d, s, s', t, pc.id, pc'); }
    assert PresentInv(c, s') by { if done { UnlinkPresent(c, s, s', pc.id); } }
    assert LinkInv(s') && SizeInv(d, s');
  }

  lemma UnlockKeeps(c: Content, d: Sizes, s: State, t: Tid)
    requires Inv(c, d, s) && Enabled(c, s, t, Unlock)
    ensures Inv(c, d, Apply(c, s, t, Unlock))
  {
    hide GroupRight, PcOk, WritersOf;
    var pc := PcOf(s, t);
    var s' := Apply(c, s, t, Unlock);
    forall u: Tid
      ensures PcOf(s', u) == if u == t then Idle else PcOf(s, u)
      ensures !PcOf(s', u).Deleting?
    {
      if PcOf(s, u).Deleting? { OnlyDeleter(s, t, u); }
    }
    assert s'.holdLock.None?;
    assert LockInv(s');
    assert CountInv(s') by { CountKept(s, s', t, Idle); }
    assert DeleteInv(s');
    assert ThreadInv(c, d, s') by {
      DeletingIsOk(c, d, s, Idle);
      ThreadsKept(c, d, s, s', t, Idle);
    }
  }

  // ---- ensure_sparse ----

  lemma StartEnsureKeeps(c: Content, d: Sizes, s: State, t: Tid, id: ObjId, size: nat)
    requires Inv(c, d, s) && Enabled(c, s, t, StartEnsure(id, size)) && size == d(id)
    ensures Inv(c, d, Apply(c, s, t, StartEnsure(id, size)))
  {
    hide Inv;
    if !(size > MAX_OBJECT_BYTES || id in s.records) {
      OnlyMoves(c, d, s, t, Ensuring(id, size, Opening));
    }
  }

  /** A fresh inode under a path that named none. */
  lemma NewLinkKeepsPc(c: Content, d: Sizes, s: State, id: ObjId, node: Inode, pc: Pc)
    requires LinkInv(s) && id !in s.links && node !in s.files && PcOk(c, d, s, pc)
    ensures PcOk(c, d, s.(links := s.links[id := node], files := s.files[node := []], owners := s.owners[node := id]), pc)
  {
    hide ExtentRight, DecodedAll, RangesFit;
  }

  lemma NewLinkPresent(c: Content, s: State, id: ObjId, node: Inode)
    requires PresentInv(c, s) && LinkInv(s) && id !in s.links && node !in s.files
    ensures PresentInv(c, s.(links := s.links[id := node], files := s.files[node := []], owners := s.owners[node := id]))
  {
    hide GroupRight;
  }

  lemma EnsureOpenKeeps(c: Content, d: Sizes, s: State, t: Tid, node: Inode)
    requires Inv(c, d, s) && Enabled(c, s, t, EnsureOpen(node))
    ensures Inv(c, d, Apply(c, s, t, EnsureOpen(node)))
  {
    hide GroupRight, WritersOf, PcOk, ApplyWriter, ApplyDelete, ApplyOther, ApplyRead;
    var pc := PcOf(s, t);
    var s' := Apply(c, s, t, EnsureOpen(node));
    assert pc.size == d(pc.id) by { EnsuresDeclare(c, d, s, t); }
    if pc.id in s.links {
      var pc' := pc.(at := Testing(s.links[pc.id]));
      assert PcOk(c, d, s, pc') by { EnsuringIsOk(c, d, s, pc', s.links[pc.id]); }
      OnlyMoves(c, d, s, t, pc');
    } else {
      var pc' := pc.(at := Testing(node));
      var mid := s.(links := s.links[pc.id := node], files := s.files[node := []], owners := s.owners[node := pc.id]);
      assert s' == Goto(mid, t, pc');
      assert PresentInv(c, s') by { NewLinkPresent(c, s, pc.id, node); }
      assert LinkInv(s') && SizeInv(d, s');
      assert LockInv(s') by { LocksKept(s, s', t, pc'); }
      assert CountInv(s') by { CountKept(s, s', t, pc'); }
      assert DeleteInv(s') by { DeletesKept(s, s', t, pc'); }
      assert ThreadInv(c, d, s') by {
        EnsuringIsOk(c, d, mid, pc', node);
        forall u: Tid | u != t
          ensures PcOk(c, d, mid, PcOf(s, u))
        {
          NewLinkKeepsPc(c, d, s, pc.id, node, PcOf(s, u));
        }
        ThreadsMoved(c, d, s, mid, s', t, pc');
      }
    }
  }

  lemma EnsuresDeclare(c: Content, d: Sizes, s: State, t: Tid)
    requires ThreadInv(c, d, s) && PcOf(s, t).Ensuring?
    ensures EnsureOk(d, s, PcOf(s, t))
  {
    assert PcOk(c, d, s, PcOf(s, t));
  }

  lemma EnsuringIsOk(c: Content, d: Sizes, s: State, pc: Pc, inode: Inode)
    requires pc.Ensuring? && pc.size == d(pc.id) && Owned(s, inode, pc.id)
    requires pc.at == Testing(inode) || pc.at == Sizing(inode) || pc.at.Claiming?
    ensures PcOk(c, d, s, pc)
  {
  }

  lemma EnsureTestKeeps(c: Content, d: Sizes, s: State, t: Tid)
    requires Inv(c, d, s) && Enabled(c, s, t, EnsureTest)
    ensures Inv(c, d, Apply(c, s, t, EnsureTest))
  {
    hide Inv, ThreadInv, ApplyWriter, ApplyDelete, ApplyOther, ApplyRead;
    var pc := PcOf(s, t);
    assert EnsureOk(d, s, pc) by { InvThreads(c, d, s); EnsuresDeclare(c, d, s, t); }
    EnsuringIsOk(c, d, s, pc.(at := Sizing(pc.at.inode)), pc.at.inode);
    EnsuringIsOk(c, d, s, pc.(at := Claiming), pc.at.inode);
    hide PcOk;
    if |s.files[pc.at.inode]| < pc.size {
      OnlyMoves(c, d, s, t, pc.(at := Sizing(pc.at.inode)));
    } else {
      OnlyMoves(c, d, s, t, pc.(at := Claiming));
    }
  }

  lemma InvThreads(c: Content, d: Sizes, s: State)
    requires Inv(c, d, s)
    ensures ThreadInv(c, d, s)
  {
    hide PresentInv, LinkInv, LockInv, CountInv, DeleteInv, SizeInv, ThreadInv;
  }

  lemma SetLenRight(file: seq<byte>, content: seq<byte>, len: nat, r: Run)
    requires ExtentRight(file, content, r) && r.end <= len
    ensures ExtentRight(SetLen(file, len), content, r)
  {
  }

  /** Cutting a file at the size every caller declares takes no byte of a present group. */
  lemma SetLenPresent(c: Content, d: Sizes, s: State, inode: Inode, id: ObjId)
    requires PresentInv(c, s) && LinkInv(s) && SizeInv(d, s) && Owned(s, inode, id)
    ensures PresentInv(c, s.(files := s.files[inode := SetLen(s.files[inode], d(id))]))
  {
    hide SetLen;
    var s' := s.(files := s.files[inode := SetLen(s.files[inode], d(id))]);
    forall i, g: nat | i in s'.records && g in s'.records[i].present
      ensures g < GroupCount(s'.records[i].size) && i in s'.links && s'.links[i] in s'.files
      ensures GroupRight(s'.files[s'.links[i]], c(i), s'.records[i].size, g)
    {
      if s.links[i] == inode {
        SetLenGroup(s.files[inode], c(i), s.records[i].size, g);
      }
    }
  }

  lemma SetLenGroup(file: seq<byte>, content: seq<byte>, size: nat, g: nat)
    requires GroupRight(file, content, size, g)
    ensures GroupRight(SetLen(file, size), content, size, g)
  {
    hide SetLen;
    forall p | InRun(BytesOfGroup(g, size), p)
      ensures p < |SetLen(file, size)| && p < |content| && SetLen(file, size)[p] == content[p]
    {
      SetLenByte(file, size, p);
    }
  }

  lemma SetLenByte(file: seq<byte>, len: nat, p: nat)
    requires p < |file| && p < len
    ensures SetLen(file, len)[p] == file[p]
  {
  }

  lemma SetLenKeepsPc(c: Content, d: Sizes, s: State, inode: Inode, id: ObjId, pc: Pc)
    requires LinkInv(s) && SizeInv(d, s) && Owned(s, inode, id) && PcOk(c, d, s, pc)
    ensures PcOk(c, d, s.(files := s.files[inode := SetLen(s.files[inode], d(id))]), pc)
  {
    hide ExtentRight, DecodedAll, RangesFit, SetLen;
    var file := s.files[inode];
    if pc.Writing? && (pc.stage.Decoding? || pc.stage.Decoded?) && pc.stage.inode == inode {
      forall i | 0 <= i < |pc.stage.written|
        ensures ExtentRight(SetLen(file, d(id)), c(pc.id), pc.stage.written[i])
      {
        SetLenRight(file, c(pc.id), d(id), pc.stage.written[i]);
      }
    } else if pc.Reading? && pc.reading.seen == inode {
      SetLenRight(file, c(pc.id), d(id), pc.bytes);
    }
  }

  lemma EnsureSetLenKeeps(c: Content, d: Sizes, s: State, t: Tid)
    requires Inv(c, d, s) && Enabled(c, s, t, EnsureSetLen)
    ensures Inv(c, d, Apply(c, s, t, EnsureSetLen))
  {
    hide GroupRight, WritersOf, PcOk, SetLen, ApplyWriter, ApplyDelete, ApplyOther, ApplyRead;
    var pc := PcOf(s, t);
    assert EnsureOk(d, s, pc) by { EnsuresDeclare(c, d, s, t); }
    var inode := pc.at.inode;
    var pc' := pc.(at := Claiming);
    var mid := s.(files := s.files[inode := SetLen(s.files[inode], pc.size)]);
    var s' := Goto(mid, t, pc');
    assert s' == Apply(c, s, t, EnsureSetLen);
    assert PresentInv(c, s') by { SetLenPresent(c, d, s, inode, pc.id); }
    assert LinkInv(s') && SizeInv(d, s');
    assert LockInv(s') by { LocksKept(s, s', t, pc'); }
    assert CountInv(s') by { CountKept(s, s', t, pc'); }
    assert DeleteInv(s') by { DeletesKept(s, s', t, pc'); }
    assert ThreadInv(c, d, s') by {
      EnsuringIsOk(c, d, mid, pc', inode);
      forall u: Tid | u != t
        ensures PcOk(c, d, mid, PcOf(s, u))
      {
        SetLenKeepsPc(c, d, s, inode, pc.id, PcOf(s, u));
      }
      ThreadsMoved(c, d, s, mid, s', t, pc');
    }
  }

  // ---- read_range ----

  lemma StartReadKeeps(c: Content, d: Sizes, s: State, t: Tid, id: ObjId, bytes: Run)
    requires Inv(c, d, s) && Enabled(c, s, t, StartRead(id, bytes))
    ensures Inv(c, d, Apply(c, s, t, StartRead(id, bytes)))
  {
    hide GroupRight, WritersOf, ThreadInv, CountInv, LockInv, DeleteInv, ExtentRight, Covered, PresentInv, ApplyWriter,
         ApplyDelete, ApplyOther, ApplyEnsure;
    if id in s.records && Covered(s.records[id], bytes) && id in s.links {
      CoveredExtent(c, s, id, bytes);
      OnlyMoves(c, d, s, t, Reading(id, bytes, Seen(s.links[id])));
    }
  }

  /** A covered range is right in the file the path names. */
  lemma CoveredExtent(c: Content, s: State, id: ObjId, bytes: Run)
    requires PresentInv(c, s) && id in s.records && Covered(s.records[id], bytes)
    ensures bytes.end <= s.records[id].size
    ensures id in s.links && s.links[id] in s.files && ExtentRight(s.files[s.links[id]], c(id), bytes)
  {
    RangeReadsBack(c, s, id, bytes);
    forall p | InRun(bytes, p)
      ensures p < |s.files[s.links[id]]| && p < |c(id)| && s.files[s.links[id]][p] == c(id)[p]
    {
      ByteReadsBack(c, s, id, bytes, p);
    }
  }

  lemma OpenForReadKeeps(c: Content, d: Sizes, s: State, t: Tid)
    requires Inv(c, d, s) && Enabled(c, s, t, OpenForRead)
    ensures Inv(c, d, Apply(c, s, t, OpenForRead))
  {
    hide GroupRight, WritersOf, CountInv, LockInv, DeleteInv, ExtentRight, PresentInv, LinkInv, SizeInv;
    var pc := PcOf(s, t);
    assert PcOk(c, d, s, pc);
    if pc.id in s.links {
      OnlyMoves(c, d, s, t, pc.(reading := Open(pc.reading.seen, s.links[pc.id])));
    } else {
      OnlyMoves(c, d, s, t, Idle);
    }
  }

  lemma ReadBytesKeeps(c: Content, d: Sizes, s: State, t: Tid)
    requires Inv(c, d, s) && Enabled(c, s, t, ReadBytes)
    ensures Inv(c, d, Apply(c, s, t, ReadBytes))
  {
    hide GroupRight, WritersOf, CountInv, LockInv, DeleteInv, ExtentRight, PresentInv, LinkInv, SizeInv;
    var pc := PcOf(s, t);
    var inode := pc.reading.inode;
    assert PcOk(c, d, s, pc);
    if inode in s.files && pc.bytes.start <= pc.bytes.end <= |s.files[inode]| {
      if inode == pc.reading.seen {
        ExtentSlice(s.files[inode], c(pc.id), pc.bytes);
      }
      OnlyMoves(c, d, s, t, pc.(reading := Got(pc.reading.seen, inode, s.files[inode][pc.bytes.start..pc.bytes.end])));
    } else {
      OnlyMoves(c, d, s, t, Idle);
    }
  }

  lemma ExtentSlice(file: seq<byte>, content: seq<byte>, r: Run)
    requires ExtentRight(file, content, r)
    ensures r.start <= r.end <= |file| && r.end <= |content| && file[r.start..r.end] == content[r.start..r.end]
  {
    assert InRun(r, r.end - 1);
    forall p | r.start <= p < r.end
      ensures p < |file| && p < |content| && file[p] == content[p]
    {
      assert InRun(r, p);
    }
  }

  // ---- index-only transactions ----

  /** A step that changes no thread. */
  lemma SameThreads(s: State, s': State)
    requires s'.pcs == s.pcs && s'.writers == s.writers && s'.lock == s.lock && s'.holdLock == s.holdLock
    ensures forall t: Tid :: PcOf(s', t) == PcOf(s, t)
    ensures CountInv(s) ==> CountInv(s')
    ensures LockInv(s) ==> LockInv(s')
  {
    forall i: ObjId
      ensures WritersOf(s', i) == WritersOf(s, i)
    {
    }
  }

  /** A transaction on one record that keeps its size and marks nothing new. */
  lemma RecordTxnKeeps(c: Content, d: Sizes, s: State, id: ObjId, rec: Record)
    requires Inv(c, d, s) && id in s.records
    requires rec.size == s.records[id].size && rec.present <= s.records[id].present
    ensures Inv(c, d, s.(records := s.records[id := rec]))
  {
    hide GroupRight, PcOk, WritersOf, CountInv, LockInv;
    var s' := s.(records := s.records[id := rec]);
    SameThreads(s, s');
    assert PresentInv(c, s') by { FewerMarks(c, s, id, rec); }
    assert ThreadInv(c, d, s') by {
      forall u: Tid
        ensures PcOk(c, d, s', PcOf(s', u))
      {
        RecordRewriteKeepsPc(c, d, s, id, rec, PcOf(s, u));
      }
    }
  }

  lemma FewerMarks(c: Content, s: State, id: ObjId, rec: Record)
    requires PresentInv(c, s) && id in s.records
    requires rec.size == s.records[id].size && rec.present <= s.records[id].present
    ensures PresentInv(c, s.(records := s.records[id := rec]))
  {
    hide GroupRight;
  }

  /** Claiming a record that is absent: nothing is present in it, and no thread depends on it. */
  lemma NewRecordKeeps(c: Content, d: Sizes, s: State, id: ObjId, rec: Record)
    requires Inv(c, d, s) && id !in s.records && rec.present == {} && rec.size == d(id)
    ensures Inv(c, d, s.(records := s.records[id := rec]))
  {
    hide GroupRight, PcOk, WritersOf, CountInv, LockInv;
    var s' := s.(records := s.records[id := rec]);
    SameThreads(s, s');
    assert PresentInv(c, s');
    assert ThreadInv(c, d, s') by {
      forall u: Tid
        ensures PcOk(c, d, s', PcOf(s', u))
      {
        NewRecordKeepsPc(c, d, s, id, rec, PcOf(s, u));
      }
    }
  }

  lemma NewRecordKeepsPc(c: Content, d: Sizes, s: State, id: ObjId, rec: Record, pc: Pc)
    requires id !in s.records && PcOk(c, d, s, pc)
    ensures PcOk(c, d, s.(records := s.records[id := rec]), pc)
  {
    hide ExtentRight, DecodedAll, RangesFit;
  }

  lemma EnsureTxnKeeps(c: Content, d: Sizes, s: State, t: Tid, now: nat)
    requires Inv(c, d, s) && Enabled(c, s, t, EnsureTxn(now))
    ensures Inv(c, d, Apply(c, s, t, EnsureTxn(now)))
  {
    hide Inv, ThreadInv;
    var pc := PcOf(s, t);
    if pc.id in s.records {
      OnlyMoves(c, d, s, t, Idle);
    } else {
      assert pc.size == d(pc.id) by { InvThreads(c, d, s); EnsuresDeclare(c, d, s, t); }
      var mid := s.(records := s.records[pc.id := Record(pc.size, {}, 0, now)]);
      NewRecordKeeps(c, d, s, pc.id, Record(pc.size, {}, 0, now));
      assert PcOf(mid, t) == pc;
      OnlyMoves(c, d, mid, t, Idle);
    }
  }

  lemma PinTxnKeeps(c: Content, d: Sizes, s: State, t: Tid)
    requires Inv(c, d, s) && Enabled(c, s, t, PinTxn)
    ensures Inv(c, d, Apply(c, s, t, PinTxn))
  {
    hide Inv;
    var pc := PcOf(s, t);
    if pc.id in s.records && s.records[pc.id].refcount == 0 {
      var rec := s.records[pc.id].(refcount := 1);
      var mid := s.(records := s.records[pc.id := rec]);
      RecordTxnKeeps(c, d, s, pc.id, rec);
      assert PcOf(mid, t) == pc;
      OnlyMoves(c, d, mid, t, Idle);
    } else {
      OnlyMoves(c, d, s, t, Idle);
    }
  }

  lemma HoldKeeps(c: Content, d: Sizes, s: State, holds: map<ObjId, nat>)
    requires Inv(c, d, s) && s.holdLock.None?
    ensures Inv(c, d, s.(holds := holds))
  {
    hide GroupRight, PcOk, WritersOf, CountInv;
    var s' := s.(holds := holds);
    SameThreads(s, s');
    assert ThreadInv(c, d, s') by {
      forall u: Tid
        ensures PcOk(c, d, s', PcOf(s', u))
      {
        SameDataSamePc(c, d, s, s', PcOf(s, u));
      }
    }
  }

  // ---- every step, every run ----

  /** An `ensure_sparse` call declares the id's size; other actions declare nothing. */
  predicate Declares(d: Sizes, a: Action)
  {
    a.StartEnsure? ==> a.size == d(a.id)
  }

  /** Every step of every thread keeps the invariant. */
  lemma StepKeeps(c: Content, d: Sizes, s: State, t: Tid, a: Action)
    requires Inv(c, d, s) && Enabled(c, s, t, a) && Declares(d, a)
    ensures Inv(c, d, Apply(c, s, t, a))
  {
    hide Inv, ApplyWriter, ApplyDelete, ApplyEnsure, ApplyRead;
    match a
    case StartWrite(id, ranges, partial) => StartWriteKeeps(c, d, s, t, id, ranges, partial);
    case ReadRecord => ReadRecordKeeps(c, d, s, t);
    case OpenFiles => OpenFilesKeeps(c, d, s, t);
    case WriteLeaf(pos, leaf) => WriteLeafKeeps(c, d, s, t, pos, leaf);
    case EndDecode(ok) => EndDecodeKeeps(c, d, s, t, ok);
    case CommitBits(now) => CommitBitsKeeps(c, d, s, t, now);
    case Release => ReleaseKeeps(c, d, s, t);
    case StartRemove(id) => StartRemoveKeeps(c, d, s, t, id);
    case LockForRemove => LockForRemoveKeeps(c, d, s, t);
    case LockForEvict(id) => LockForEvictKeeps(c, d, s, t, id);
    case DeleteTxn => DeleteTxnKeeps(c, d, s, t);
    case Unlink(done) => UnlinkKeeps(c, d, s, t, done);
    case Unlock => UnlockKeeps(c, d, s, t);
    case StartEnsure(id, size) => StartEnsureKeeps(c, d, s, t, id, size);
    case EnsureOpen(node) => EnsureOpenKeeps(c, d, s, t, node);
    case EnsureTest => EnsureTestKeeps(c, d, s, t);
    case EnsureSetLen => EnsureSetLenKeeps(c, d, s, t);
    case EnsureTxn(now) => EnsureTxnKeeps(c, d, s, t, now);
    case StartRead(id, bytes) => StartReadKeeps(c, d, s, t, id, bytes);
    case OpenForRead => OpenForReadKeeps(c, d, s, t);
    case ReadBytes => ReadBytesKeeps(c, d, s, t);
    case EndRead => EndReadKeeps(c, d, s, t);
    case _ => OtherStepKeeps(c, d, s, t, a);
  }

  lemma EndReadKeeps(c: Content, d: Sizes, s: State, t: Tid)
    requires Inv(c, d, s) && Enabled(c, s, t, EndRead)
    ensures Inv(c, d, Apply(c, s, t, EndRead))
  {
    hide Inv;
    OnlyMoves(c, d, s, t, Idle);
  }

  lemma OtherStepKeeps(c: Content, d: Sizes, s: State, t: Tid, a: Action)
    requires Inv(c, d, s) && Enabled(c, s, t, a) && !WriterStep(a) && !DeleteStep(a) && !EnsureStep(a) && !ReadStep(a)
    ensures Inv(c, d, Apply(c, s, t, a))
  {
    hide Inv, ApplyWriter, ApplyDelete, ApplyEnsure, ApplyRead;
    match a
    case StartPin(id) =>
      if id in s.records && s.records[id].refcount == 0 { OnlyMoves(c, d, s, t, Pinning(id)); }
    case PinTxn => PinTxnKeeps(c, d, s, t);
    case RefDelta(id, delta) =>
      if id in s.records {
        RecordTxnKeeps(c, d, s, id, s.records[id].(refcount := Max(s.records[id].refcount + delta, 0)));
      }
    case Touch(id, now) =>
      if id in s.records {
        RecordTxnKeeps(c, d, s, id, s.records[id].(lastAccess := Max(s.records[id].lastAccess, now)));
      }
    case Shrink(id, failed) =>
      if id in s.records {
        RecordTxnKeeps(c, d, s, id, s.records[id].(present := s.records[id].present - failed));
      }
    case Hold(id) => HoldKeeps(c, d, s, Bump(s.holds, id));
    case Unhold(id) => HoldKeeps(c, d, s, Drop(s.holds, id));
  }

  datatype Event = Event(tid: Tid, action: Action)

  /** The run `events` is possible from `s`. */
  ghost predicate Possible(c: Content, s: State, events: seq<Event>)
    decreases |events|
  {
    events == [] ||
    (Enabled(c, s, events[0].tid, events[0].action) &&
     Possible(c, Apply(c, s, events[0].tid, events[0].action), events[1..]))
  }

  ghost function Outcome(c: Content, s: State, events: seq<Event>): State
    requires Possible(c, s, events)
    decreases |events|
  {
    if events == [] then s else Outcome(c, Apply(c, s, events[0].tid, events[0].action), events[1..])
  }

  /** All `ensure_sparse` calls of one id declare one size. */
  predicate OneSize(d: Sizes, events: seq<Event>)
  {
    forall i :: 0 <= i < |events| ==> Declares(d, events[i].action)
  }

  /** A store that was just opened: no threads, no holds, and whatever its records claim is on disk. */
  ghost predicate JustOpened(c: Content, d: Sizes, s: State)
  {
    && s.pcs == map[] && s.writers == map[] && s.holds == map[] && s.lock.None? && s.holdLock.None?
    && PresentInv(c, s) && LinkInv(s) && SizeInv(d, s)
  }

  lemma OpenedInv(c: Content, d: Sizes, s: State)
    requires JustOpened(c, d, s)
    ensures Inv(c, d, s)
  {
    hide PresentInv, LinkInv, SizeInv;
    assert forall t: Tid :: PcOf(s, t).Idle?;
    assert forall id: ObjId :: WritersOf(s, id) == {};
  }

  lemma {:induction false} RunKeeps(c: Content, d: Sizes, s: State, events: seq<Event>)
    requires Inv(c, d, s) && Possible(c, s, events) && OneSize(d, events)
    ensures Inv(c, d, Outcome(c, s, events))
    decreases |events|
  {
    hide Inv, Apply, Enabled, Declares;
    if events != [] {
      StepKeeps(c, d, s, events[0].tid, events[0].action);
      RunKeeps(c, d, Apply(c, s, events[0].tid, events[0].action), events[1..]);
    }
  }

  /**
   * Verified before present, over every interleaving in which the callers of an id agree on its size: whatever ran, a
   * byte range whose groups are marked present stands, right, in the file its path names at that moment.
   */
  lemma PresentRangesReadBack(c: Content, d: Sizes, s0: State, events: seq<Event>, id: ObjId, bytes: Run)
    requires JustOpened(c, d, s0) && Possible(c, s0, events) && OneSize(d, events)
    requires id in Outcome(c, s0, events).records && Covered(Outcome(c, s0, events).records[id], bytes)
    ensures var s := Outcome(c, s0, events);
            && id in s.links && s.links[id] in s.files
            && bytes.end <= |s.files[s.links[id]]| && bytes.end <= |c(id)|
            && s.files[s.links[id]][bytes.start..bytes.end] == c(id)[bytes.start..bytes.end]
  {
    hide Possible, Outcome, OneSize, JustOpened, Covered;
    OpenedInv(c, d, s0);
    RunKeeps(c, d, s0, events);
    InvPresent(c, d, Outcome(c, s0, events));
    RangeReadsBack(c, Outcome(c, s0, events), id, bytes);
  }

  lemma InvPresent(c: Content, d: Sizes, s: State)
    requires Inv(c, d, s)
    ensures PresentInv(c, s)
  {
    hide PresentInv, LinkInv, LockInv, CountInv, DeleteInv, SizeInv, ThreadInv;
  }

  lemma RangeReadsBack(c: Content, s: State, id: ObjId, bytes: Run)
    requires PresentInv(c, s) && id in s.records && Covered(s.records[id], bytes)
    ensures id in s.links && s.links[id] in s.files
    ensures bytes.end <= |s.files[s.links[id]]| && bytes.end <= |c(id)|
    ensures s.files[s.links[id]][bytes.start..bytes.end] == c(id)[bytes.start..bytes.end]
  {
    ByteReadsBack(c, s, id, bytes, bytes.end - 1);
    forall p | bytes.start <= p < bytes.end
      ensures s.files[s.links[id]][p] == c(id)[p]
    {
      ByteReadsBack(c, s, id, bytes, p);
    }
  }

  lemma ByteReadsBack(c: Content, s: State, id: ObjId, bytes: Run, p: nat)
    requires PresentInv(c, s) && id in s.records && Covered(s.records[id], bytes) && bytes.start <= p < bytes.end
    ensures id in s.links && s.links[id] in s.files
    ensures p < |s.files[s.links[id]]| && p < |c(id)| && s.files[s.links[id]][p] == c(id)[p]
  {
    var g := p / GROUP_BYTES;
    assert g in Span(GroupsForBytes(bytes));
    assert InRun(BytesOfGroup(g, s.records[id].size), p);
  }
}
