/** What `remove`, eviction and `ensure_sparse` do to the store when nothing runs between their steps. */
module SparseAlone {
  import opened Prelude
  import opened GroupRuns
  import opened GroupBitsModel
  import opened Coverage
  import opened SparseStore
  import opened SparseProofs
  import opened SparseRaces

  /** Counters, mutexes and the other threads are as they were, and thread `t` is done. */
  ghost predicate Finished(s: State, s': State, t: Tid)
  {
    && s'.writers == s.writers && s'.holds == s.holds && s'.lock == s.lock && s'.holdLock == s.holdLock
    && PcOf(s', t).Idle? && forall u: Tid :: u != t ==> PcOf(s', u) == PcOf(s, u)
  }

  /** One step of thread `t`, and what it leaves of the other threads. */
  lemma Does(c: Content, s: State, t: Tid, a: Action) returns (s': State)
    requires Enabled(c, s, t, a)
    ensures Leads(c, s, [Event(t, a)], s') && s' == Apply(c, s, t, a)
  {
    hide Leads, Apply, Enabled;
    s' := Apply(c, s, t, a);
    Step(c, s, t, a, s');
  }

  /** Thread `t` got to `pc`; the others and the counters are where they were. */
  ghost predicate Moved(s: State, s': State, t: Tid, pc: Pc)
  {
    s'.writers == s.writers && s'.holds == s.holds && PcOf(s', t) == pc && forall u: Tid :: u != t ==> PcOf(s', u) == PcOf(s, u)
  }

  lemma DoesDelete(c: Content, s: State, t: Tid, id: ObjId, evicting: bool) returns (s': State)
    requires PcOf(s, t) == Deleting(id, evicting, Locked)
    ensures Leads(c, s, [Event(t, DeleteTxn)], s')
    ensures var takes := !evicting || (id in s.records && s.records[id].refcount == 0);
            && s' == s.(records := if takes then s.records - {id} else s.records, pcs := s'.pcs)
            && Moved(s, s', t, Deleting(id, evicting, if takes then Unlinking else Unlocking))
  {
    hide Leads, ApplyWriter, ApplyEnsure, ApplyRead, ApplyOther;
    s' := Does(c, s, t, DeleteTxn);
  }

  lemma DoesUnlink(c: Content, s: State, t: Tid, id: ObjId, evicting: bool) returns (s': State)
    requires PcOf(s, t) == Deleting(id, evicting, Unlinking)
    ensures Leads(c, s, [Event(t, Unlink(true))], s')
    ensures s' == s.(links := s.links - {id}, pcs := s'.pcs) && Moved(s, s', t, Deleting(id, evicting, Unlocking))
  {
    hide Leads, ApplyWriter, ApplyEnsure, ApplyRead, ApplyOther;
    s' := Does(c, s, t, Unlink(true));
  }

  lemma DoesUnlock(c: Content, s: State, t: Tid, id: ObjId, evicting: bool) returns (s': State)
    requires PcOf(s, t) == Deleting(id, evicting, Unlocking)
    ensures Leads(c, s, [Event(t, Unlock)], s')
    ensures s' == s.(lock := None, holdLock := if evicting then None else s.holdLock, pcs := s'.pcs) && Moved(s, s', t, Idle)
  {
    hide Leads, ApplyWriter, ApplyEnsure, ApplyRead, ApplyOther;
    s' := Does(c, s, t, Unlock);
  }

  /** A delete that holds the lock, up to its end: the record and the path go, if the delete may take them. */
  lemma DeletesLocked(c: Content, s: State, t: Tid, id: ObjId, evicting: bool) returns (e: seq<Event>, s': State)
    requires PcOf(s, t) == Deleting(id, evicting, Locked)
    ensures Leads(c, s, e, s')
    ensures var takes := !evicting || (id in s.records && s.records[id].refcount == 0);
            && s'.records == (if takes then s.records - {id} else s.records)
            && s'.links == (if takes then s.links - {id} else s.links)
    ensures s'.files == s.files && s'.owners == s.owners
    ensures Finished(s.(lock := None, holdLock := if evicting then None else s.holdLock), s', t)
  {
    hide Leads;
    var s1 := DoesDelete(c, s, t, id, evicting);
    e := [Event(t, DeleteTxn)];
    var s2 := s1;
    if PcOf(s1, t).phase.Unlinking? {
      s2 := DoesUnlink(c, s1, t, id, evicting);
      Then(c, s, e, s1, [Event(t, Unlink(true))], s2);
      e := e + [Event(t, Unlink(true))];
    }
    s' := DoesUnlock(c, s2, t, id, evicting);
    Then(c, s, e, s2, [Event(t, Unlock)], s');
    e := e + [Event(t, Unlock)];
  }

  lemma DoesLookUp(c: Content, s: State, t: Tid, id: ObjId) returns (s': State)
    requires PcOf(s, t).Idle?
    ensures Leads(c, s, [Event(t, StartRemove(id))], s')
    ensures s' == if id in s.records then s.(pcs := s'.pcs) else s
    ensures Moved(s, s', t, if id in s.records then RemoveSeen(id) else Idle)
  {
    hide Leads, ApplyWriter, ApplyEnsure, ApplyRead, ApplyOther;
    s' := Does(c, s, t, StartRemove(id));
  }

  lemma DoesLockRemove(c: Content, s: State, t: Tid, id: ObjId) returns (s': State)
    requires PcOf(s, t) == RemoveSeen(id) && s.lock.None?
    ensures Leads(c, s, [Event(t, LockForRemove)], s')
    ensures var busy := id in s.writers;
            && s' == s.(lock := if busy then None else Some(t), pcs := s'.pcs)
            && Moved(s, s', t, if busy then Idle else Deleting(id, false, Locked))
  {
    hide Leads, ApplyWriter, ApplyEnsure, ApplyRead, ApplyOther;
    s' := Does(c, s, t, LockForRemove);
  }

  lemma DoesLockEvict(c: Content, s: State, t: Tid, id: ObjId) returns (s': State)
    requires PcOf(s, t).Idle? && s.lock.None? && s.holdLock.None?
    ensures Leads(c, s, [Event(t, LockForEvict(id))], s')
    ensures if id in s.writers || id in s.holds then s' == s
            else s' == s.(lock := Some(t), holdLock := Some(t), pcs := s'.pcs) && Moved(s, s', t, Deleting(id, true, Locked))
  {
    hide Leads, ApplyWriter, ApplyEnsure, ApplyRead, ApplyOther;
    s' := Does(c, s, t, LockForEvict(id));
  }

  /** A remove takes the record and the path of an object that is not being written, and leaves any other alone. */
  lemma RemoveAlone(c: Content, s: State, t: Tid, id: ObjId) returns (e: seq<Event>, s': State)
    requires PcOf(s, t).Idle? && s.lock.None?
    ensures Leads(c, s, e, s') && Finished(s, s', t) && s'.files == s.files && s'.owners == s.owners
    ensures var takes := id in s.records && id !in s.writers;
            && s'.records == (if takes then s.records - {id} else s.records)
            && s'.links == (if takes then s.links - {id} else s.links)
  {
    hide Leads;
    s' := DoesLookUp(c, s, t, id);
    e := [Event(t, StartRemove(id))];
    if id in s.records {
      var s1 := s';
      s' := DoesLockRemove(c, s1, t, id);
      Then(c, s, e, s1, [Event(t, LockForRemove)], s');
      e := e + [Event(t, LockForRemove)];
      if id !in s.writers {
        var s2 := s';
        var f;
        f, s' := DeletesLocked(c, s2, t, id, false);
        Then(c, s, e, s2, f, s');
        e := e + f;
      }
    }
  }

  /** An eviction takes exactly the objects nobody refers to, writes to or holds. */
  lemma EvictAlone(c: Content, s: State, t: Tid, id: ObjId) returns (e: seq<Event>, s': State)
    requires PcOf(s, t).Idle? && s.lock.None? && s.holdLock.None?
    ensures Leads(c, s, e, s') && Finished(s, s', t) && s'.files == s.files && s'.owners == s.owners
    ensures var takes := id in s.records && s.records[id].refcount == 0 && id !in s.writers && id !in s.holds;
            && s'.records == (if takes then s.records - {id} else s.records)
            && s'.links == (if takes then s.links - {id} else s.links)
  {
    hide Leads;
    s' := DoesLockEvict(c, s, t, id);
    e := [Event(t, LockForEvict(id))];
    if id !in s.writers && id !in s.holds {
      var s1 := s';
      var f;
      f, s' := DeletesLocked(c, s1, t, id, true);
      Then(c, s, e, s1, f, s');
      e := e + f;
    }
  }

  /** The bytes of the file a path names. */
  function FileAt(s: State, id: ObjId): seq<byte>
  {
    if id in s.links && s.links[id] in s.files then s.files[s.links[id]] else []
  }

  /** `file` is `was` with zeros behind it up to `size`. */
  ghost predicate Extended(was: seq<byte>, size: nat, file: seq<byte>)
  {
    |file| == Max(|was|, size) && was <= file && forall p :: |was| <= p < |file| ==> file[p] == 0
  }

  lemma DoesOpen(c: Content, s: State, t: Tid, id: ObjId, size: nat, node: Inode) returns (s': State)
    requires PcOf(s, t) == Ensuring(id, size, Opening) && node !in s.files && (id in s.links ==> s.links[id] in s.files)
    ensures Leads(c, s, [Event(t, EnsureOpen(node))], s')
    ensures s' == s.(links := s'.links, files := s'.files, owners := s'.owners, pcs := s'.pcs)
    ensures s'.links.Keys == s.links.Keys + {id} && s'.links[id] in s'.files && FileAt(s', id) == FileAt(s, id)
    ensures Moved(s, s', t, Ensuring(id, size, Testing(s'.links[id])))
  {
    hide Leads, ApplyWriter, ApplyDelete, ApplyRead, ApplyOther;
    s' := Does(c, s, t, EnsureOpen(node));
  }

  lemma DoesTest(c: Content, s: State, t: Tid, id: ObjId, size: nat, inode: Inode) returns (s': State)
    requires PcOf(s, t) == Ensuring(id, size, Testing(inode)) && inode in s.files
    ensures Leads(c, s, [Event(t, EnsureTest)], s')
    ensures s' == s.(pcs := s'.pcs)
    ensures Moved(s, s', t, Ensuring(id, size, if |s.files[inode]| < size then Sizing(inode) else Claiming))
  {
    hide Leads, ApplyWriter, ApplyDelete, ApplyRead, ApplyOther;
    s' := Does(c, s, t, EnsureTest);
  }

  lemma DoesSize(c: Content, s: State, t: Tid, id: ObjId, size: nat, inode: Inode) returns (s': State)
    requires PcOf(s, t) == Ensuring(id, size, Sizing(inode)) && inode in s.files
    ensures Leads(c, s, [Event(t, EnsureSetLen)], s')
    ensures s' == s.(files := s.files[inode := SetLen(s.files[inode], size)], pcs := s'.pcs)
    ensures Moved(s, s', t, Ensuring(id, size, Claiming))
  {
    hide Leads, ApplyWriter, ApplyDelete, ApplyRead, ApplyOther, SetLen;
    s' := Does(c, s, t, EnsureSetLen);
  }

  lemma SetLenExtends(was: seq<byte>, size: nat)
    requires |was| < size
    ensures Extended(was, size, SetLen(was, size))
  {
  }

  lemma LongEnough(was: seq<byte>, size: nat)
    requires |was| >= size
    ensures Extended(was, size, was)
  {
  }

  /** The steps of `ensure_sparse` up to the claim: a file under the path, at least as long as declared. */
  lemma EnsuresFile(c: Content, s: State, t: Tid, id: ObjId, size: nat, node: Inode) returns (e: seq<Event>, s': State)
    requires PcOf(s, t) == Ensuring(id, size, Opening) && node !in s.files && (id in s.links ==> s.links[id] in s.files)
    ensures Leads(c, s, e, s') && Moved(s, s', t, Ensuring(id, size, Claiming))
    ensures s'.records == s.records && s'.lock == s.lock && s'.holdLock == s.holdLock && s'.links.Keys == s.links.Keys + {id}
    ensures Extended(FileAt(s, id), size, FileAt(s', id))
  {
    hide Leads, SetLen, Extended;
    var s1 := DoesOpen(c, s, t, id, size, node);
    var inode := s1.links[id];
    var s2 := DoesTest(c, s1, t, id, size, inode);
    e := [Event(t, EnsureOpen(node))];
    Then(c, s, e, s1, [Event(t, EnsureTest)], s2);
    e := e + [Event(t, EnsureTest)];
    s' := s2;
    if |s1.files[inode]| < size {
      s' := DoesSize(c, s2, t, id, size, inode);
      Then(c, s, e, s2, [Event(t, EnsureSetLen)], s');
      e := e + [Event(t, EnsureSetLen)];
      SetLenExtends(s1.files[inode], size);
    } else {
      LongEnough(s1.files[inode], size);
    }
  }

  lemma DoesClaim(c: Content, s: State, t: Tid, id: ObjId, size: nat, now: nat) returns (s': State)
    requires PcOf(s, t) == Ensuring(id, size, Claiming) && id !in s.records
    ensures Leads(c, s, [Event(t, EnsureTxn(now))], s')
    ensures s' == s.(records := s.records[id := Record(size, {}, 0, now)], pcs := s'.pcs) && Moved(s, s', t, Idle)
  {
    hide Leads, ApplyWriter, ApplyDelete, ApplyRead, ApplyOther, SetLen;
    s' := Does(c, s, t, EnsureTxn(now));
  }

  lemma DoesStart(c: Content, s: State, t: Tid, id: ObjId, size: nat) returns (s': State)
    requires PcOf(s, t).Idle?
    ensures Leads(c, s, [Event(t, StartEnsure(id, size))], s')
    ensures if size > MAX_OBJECT_BYTES || id in s.records then s' == s
            else s' == s.(pcs := s'.pcs) && Moved(s, s', t, Ensuring(id, size, Opening))
  {
    hide Leads, ApplyWriter, ApplyDelete, ApplyRead, ApplyOther, SetLen;
    s' := Does(c, s, t, StartEnsure(id, size));
  }

  /**
   * `ensure_sparse` of an id without a record makes one of the declared size with nothing present, over a file that
   * keeps what it held and is zeros from there to the declared size. Over the cap, or with a record, it does nothing.
   */
  lemma EnsureAlone(c: Content, s: State, t: Tid, id: ObjId, size: nat, node: Inode, now: nat) returns (e: seq<Event>, s': State)
    requires PcOf(s, t).Idle? && node !in s.files && (id in s.links ==> s.links[id] in s.files)
    ensures Leads(c, s, e, s') && Finished(s, s', t)
    ensures if size > MAX_OBJECT_BYTES || id in s.records then s' == s
            else
              && s'.records == s.records[id := Record(size, {}, 0, now)] && s'.links.Keys == s.links.Keys + {id}
              && Extended(FileAt(s, id), size, FileAt(s', id))
  {
    hide Leads, Extended, SetLen;
    s' := DoesStart(c, s, t, id, size);
    e := [Event(t, StartEnsure(id, size))];
    if size <= MAX_OBJECT_BYTES && id !in s.records {
      var s1 := s';
      var f, s2 := EnsuresFile(c, s1, t, id, size, node);
      Then(c, s, e, s1, f, s2);
      e := e + f;
      s' := DoesClaim(c, s2, t, id, size, now);
      Then(c, s, e, s2, [Event(t, EnsureTxn(now))], s');
      e := e + [Event(t, EnsureTxn(now))];
    }
  }

  lemma DoesStartWrite(c: Content, s: State, t: Tid, id: ObjId, ranges: seq<Run>, partial: bool) returns (s': State)
    requires PcOf(s, t).Idle? && s.lock.None?
    ensures Leads(c, s, [Event(t, StartWrite(id, ranges, partial))], s')
    ensures s' == s.(writers := Bump(s.writers, id), pcs := s'.pcs)
    ensures PcOf(s', t) == Writing(id, ranges, partial, Registered) && forall u: Tid :: u != t ==> PcOf(s', u) == PcOf(s, u)
  {
    hide Leads, ApplyDelete, ApplyEnsure, ApplyRead, ApplyOther, Bump;
    s' := Does(c, s, t, StartWrite(id, ranges, partial));
  }

  lemma DoesReadRecord(c: Content, s: State, t: Tid, pc: Pc) returns (s': State)
    requires PcOf(s, t) == pc && pc.Writing? && pc.stage.Registered?
    ensures Leads(c, s, [Event(t, ReadRecord)], s') && s' == s.(pcs := s'.pcs)
    ensures var fits := pc.id in s.records && forall i :: 0 <= i < |pc.ranges| ==> pc.ranges[i].end <= s.records[pc.id].size;
            Moved(s, s', t, pc.(stage := if fits then RecordRead(s.records[pc.id].size) else Releasing))
  {
    hide Leads, ApplyDelete, ApplyEnsure, ApplyRead, ApplyOther;
    s' := Does(c, s, t, ReadRecord);
  }

  lemma DoesOpenFiles(c: Content, s: State, t: Tid, pc: Pc) returns (s': State)
    requires PcOf(s, t) == pc && pc.Writing? && pc.stage.RecordRead?
    ensures Leads(c, s, [Event(t, OpenFiles)], s') && s' == s.(pcs := s'.pcs)
    ensures Moved(s, s', t, pc.(stage := if pc.id in s.links then Decoding(pc.stage.size, s.links[pc.id], []) else Releasing))
  {
    hide Leads, ApplyDelete, ApplyEnsure, ApplyRead, ApplyOther;
    s' := Does(c, s, t, OpenFiles);
  }

  /** What the steps of a write before its decode change: the writer is counted. */
  ghost predicate Registers(s: State, s': State, t: Tid, id: ObjId, pc: Pc)
  {
    && s' == s.(writers := Bump(s.writers, id), pcs := s'.pcs) && PcOf(s', t) == pc
    && forall u: Tid :: u != t ==> PcOf(s', u) == PcOf(s, u)
  }

  /**
   * A write gets to its decode exactly if the object has a record that none of its ranges exceeds and a file; otherwise
   * it ends in an error with nothing written.
   */
  lemma WriteOpens(c: Content, s: State, t: Tid, id: ObjId, ranges: seq<Run>, partial: bool) returns (e: seq<Event>, s': State)
    requires PcOf(s, t).Idle? && s.lock.None?
    ensures Leads(c, s, e, s')
    ensures var opens := id in s.records && id in s.links && forall i :: 0 <= i < |ranges| ==> ranges[i].end <= s.records[id].size;
            Registers(s, s', t, id, Writing(id, ranges, partial,
                                            if opens then Decoding(s.records[id].size, s.links[id], []) else Releasing))
  {
    hide Leads, Bump;
    var pc := Writing(id, ranges, partial, Registered);
    var s1 := DoesStartWrite(c, s, t, id, ranges, partial);
    e := [Event(t, StartWrite(id, ranges, partial))];
    s' := DoesReadRecord(c, s1, t, pc);
    Then(c, s, e, s1, [Event(t, ReadRecord)], s');
    e := e + [Event(t, ReadRecord)];
    if PcOf(s', t).stage.RecordRead? {
      var s2 := s';
      s' := DoesOpenFiles(c, s2, t, PcOf(s2, t));
      Then(c, s, e, s2, [Event(t, OpenFiles)], s');
      e := e + [Event(t, OpenFiles)];
    }
  }

  /** A write that was counted is counted no more when it is done, and changes nothing else on the way out. */
  lemma WriteReleases(c: Content, s: State, t: Tid, id: ObjId) returns (s': State)
    requires PcOf(s, t).Writing? && PcOf(s, t).stage.Releasing? && s.lock.None?
    requires PcOf(s, t).id == id && id in s.writers && s.writers[id] > 0
    ensures Leads(c, s, [Event(t, Release)], s') && s' == s.(writers := s'.writers, pcs := s'.pcs) && PcOf(s', t).Idle?
    ensures forall o :: o != id ==> (o in s'.writers <==> o in s.writers) && (o in s.writers ==> s'.writers[o] == s.writers[o])
    ensures if s.writers[id] == 1 then id !in s'.writers else id in s'.writers && s'.writers[id] == s.writers[id] - 1
    ensures forall u: Tid :: u != t ==> PcOf(s', u) == PcOf(s, u)
  {
    hide Leads, ApplyDelete, ApplyEnsure, ApplyRead, ApplyOther;
    s' := Does(c, s, t, Release);
  }
}
