/**
 * Runs in which the sparse store fails: callers that declare different sizes, a record that loses its file, a read
 * that returns bytes nobody wrote.
 */
module SparseRaces {
  import opened Prelude
  import opened GroupRuns
  import opened GroupBitsModel
  import opened Coverage
  import opened SparseStore
  import opened SparseProofs
  import opened SparseReads
  import opened SparseLinks

  // ---- putting runs together ----

  ghost predicate Leads(c: Content, s: State, events: seq<Event>, s': State)
  {
    Possible(c, s, events) && Outcome(c, s, events) == s'
  }

  lemma Step(c: Content, s: State, t: Tid, a: Action, s': State)
    requires Enabled(c, s, t, a) && Apply(c, s, t, a) == s'
    ensures Leads(c, s, [Event(t, a)], s')
  {
    hide Apply, Enabled;
    var e := [Event(t, a)];
    assert e[1..] == [] && Possible(c, s', []) && Outcome(c, s', []) == s';
    assert e[0].tid == t && e[0].action == a;
    assert Possible(c, s, e) && Outcome(c, s, e) == Outcome(c, s', e[1..]);
  }

  lemma {:induction false} Then(c: Content, s: State, e: seq<Event>, mid: State, f: seq<Event>, s': State)
    requires Leads(c, s, e, mid) && Leads(c, mid, f, s')
    ensures Leads(c, s, e + f, s')
    decreases |e|
  {
    hide Apply, Enabled;
    if e == [] {
      assert e + f == f;
    } else {
      assert (e + f)[1..] == e[1..] + f;
      Then(c, Apply(c, s, e[0].tid, e[0].action), e[1..], mid, f, s');
    }
  }

  /** Thread moves in a row count as the last one. */
  lemma LastMove(s: State, t: Tid, pc: Pc, next: Pc)
    ensures Goto(Goto(s, t, pc), t, next) == Goto(s, t, next)
    ensures PcOf(Goto(s, t, pc), t) == pc
  {
    assert s.pcs[t := pc][t := next] == s.pcs[t := next];
  }

  // ---- ensure_sparse, alone ----

  lemma Starts(c: Content, s: State, t: Tid, id: ObjId, size: nat)
    requires PcOf(s, t).Idle? && id !in s.records && size <= MAX_OBJECT_BYTES
    ensures Leads(c, s, [Event(t, StartEnsure(id, size))], Goto(s, t, Ensuring(id, size, Opening)))
  {
    hide Leads, ApplyWriter, ApplyDelete, ApplyOther, ApplyRead, Goto;
    Step(c, s, t, StartEnsure(id, size), Goto(s, t, Ensuring(id, size, Opening)));
  }

  lemma Tests(c: Content, s: State, t: Tid, id: ObjId, size: nat, inode: Inode)
    requires PcOf(s, t) == Ensuring(id, size, Testing(inode)) && inode in s.files
    ensures Leads(c, s, [Event(t, EnsureTest)], Goto(s, t, Ensuring(id, size, if |s.files[inode]| < size then Sizing(inode) else Claiming)))
  {
    hide Leads, ApplyWriter, ApplyDelete, ApplyOther, ApplyRead, Goto;
    Step(c, s, t, EnsureTest, Goto(s, t, Ensuring(id, size, if |s.files[inode]| < size then Sizing(inode) else Claiming)));
  }

  /** The call up to its length test, for an id without a file. */
  lemma OpensFresh(c: Content, s: State, t: Tid, id: ObjId, size: nat, node: Inode) returns (e: seq<Event>)
    requires PcOf(s, t).Idle? && id !in s.records && id !in s.links && node !in s.files && 0 < size <= MAX_OBJECT_BYTES
    ensures Leads(c, s, e, Goto(Made(s, id, node), t, Ensuring(id, size, Sizing(node))))
    ensures forall i :: 0 <= i < |e| ==> e[i].tid == t && (e[i].action.StartEnsure? ==> e[i].action == StartEnsure(id, size))
  {
    hide Leads, ApplyWriter, ApplyDelete, ApplyOther, ApplyRead, SetLen, Goto, PcOf;
    var made := Made(s, id, node);
    var p1, p2, p3 := Ensuring(id, size, Opening), Ensuring(id, size, Testing(node)), Ensuring(id, size, Sizing(node));
    LastMove(s, t, p1, p2);
    GotoKeepsData(s, t, p1);
    Starts(c, s, t, id, size);
    assert Goto(made, t, p2) == Goto(Made(Goto(s, t, p1), id, node), t, p2) by { MadeGoto(s, t, p1, p2, id, node); }
    Step(c, Goto(s, t, p1), t, EnsureOpen(node), Goto(made, t, p2));
    LastMove(made, t, p2, p3);
    GotoKeepsData(made, t, p2);
    Tests(c, Goto(made, t, p2), t, id, size, node);
    e := [Event(t, StartEnsure(id, size))];
    Then(c, s, e, Goto(s, t, p1), [Event(t, EnsureOpen(node))], Goto(made, t, p2));
    e := e + [Event(t, EnsureOpen(node))];
    Then(c, s, e, Goto(made, t, p2), [Event(t, EnsureTest)], Goto(made, t, p3));
    e := e + [Event(t, EnsureTest)];
  }

  /** A fresh empty file under the path of `id`. */
  function Made(s: State, id: ObjId, node: Inode): State
  {
    s.(links := s.links[id := node], files := s.files[node := []], owners := s.owners[node := id])
  }

  lemma MadeGoto(s: State, t: Tid, pc: Pc, next: Pc, id: ObjId, node: Inode)
    ensures Goto(Made(s, id, node), t, next) == Goto(Made(Goto(s, t, pc), id, node), t, next)
  {
    assert s.pcs[t := pc][t := next] == s.pcs[t := next];
  }

  lemma GotoKeepsData(s: State, t: Tid, pc: Pc)
    ensures var g := Goto(s, t, pc);
            g.records == s.records && g.links == s.links && g.files == s.files && g.owners == s.owners && g.writers == s.writers &&
            g.holds == s.holds && g.lock == s.lock && g.holdLock == s.holdLock
  {
  }

  /** The call up to its length test, for an id with a file. */
  lemma OpensLinked(c: Content, s: State, t: Tid, id: ObjId, size: nat, node: Inode) returns (e: seq<Event>)
    requires PcOf(s, t).Idle? && id !in s.records && id in s.links && s.links[id] in s.files && node !in s.files
    requires size <= MAX_OBJECT_BYTES
    ensures var inode := s.links[id];
            Leads(c, s, e, Goto(s, t, Ensuring(id, size, if |s.files[inode]| < size then Sizing(inode) else Claiming)))
    ensures forall i :: 0 <= i < |e| ==> e[i].tid == t && (e[i].action.StartEnsure? ==> e[i].action == StartEnsure(id, size))
  {
    hide Leads, ApplyWriter, ApplyDelete, ApplyOther, ApplyRead, SetLen, Goto, PcOf;
    var inode := s.links[id];
    var p1, p2 := Ensuring(id, size, Opening), Ensuring(id, size, Testing(inode));
    var p3 := Ensuring(id, size, if |s.files[inode]| < size then Sizing(inode) else Claiming);
    LastMove(s, t, p1, p2);
    LastMove(s, t, p2, p3);
    GotoKeepsData(s, t, p1);
    GotoKeepsData(s, t, p2);
    Starts(c, s, t, id, size);
    Step(c, Goto(s, t, p1), t, EnsureOpen(node), Goto(s, t, p2));
    Tests(c, Goto(s, t, p2), t, id, size, inode);
    e := [Event(t, StartEnsure(id, size))];
    Then(c, s, e, Goto(s, t, p1), [Event(t, EnsureOpen(node))], Goto(s, t, p2));
    e := e + [Event(t, EnsureOpen(node))];
    Then(c, s, e, Goto(s, t, p2), [Event(t, EnsureTest)], Goto(s, t, p3));
    e := e + [Event(t, EnsureTest)];
  }

  /** The `set_len` and the claim of the record. */
  lemma SizesAndClaims(c: Content, s: State, t: Tid, id: ObjId, size: nat, inode: Inode) returns (e: seq<Event>)
    requires PcOf(s, t) == Ensuring(id, size, Sizing(inode)) && id !in s.records && inode in s.files
    ensures Leads(c, s, e, Goto(s.(files := s.files[inode := SetLen(s.files[inode], size)],
                                   records := s.records[id := Record(size, {}, 0, 0)]), t, Idle))
    ensures forall i :: 0 <= i < |e| ==> e[i].tid == t && !e[i].action.StartEnsure?
  {
    hide Leads, ApplyWriter, ApplyDelete, ApplyOther, ApplyRead, SetLen, Goto, PcOf;
    var sized := s.(files := s.files[inode := SetLen(s.files[inode], size)]);
    var p := Ensuring(id, size, Claiming);
    Step(c, s, t, EnsureSetLen, Goto(sized, t, p));
    LastMove(sized, t, p, Idle);
    GotoKeepsData(sized, t, p);
    Claims(c, Goto(sized, t, p), t, id, size);
    assert Goto(Goto(sized, t, p).(records := s.records[id := Record(size, {}, 0, 0)]), t, Idle) ==
           Goto(sized.(records := s.records[id := Record(size, {}, 0, 0)]), t, Idle) by {
      RecordsGoto(sized, t, p, s.records[id := Record(size, {}, 0, 0)]);
    }
    e := [Event(t, EnsureSetLen)];
    Then(c, s, e, Goto(sized, t, p), [Event(t, EnsureTxn(0))],
         Goto(sized.(records := s.records[id := Record(size, {}, 0, 0)]), t, Idle));
    e := e + [Event(t, EnsureTxn(0))];
  }

  lemma RecordsGoto(s: State, t: Tid, pc: Pc, records: map<ObjId, Record>)
    ensures Goto(Goto(s, t, pc).(records := records), t, Idle) == Goto(s.(records := records), t, Idle)
  {
    assert s.pcs[t := pc][t := Idle] == s.pcs[t := Idle];
  }

  lemma Claims(c: Content, s: State, t: Tid, id: ObjId, size: nat)
    requires PcOf(s, t) == Ensuring(id, size, Claiming) && id !in s.records
    ensures Leads(c, s, [Event(t, EnsureTxn(0))], Goto(s.(records := s.records[id := Record(size, {}, 0, 0)]), t, Idle))
  {
    hide Leads, ApplyWriter, ApplyDelete, ApplyOther, ApplyRead, Goto, PcOf;
    Step(c, s, t, EnsureTxn(0), Goto(s.(records := s.records[id := Record(size, {}, 0, 0)]), t, Idle));
  }

  // ---- one slice written, alone ----

  function Slice(id: ObjId, r: Run, stage: Stage): Pc { Writing(id, [r], true, stage) }

  lemma BumpDrop(m: map<ObjId, nat>, id: ObjId)
    requires id !in m
    ensures Drop(Bump(m, id), id) == m
  {
    assert m[id := 1] - {id} == m;
  }

  /** The writer up to its decode: registered, record read, file open. */
  lemma StartsSlice(c: Content, s: State, t: Tid, id: ObjId, r: Run) returns (e: seq<Event>)
    requires PcOf(s, t).Idle? && s.lock.None? && id in s.records && id in s.links && r.end <= s.records[id].size
    ensures Leads(c, s, e, Goto(s.(writers := Bump(s.writers, id)), t, Slice(id, r, Decoding(s.records[id].size, s.links[id], []))))
    ensures forall i :: 0 <= i < |e| ==> e[i].tid == t && !e[i].action.StartEnsure?
  {
    hide Leads, ApplyEnsure, ApplyDelete, ApplyOther, ApplyRead, Goto, PcOf, Bump;
    var w := s.(writers := Bump(s.writers, id));
    var size := s.records[id].size;
    var p1, p2, p3 := Slice(id, r, Registered), Slice(id, r, RecordRead(size)), Slice(id, r, Decoding(size, s.links[id], []));
    LastMove(w, t, p1, p2);
    LastMove(w, t, p2, p3);
    GotoKeepsData(w, t, p1);
    GotoKeepsData(w, t, p2);
    Step(c, s, t, StartWrite(id, [r], true), Goto(w, t, p1));
    Step(c, Goto(w, t, p1), t, ReadRecord, Goto(w, t, p2));
    Step(c, Goto(w, t, p2), t, OpenFiles, Goto(w, t, p3));
    e := [Event(t, StartWrite(id, [r], true))];
    Then(c, s, e, Goto(w, t, p1), [Event(t, ReadRecord)], Goto(w, t, p2));
    e := e + [Event(t, ReadRecord)];
    Then(c, s, e, Goto(w, t, p2), [Event(t, OpenFiles)], Goto(w, t, p3));
    e := e + [Event(t, OpenFiles)];
  }

  /** The state after the one leaf of `r` was decoded and committed. */
  ghost function Landed(c: Content, s: State, id: ObjId, r: Run): State
    requires id in s.records && id in s.links && s.links[id] in s.files && r.start < r.end <= |c(id)|
  {
    var rec := s.records[id];
    var marks := Marks(Slice(id, r, Decoded(rec.size, s.links[id], [r], false)));
    s.(files := s.files[s.links[id] := WriteAt(s.files[s.links[id]], r.start, c(id)[r.start..r.end])],
       records := s.records[id := rec.(present := rec.present + marks, lastAccess := Max(rec.lastAccess, 0))])
  }

  lemma DecodesLeaf(c: Content, s: State, t: Tid, id: ObjId, r: Run) returns (e: seq<Event>)
    requires id in s.records && id in s.links && s.links[id] in s.files && r.start < r.end <= |c(id)| && r.end <= s.records[id].size
    requires PcOf(s, t) == Slice(id, r, Decoding(s.records[id].size, s.links[id], []))
    requires Marks(Slice(id, r, Decoded(s.records[id].size, s.links[id], [r], false))) != {}
    ensures Leads(c, s, e, Goto(Landed(c, s, id, r), t, Slice(id, r, Releasing)))
    ensures forall i :: 0 <= i < |e| ==> e[i].tid == t && !e[i].action.StartEnsure?
  {
    hide Leads, ApplyEnsure, ApplyDelete, ApplyOther, ApplyRead, Goto, PcOf, WriteAt, Marks, DecodedAll;
    var size, inode := s.records[id].size, s.links[id];
    var leaf := c(id)[r.start..r.end];
    var f := s.(files := s.files[inode := WriteAt(s.files[inode], r.start, leaf)]);
    var p1, p2 := Slice(id, r, Decoding(size, inode, [r])), Slice(id, r, Decoded(size, inode, [r], false));
    assert r == Run(r.start, r.start + |leaf|);
    assert Track([], r.start, r.start + |leaf|) == [r];
    LastMove(s, t, p1, p2);
    LastMove(f, t, p1, p2);
    GotoKeepsData(f, t, p1);
    GotoKeepsData(f, t, p2);
    Step(c, s, t, WriteLeaf(r.start, leaf), Goto(f, t, p1));
    Step(c, Goto(f, t, p1), t, EndDecode(false), Goto(f, t, p2));
    assert PcOf(Goto(f, t, p2), t) == p2 by { LastMove(f, t, p2, p2); }
    var done := Goto(Landed(c, s, id, r), t, Slice(id, r, Releasing));
    assert Goto(Goto(f, t, p2).(records := Landed(c, s, id, r).records), t, Slice(id, r, Releasing)) == done by {
      RecordsMove(f, t, p2, Landed(c, s, id, r).records, Slice(id, r, Releasing));
    }
    Step(c, Goto(f, t, p2), t, CommitBits(0), done);
    e := [Event(t, WriteLeaf(r.start, leaf))];
    Then(c, s, e, Goto(f, t, p1), [Event(t, EndDecode(false))], Goto(f, t, p2));
    e := e + [Event(t, EndDecode(false))];
    Then(c, s, e, Goto(f, t, p2), [Event(t, CommitBits(0))], done);
    e := e + [Event(t, CommitBits(0))];
  }

  lemma RecordsMove(s: State, t: Tid, pc: Pc, records: map<ObjId, Record>, next: Pc)
    ensures Goto(Goto(s, t, pc).(records := records), t, next) == Goto(s.(records := records), t, next)
  {
    assert s.pcs[t := pc][t := next] == s.pcs[t := next];
  }

  /** A partial write of one leaf, from start to end. */
  lemma WritesSlice(c: Content, s: State, t: Tid, id: ObjId, r: Run) returns (e: seq<Event>)
    requires PcOf(s, t).Idle? && s.lock.None? && id !in s.writers
    requires id in s.records && id in s.links && s.links[id] in s.files && r.start < r.end <= |c(id)| && r.end <= s.records[id].size
    requires Marks(Slice(id, r, Decoded(s.records[id].size, s.links[id], [r], false))) != {}
    ensures Leads(c, s, e, Goto(Landed(c, s, id, r), t, Idle))
    ensures forall i :: 0 <= i < |e| ==> e[i].tid == t && !e[i].action.StartEnsure?
  {
    hide Leads, ApplyEnsure, ApplyDelete, ApplyOther, ApplyRead, Goto, PcOf, WriteAt, Marks, DecodedAll, Bump, Drop;
    var w := s.(writers := Bump(s.writers, id));
    var p := Slice(id, r, Decoding(s.records[id].size, s.links[id], []));
    e := StartsSlice(c, s, t, id, r);
    LastMove(w, t, p, p);
    GotoKeepsData(w, t, p);
    var f := DecodesLeaf(c, Goto(w, t, p), t, id, r);
    var q := Slice(id, r, Releasing);
    assert Goto(Landed(c, Goto(w, t, p), id, r), t, q) == Goto(Landed(c, w, id, r), t, q) by { LandedGoto(c, w, t, p, id, r, q); }
    Then(c, s, e, Goto(w, t, p), f, Goto(Landed(c, w, id, r), t, q));
    e := e + f;
    BumpDrop(s.writers, id);
    LastMove(Landed(c, w, id, r), t, q, Idle);
    GotoKeepsData(Landed(c, w, id, r), t, q);
    ReleasesLanded(c, s, t, id, r);
    Step(c, Goto(Landed(c, w, id, r), t, q), t, Release, Goto(Landed(c, s, id, r), t, Idle));
    Then(c, s, e, Goto(Landed(c, w, id, r), t, q), [Event(t, Release)], Goto(Landed(c, s, id, r), t, Idle));
    e := e + [Event(t, Release)];
  }

  lemma LandedGoto(c: Content, s: State, t: Tid, pc: Pc, id: ObjId, r: Run, next: Pc)
    requires id in s.records && id in s.links && s.links[id] in s.files && r.start < r.end <= |c(id)|
    ensures Goto(Landed(c, Goto(s, t, pc), id, r), t, next) == Goto(Landed(c, s, id, r), t, next)
  {
    hide Marks, WriteAt;
    assert s.pcs[t := pc][t := next] == s.pcs[t := next];
  }

  lemma ReleasesLanded(c: Content, s: State, t: Tid, id: ObjId, r: Run)
    requires id !in s.writers && id in s.records && id in s.links && s.links[id] in s.files && r.start < r.end <= |c(id)|
    ensures var w := s.(writers := Bump(s.writers, id));
            var g := Goto(Landed(c, w, id, r), t, Slice(id, r, Releasing));
            Goto(g.(writers := Drop(g.writers, id)), t, Idle) == Goto(Landed(c, s, id, r), t, Idle)
  {
    hide Marks, WriteAt, Bump, Drop;
    BumpDrop(s.writers, id);
    assert s.pcs[t := Slice(id, r, Releasing)][t := Idle] == s.pcs[t := Idle];
  }

  // ---- a delete, alone ----

  /** The delete up to its unlink. */
  lemma DeletesRecord(c: Content, s: State, t: Tid, id: ObjId) returns (e: seq<Event>)
    requires PcOf(s, t).Idle? && s.lock.None? && id in s.records && id !in s.writers
    ensures Leads(c, s, e, Goto(s.(lock := Some(t), records := s.records - {id}), t, Deleting(id, false, Unlinking)))
    ensures forall i :: 0 <= i < |e| ==> e[i].tid == t && !e[i].action.StartEnsure?
  {
    hide Leads, ApplyEnsure, ApplyWriter, ApplyOther, ApplyRead, Goto, PcOf;
    var l := s.(lock := Some(t));
    var p1, p2, p3 := RemoveSeen(id), Deleting(id, false, Locked), Deleting(id, false, Unlinking);
    LastMove(s, t, p1, p2);
    LastMove(l, t, p1, p2);
    LastMove(l, t, p2, p3);
    GotoKeepsData(s, t, p1);
    GotoKeepsData(l, t, p2);
    Step(c, s, t, StartRemove(id), Goto(s, t, p1));
    assert Goto(Goto(s, t, p1).(lock := Some(t)), t, p2) == Goto(l, t, p2) by { LockMove(s, t, p1, p2); }
    Step(c, Goto(s, t, p1), t, LockForRemove, Goto(l, t, p2));
    var d := s.(lock := Some(t), records := s.records - {id});
    assert Goto(Goto(l, t, p2).(records := s.records - {id}), t, p3) == Goto(d, t, p3) by {
      RecordsMove(l, t, p2, s.records - {id}, p3);
    }
    Step(c, Goto(l, t, p2), t, DeleteTxn, Goto(d, t, p3));
    e := [Event(t, StartRemove(id))];
    Then(c, s, e, Goto(s, t, p1), [Event(t, LockForRemove)], Goto(l, t, p2));
    e := e + [Event(t, LockForRemove)];
    Then(c, s, e, Goto(l, t, p2), [Event(t, DeleteTxn)], Goto(d, t, p3));
    e := e + [Event(t, DeleteTxn)];
  }

  lemma LockMove(s: State, t: Tid, pc: Pc, next: Pc)
    ensures Goto(Goto(s, t, pc).(lock := Some(t)), t, next) == Goto(s.(lock := Some(t)), t, next)
  {
    assert s.pcs[t := pc][t := next] == s.pcs[t := next];
  }

  /** The unlink and the release of the lock. */
  lemma Unlinks(c: Content, s: State, t: Tid, id: ObjId) returns (e: seq<Event>)
    requires PcOf(s, t) == Deleting(id, false, Unlinking)
    ensures Leads(c, s, e, Goto(s.(links := s.links - {id}, lock := None), t, Idle))
    ensures e == [Event(t, Unlink(true)), Event(t, Unlock)]
  {
    hide Leads, ApplyEnsure, ApplyWriter, ApplyOther, ApplyRead, Goto, PcOf;
    var u := s.(links := s.links - {id});
    var p := Deleting(id, false, Unlocking);
    Step(c, s, t, Unlink(true), Goto(u, t, p));
    LastMove(u, t, p, Idle);
    GotoKeepsData(u, t, p);
    assert Goto(Goto(u, t, p).(lock := None), t, Idle) == Goto(u.(lock := None), t, Idle) by { UnlockMove(u, t, p); }
    Step(c, Goto(u, t, p), t, Unlock, Goto(s.(links := s.links - {id}, lock := None), t, Idle));
    e := [Event(t, Unlink(true))];
    Then(c, s, e, Goto(u, t, p), [Event(t, Unlock)], Goto(s.(links := s.links - {id}, lock := None), t, Idle));
    e := e + [Event(t, Unlock)];
  }

  lemma UnlockMove(s: State, t: Tid, pc: Pc)
    ensures Goto(Goto(s, t, pc).(lock := None), t, Idle) == Goto(s.(lock := None), t, Idle)
  {
    assert s.pcs[t := pc][t := Idle] == s.pcs[t := Idle];
  }

  // ---- two sizes for one id ----

  const EMPTY_STORE: State := State(map[], map[], map[], map[], map[], map[], None, None, map[])

  /** The group of the last byte of an object of `size` bytes, as a range. */
  function LastGroup(size: nat): (r: Run)
    requires size > 0
    ensures r.start < r.end == size
  {
    Run((size - 1) / GROUP_BYTES * GROUP_BYTES, size)
  }

  lemma LastGroupMarked(id: ObjId, size: nat, inode: Inode)
    requires size > 0
    ensures var g := (size - 1) / GROUP_BYTES;
            && g in Marks(Slice(id, LastGroup(size), Decoded(size, inode, [LastGroup(size)], false)))
            && InRun(BytesOfGroup(g, size), size - 1)
  {
    var g, r := (size - 1) / GROUP_BYTES, LastGroup(size);
    assert BytesOfGroup(g, size) == r;
    forall p | InRun(BytesOfGroup(g, size), p)
      ensures Has([r], p)
    {
      assert InRun([r][0], p);
    }
    assert FullyWritten([r], size, g);
  }

  /** Both calls have opened the empty file and found it too short; the larger one then sizes it and claims the record. */
  lemma TwoSizesOpen(c: Content, id: ObjId, small: nat, large: nat) returns (e: seq<Event>, s: State)
    requires 0 < small < large <= MAX_OBJECT_BYTES
    ensures Leads(c, EMPTY_STORE, e, s) && PcOf(s, 1) == Ensuring(id, small, Sizing(7)) && PcOf(s, 2).Idle?
    ensures s.lock.None? && s.writers == map[] && s.links == map[id := 7] && 7 in s.files && |s.files[7]| == large
    ensures s.records == map[id := Record(large, {}, 0, 0)]
    ensures forall i :: 0 <= i < |e| && e[i].action.StartEnsure? ==> e[i].action in {StartEnsure(id, small), StartEnsure(id, large)}
  {
    hide Leads, SetLen;
    var e1 := OpensFresh(c, EMPTY_STORE, 1, id, small, 7);
    var s1 := Goto(Made(EMPTY_STORE, id, 7), 1, Ensuring(id, small, Sizing(7)));
    var e2 := OpensLinked(c, s1, 0, id, large, 8);
    var s2 := Goto(s1, 0, Ensuring(id, large, Sizing(7)));
    assert PcOf(s2, 0) == Ensuring(id, large, Sizing(7)) && PcOf(s2, 1) == Ensuring(id, small, Sizing(7)) && PcOf(s2, 2).Idle?;
    var e3 := SizesAndClaims(c, s2, 0, id, large, 7);
    s := Goto(s2.(files := s2.files[7 := SetLen(s2.files[7], large)], records := s2.records[id := Record(large, {}, 0, 0)]), 0, Idle);
    Then(c, EMPTY_STORE, e1, s1, e2, s2);
    Then(c, EMPTY_STORE, e1 + e2, s2, e3, s);
    e := e1 + e2 + e3;
  }

  /**
   * Two callers that declare different sizes for one id: whenever the larger one is no larger than the object, there is
   * a run in which the smaller one, late with its `set_len`, cuts off bytes already verified and marked present.
   */
  lemma DifferentSizesTruncate(c: Content, id: ObjId, small: nat, large: nat) returns (events: seq<Event>)
    requires 0 < small < large <= MAX_OBJECT_BYTES && large <= |c(id)|
    ensures Possible(c, EMPTY_STORE, events) && (forall d :: JustOpened(c, d, EMPTY_STORE))
    ensures forall i :: 0 <= i < |events| && events[i].action.StartEnsure? ==>
              events[i].action in {StartEnsure(id, small), StartEnsure(id, large)}
    ensures var s := Outcome(c, EMPTY_STORE, events);
            && id in s.records && (large - 1) / GROUP_BYTES in s.records[id].present
            && id in s.links && s.links[id] in s.files && |s.files[s.links[id]]| == small
            && !PresentInv(c, s)
  {
    hide Leads, Marks, WriteAt, SetLen, Apply, Enabled;
    var e, s := TwoSizesOpen(c, id, small, large);
    var r := LastGroup(large);
    LastGroupMarked(id, large, 7);
    var f := WritesSlice(c, s, 2, id, r);
    var w := Goto(Landed(c, s, id, r), 2, Idle);
    Then(c, EMPTY_STORE, e, s, f, w);
    assert PcOf(w, 1) == Ensuring(id, small, Sizing(7));
    var cut := Goto(w.(files := w.files[7 := SetLen(w.files[7], small)]), 1, Ensuring(id, small, Claiming));
    CutsFile(c, w, 1, id, small, 7);
    Then(c, EMPTY_STORE, e + f, w, [Event(1, EnsureSetLen)], cut);
    events := e + f + [Event(1, EnsureSetLen)];
    LeadsTo(c, EMPTY_STORE, events, cut);
    CutBreaks(c, cut, id, small, large);
  }

  lemma LeadsTo(c: Content, s: State, events: seq<Event>, s': State)
    requires Leads(c, s, events, s')
    ensures Possible(c, s, events) && Outcome(c, s, events) == s'
  {
  }

  lemma CutsFile(c: Content, s: State, t: Tid, id: ObjId, size: nat, inode: Inode)
    requires PcOf(s, t) == Ensuring(id, size, Sizing(inode)) && inode in s.files
    ensures Leads(c, s, [Event(t, EnsureSetLen)],
                  Goto(s.(files := s.files[inode := SetLen(s.files[inode], size)]), t, Ensuring(id, size, Claiming)))
  {
    hide Leads, ApplyWriter, ApplyDelete, ApplyOther, ApplyRead, SetLen, Goto, PcOf;
    Step(c, s, t, EnsureSetLen, Goto(s.(files := s.files[inode := SetLen(s.files[inode], size)]), t, Ensuring(id, size, Claiming)));
  }

  lemma CutBreaks(c: Content, s: State, id: ObjId, small: nat, large: nat)
    requires 0 < small < large && id in s.records && s.records[id].size == large
    requires (large - 1) / GROUP_BYTES in s.records[id].present
    requires id in s.links && s.links[id] in s.files && |s.files[s.links[id]]| == small
    ensures !PresentInv(c, s)
  {
    LastGroupMarked(id, large, 7);
    var g := (large - 1) / GROUP_BYTES;
    assert PresentInv(c, s) ==> GroupRight(s.files[s.links[id]], c(id), large, g);
  }

  // ---- a record without a file ----

  /** The object made, of one byte, none of it there yet. */
  lemma MakesObject(c: Content, s: State, t: Tid, id: ObjId, size: nat, node: Inode) returns (e: seq<Event>)
    requires PcOf(s, t).Idle? && id !in s.records && id !in s.links && node !in s.files && 0 < size <= MAX_OBJECT_BYTES
    ensures Leads(c, s, e, Goto(Made(s, id, node).(files := s.files[node := SetLen([], size)],
                                                   records := s.records[id := Record(size, {}, 0, 0)]), t, Idle))
    ensures forall i :: 0 <= i < |e| ==> e[i].tid == t && (e[i].action.StartEnsure? ==> e[i].action == StartEnsure(id, size))
  {
    hide Leads, SetLen, Goto, PcOf;
    var m := Made(s, id, node);
    var p := Ensuring(id, size, Sizing(node));
    e := OpensFresh(c, s, t, id, size, node);
    LastMove(m, t, p, Idle);
    GotoKeepsData(m, t, p);
    var f := SizesAndClaims(c, Goto(m, t, p), t, id, size, node);
    var made := Goto(m.(files := s.files[node := SetLen([], size)], records := s.records[id := Record(size, {}, 0, 0)]), t, Idle);
    var g := Goto(m, t, p);
    assert Goto(g.(files := g.files[node := SetLen(g.files[node], size)], records := g.records[id := Record(size, {}, 0, 0)]), t, Idle) == made by {
      MadeMove(s, t, id, size, node, p);
    }
    Then(c, s, e, g, f, made);
    e := e + f;
  }

  lemma MadeMove(s: State, t: Tid, id: ObjId, size: nat, node: Inode, p: Pc)
    ensures var m := Made(s, id, node);
            var g := Goto(m, t, p);
            node in g.files && g.files[node] == [] &&
            Goto(g.(files := g.files[node := SetLen([], size)], records := g.records[id := Record(size, {}, 0, 0)]), t, Idle) ==
              Goto(m.(files := s.files[node := SetLen([], size)], records := s.records[id := Record(size, {}, 0, 0)]), t, Idle)
  {
    hide SetLen;
    assert s.pcs[t := p][t := Idle] == s.pcs[t := Idle];
    assert s.files[node := []][node := SetLen([], size)] == s.files[node := SetLen([], size)];
  }

  /**
   * A sparse record can outlive its file: a delete commits, another thread re-creates the record over the still linked
   * file, and only then the delete unlinks it. No thread is left to make a file.
   */
  lemma RecordWithoutFile(c: Content, id: ObjId) returns (events: seq<Event>)
    ensures Possible(c, EMPTY_STORE, events) && (forall d :: JustOpened(c, d, EMPTY_STORE)) && AllLinked(EMPTY_STORE)
    ensures var s := Outcome(c, EMPTY_STORE, events);
            && id in s.records && id !in s.links && s.records[id].present == {}
            && forall t: Tid :: PcOf(s, t).Idle?
  {
    hide Leads, SetLen;
    var e1 := MakesObject(c, EMPTY_STORE, 0, id, 1, 7);
    var s1 := Goto(Made(EMPTY_STORE, id, 7).(files := map[7 := SetLen([], 1)], records := map[id := Record(1, {}, 0, 0)]), 0, Idle);
    assert map[][7 := SetLen([], 1)] == map[7 := SetLen([], 1)];
    assert map[][id := Record(1, {}, 0, 0)] == map[id := Record(1, {}, 0, 0)];
    var e2 := DeletesRecord(c, s1, 1, id);
    var s2 := Goto(s1.(lock := Some(1), records := s1.records - {id}), 1, Deleting(id, false, Unlinking));
    var e3 := OpensLinked(c, s2, 0, id, 1, 8);
    var s3 := Goto(s2, 0, Ensuring(id, 1, Claiming));
    Claims(c, s3, 0, id, 1);
    var s4 := Goto(s3.(records := s3.records[id := Record(1, {}, 0, 0)]), 0, Idle);
    var e5 := Unlinks(c, s4, 1, id);
    var s5 := Goto(s4.(links := s4.links - {id}, lock := None), 1, Idle);
    Then(c, EMPTY_STORE, e1, s1, e2, s2);
    Then(c, EMPTY_STORE, e1 + e2, s2, e3, s3);
    Then(c, EMPTY_STORE, e1 + e2 + e3, s3, [Event(0, EnsureTxn(0))], s4);
    Then(c, EMPTY_STORE, e1 + e2 + e3 + [Event(0, EnsureTxn(0))], s4, e5, s5);
    events := e1 + e2 + e3 + [Event(0, EnsureTxn(0))] + e5;
    LeadsTo(c, EMPTY_STORE, events, s5);
  }

  // ---- a read that returns zeros ----

  /** The object written up to its first group, and a read of its first byte that has just read the record. */
  lemma ReadsRecord(c: Content, id: ObjId) returns (e: seq<Event>, s: State)
    requires 0 < |c(id)| <= MAX_OBJECT_BYTES
    ensures Leads(c, EMPTY_STORE, e, s) && PcOf(s, 3) == Reading(id, Run(0, 1), Seen(7))
    ensures PcOf(s, 0).Idle? && PcOf(s, 1).Idle? && s.lock.None? && s.writers == map[] && s.files.Keys == {7} && s.links == map[id := 7]
    ensures s.records.Keys == {id}
    ensures forall d: Sizes :: d(id) == |c(id)| ==> OneSize(d, e)
  {
    hide Leads, SetLen, WriteAt, Marks;
    var n := |c(id)|;
    var e1 := MakesObject(c, EMPTY_STORE, 0, id, n, 7);
    var s1 := Goto(Made(EMPTY_STORE, id, 7).(files := map[7 := SetLen([], n)], records := map[id := Record(n, {}, 0, 0)]), 0, Idle);
    assert map[][7 := SetLen([], n)] == map[7 := SetLen([], n)];
    assert map[][id := Record(n, {}, 0, 0)] == map[id := Record(n, {}, 0, 0)];
    var r := Run(0, Min(GROUP_BYTES, n));
    FirstGroupMarked(id, n, 7);
    var e2 := WritesSlice(c, s1, 2, id, r);
    var s2 := Goto(Landed(c, s1, id, r), 2, Idle);
    assert 0 in s2.records[id].present;
    FirstByteCovered(s2.records[id]);
    s := Goto(s2, 3, Reading(id, Run(0, 1), Seen(7)));
    StartsRead(c, s2, 3, id, Run(0, 1));
    Then(c, EMPTY_STORE, e1, s1, e2, s2);
    Then(c, EMPTY_STORE, e1 + e2, s2, [Event(3, StartRead(id, Run(0, 1)))], s);
    e := e1 + e2 + [Event(3, StartRead(id, Run(0, 1)))];
  }

  lemma StartsRead(c: Content, s: State, t: Tid, id: ObjId, bytes: Run)
    requires PcOf(s, t).Idle? && id in s.records && Covered(s.records[id], bytes) && id in s.links
    ensures Leads(c, s, [Event(t, StartRead(id, bytes))], Goto(s, t, Reading(id, bytes, Seen(s.links[id]))))
  {
    hide Leads, ApplyWriter, ApplyDelete, ApplyOther, ApplyEnsure, Covered;
    Step(c, s, t, StartRead(id, bytes), Goto(s, t, Reading(id, bytes, Seen(s.links[id]))));
  }

  lemma FirstGroupMarked(id: ObjId, size: nat, inode: Inode)
    requires size > 0
    ensures var r := Run(0, Min(GROUP_BYTES, size)); 0 in Marks(Slice(id, r, Decoded(size, inode, [r], false)))
  {
    var r := Run(0, Min(GROUP_BYTES, size));
    assert BytesOfGroup(0, size) == r;
    forall p | InRun(BytesOfGroup(0, size), p)
      ensures Has([r], p)
    {
      assert InRun([r][0], p);
    }
    assert FullyWritten([r], size, 0);
  }

  lemma FirstByteCovered(rec: Record)
    requires rec.size > 0 && 0 in rec.present
    ensures Covered(rec, Run(0, 1))
  {
    assert GroupsForBytes(Run(0, 1)) == Run(0, 1);
    assert Span(Run(0, 1)) == {0};
  }

  /** The object is deleted and made again, empty, while a reader is between its two steps. */
  lemma Replaced(c: Content, s1: State, id: ObjId) returns (e: seq<Event>, s: State)
    requires 0 < |c(id)| <= MAX_OBJECT_BYTES && PcOf(s1, 0).Idle? && PcOf(s1, 1).Idle?
    requires s1.lock.None? && s1.writers == map[] && s1.files.Keys == {7} && s1.links == map[id := 7] && s1.records.Keys == {id}
    ensures Leads(c, s1, e, s) && PcOf(s, 3) == PcOf(s1, 3)
    ensures s.links == map[id := 8] && 8 in s.files && s.files[8] == SetLen([], |c(id)|)
    ensures forall d: Sizes :: d(id) == |c(id)| ==> OneSize(d, e)
  {
    hide Leads, SetLen;
    var n := |c(id)|;
    var e2 := DeletesRecord(c, s1, 1, id);
    var s2 := Goto(s1.(lock := Some(1), records := s1.records - {id}), 1, Deleting(id, false, Unlinking));
    var e3 := Unlinks(c, s2, 1, id);
    var s3 := Goto(s2.(links := s2.links - {id}, lock := None), 1, Idle);
    var e4 := MakesObject(c, s3, 0, id, n, 8);
    s := Goto(Made(s3, id, 8).(files := s3.files[8 := SetLen([], n)], records := s3.records[id := Record(n, {}, 0, 0)]), 0, Idle);
    Then(c, s1, e2, s2, e3, s3);
    Then(c, s1, e2 + e3, s3, e4, s);
    e := e2 + e3 + e4;
  }

  /**
   * `read_range` reads the record and then opens the path, with no registration between: an object deleted and made
   * again in the gap is read as zeros, and the call succeeds.
   */
  lemma ReadsZeros(c: Content, id: ObjId) returns (events: seq<Event>)
    requires 0 < |c(id)| <= MAX_OBJECT_BYTES && c(id)[0] != 0
    ensures Possible(c, EMPTY_STORE, events)
    ensures forall d: Sizes :: d(id) == |c(id)| ==> JustOpened(c, d, EMPTY_STORE) && OneSize(d, events)
    ensures PcOf(Outcome(c, EMPTY_STORE, events), 3) == Reading(id, Run(0, 1), Got(7, 8, [0])) && [0] != c(id)[0..1]
  {
    hide Leads, SetLen;
    var e1, s1 := ReadsRecord(c, id);
    var e2, s2 := Replaced(c, s1, id);
    assert s2.files[8][0..1] == [0] by { ZeroFile(|c(id)|); }
    var e3, s3 := ReadsOn(c, s2, 3, id, Run(0, 1), 7);
    Then(c, EMPTY_STORE, e1, s1, e2, s2);
    Then(c, EMPTY_STORE, e1 + e2, s2, e3, s3);
    events := e1 + e2 + e3;
    LeadsTo(c, EMPTY_STORE, events, s3);
  }

  lemma ZeroFile(n: nat)
    requires n > 0
    ensures SetLen([], n)[0..1] == [0]
  {
  }

  /** The rest of a read: open the path, read the bytes. */
  lemma ReadsOn(c: Content, s: State, t: Tid, id: ObjId, bytes: Run, seen: Inode) returns (e: seq<Event>, s': State)
    requires PcOf(s, t) == Reading(id, bytes, Seen(seen)) && id in s.links && s.links[id] in s.files
    requires bytes.start <= bytes.end <= |s.files[s.links[id]]|
    ensures Leads(c, s, e, s') && e == [Event(t, OpenForRead), Event(t, ReadBytes)]
    ensures PcOf(s', t) == Reading(id, bytes, Got(seen, s.links[id], s.files[s.links[id]][bytes.start..bytes.end]))
  {
    hide Leads, ApplyWriter, ApplyDelete, ApplyOther, ApplyEnsure;
    var p1 := Reading(id, bytes, Open(seen, s.links[id]));
    var p2 := Reading(id, bytes, Got(seen, s.links[id], s.files[s.links[id]][bytes.start..bytes.end]));
    LastMove(s, t, p1, p2);
    Step(c, s, t, OpenForRead, Goto(s, t, p1));
    Step(c, Goto(s, t, p1), t, ReadBytes, Goto(s, t, p2));
    s' := Goto(s, t, p2);
    Then(c, s, [Event(t, OpenForRead)], Goto(s, t, p1), [Event(t, ReadBytes)], s');
    e := [Event(t, OpenForRead)] + [Event(t, ReadBytes)];
  }
}
