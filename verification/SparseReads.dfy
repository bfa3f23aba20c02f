/** When a read that raced with deletes and re-creations still returns the object's own bytes. */
module SparseReads {
  import opened Prelude
  import opened GroupRuns
  import opened Coverage
  import opened SparseStore
  import opened SparseProofs

  /** The step takes the path of `id` away. */
  predicate UnlinksAt(s: State, t: Tid, a: Action, id: ObjId)
  {
    a.Unlink? && a.done && PcOf(s, t).Deleting? && PcOf(s, t).id == id
  }

  lemma GotoFiles()
    ensures forall s: State, t: Tid, pc: Pc :: Goto(s, t, pc).links == s.links && Goto(s, t, pc).files == s.files
  {
  }

  /** A path names the same inode after a step unless the step is its unlink. */
  lemma LinkStep(c: Content, s: State, t: Tid, a: Action, id: ObjId)
    requires Enabled(c, s, t, a) && id in s.links
    ensures var after := Apply(c, s, t, a).links;
            if UnlinksAt(s, t, a, id) then id !in after else id in after && after[id] == s.links[id]
  {
    hide ApplyWriter, ApplyDelete, ApplyEnsure, ApplyRead, ApplyOther;
    if WriterStep(a) {
      WriterLinks(c, s, t, a);
    } else if DeleteStep(a) {
      DeleteLinks(c, s, t, a);
    } else if EnsureStep(a) {
      EnsureLinks(c, s, t, a, id);
    } else if ReadStep(a) {
      ReadLinks(c, s, t, a);
    } else {
      OtherLinks(c, s, t, a);
    }
  }

  lemma WriterLinks(c: Content, s: State, t: Tid, a: Action)
    requires Enabled(c, s, t, a) && WriterStep(a)
    ensures ApplyWriter(c, s, t, a).links == s.links && s.files.Keys <= ApplyWriter(c, s, t, a).files.Keys
  {
    GotoFiles();
    hide DecodedAll, WriteAt, Track, Bump, Drop, RangesFit, Commits, Marks, Goto, PcOf;
  }

  lemma DeleteLinks(c: Content, s: State, t: Tid, a: Action)
    requires Enabled(c, s, t, a) && DeleteStep(a)
    ensures ApplyDelete(c, s, t, a).files == s.files
    ensures ApplyDelete(c, s, t, a).links == if a.Unlink? && a.done then s.links - {PcOf(s, t).id} else s.links
    ensures a.Unlink? ==> PcOf(s, t).Deleting?
  {
    GotoFiles();
    hide Goto, PcOf, RangesFit, DecodedAll;
  }

  lemma EnsureLinks(c: Content, s: State, t: Tid, a: Action, id: ObjId)
    requires Enabled(c, s, t, a) && EnsureStep(a)
    ensures var s' := ApplyEnsure(c, s, t, a);
            && s.files.Keys <= s'.files.Keys
            && (id in s.links ==> id in s'.links && s'.links[id] == s.links[id])
            && (id !in s.links && id in s'.links ==> s'.links[id] !in s.files)
  {
    GotoFiles();
    hide Goto, PcOf, RangesFit, DecodedAll, SetLen;
  }

  lemma ReadLinks(c: Content, s: State, t: Tid, a: Action)
    requires Enabled(c, s, t, a) && ReadStep(a)
    ensures ApplyRead(c, s, t, a).links == s.links && ApplyRead(c, s, t, a).files == s.files
  {
    GotoFiles();
    hide Goto, PcOf, RangesFit, DecodedAll, Covered;
  }

  lemma OtherLinks(c: Content, s: State, t: Tid, a: Action)
    requires Enabled(c, s, t, a) && !WriterStep(a) && !DeleteStep(a) && !EnsureStep(a) && !ReadStep(a)
    ensures ApplyOther(c, s, t, a).links == s.links && ApplyOther(c, s, t, a).files == s.files
  {
    GotoFiles();
    hide Goto, PcOf, RangesFit, DecodedAll, Bump, Drop;
  }

  /** An inode a path stopped naming is never named by it again. */
  lemma NeverRelinked(c: Content, s: State, t: Tid, a: Action, id: ObjId, inode: Inode)
    requires Enabled(c, s, t, a) && inode in s.files && (id in s.links ==> s.links[id] != inode)
    ensures var s' := Apply(c, s, t, a);
            inode in s'.files && (id in s'.links ==> s'.links[id] != inode)
  {
    hide Enabled, ApplyWriter, ApplyDelete, ApplyEnsure, ApplyRead, ApplyOther;
    if WriterStep(a) {
      WriterLinks(c, s, t, a);
    } else if DeleteStep(a) {
      DeleteLinks(c, s, t, a);
    } else if EnsureStep(a) {
      EnsureLinks(c, s, t, a, id);
    } else if ReadStep(a) {
      ReadLinks(c, s, t, a);
    } else {
      OtherLinks(c, s, t, a);
    }
  }

  lemma FilesStay(c: Content, s: State, t: Tid, a: Action, inode: Inode)
    requires Enabled(c, s, t, a) && inode in s.files
    ensures inode in Apply(c, s, t, a).files
  {
    hide Enabled, ApplyWriter, ApplyDelete, ApplyEnsure, ApplyRead, ApplyOther;
    if WriterStep(a) {
      WriterLinks(c, s, t, a);
    } else if DeleteStep(a) {
      DeleteLinks(c, s, t, a);
    } else if EnsureStep(a) {
      EnsureLinks(c, s, t, a, 0);
    } else if ReadStep(a) {
      ReadLinks(c, s, t, a);
    } else {
      OtherLinks(c, s, t, a);
    }
  }

  /** Some step of the run takes the path of `id` away. */
  ghost predicate EverUnlinked(c: Content, s: State, events: seq<Event>, id: ObjId)
    requires Possible(c, s, events)
    decreases |events|
  {
    events != [] &&
    (UnlinksAt(s, events[0].tid, events[0].action, id) ||
     EverUnlinked(c, Apply(c, s, events[0].tid, events[0].action), events[1..], id))
  }

  lemma {:induction false} StaysAway(c: Content, s: State, events: seq<Event>, id: ObjId, inode: Inode)
    requires Possible(c, s, events) && inode in s.files && (id in s.links ==> s.links[id] != inode)
    ensures id in Outcome(c, s, events).links ==> Outcome(c, s, events).links[id] != inode
    decreases |events|
  {
    hide Apply, Enabled;
    if events != [] {
      NeverRelinked(c, s, events[0].tid, events[0].action, id, inode);
      StaysAway(c, Apply(c, s, events[0].tid, events[0].action), events[1..], id, inode);
    }
  }

  /** Over any run, a path names the inode it named before if and only if no step unlinked it. */
  lemma {:induction false} SameInodeIff(c: Content, s: State, events: seq<Event>, id: ObjId)
    requires Possible(c, s, events) && id in s.links && s.links[id] in s.files
    ensures var after := Outcome(c, s, events).links;
            (id in after && after[id] == s.links[id]) <==> !EverUnlinked(c, s, events, id)
    decreases |events|
  {
    hide Apply, Enabled, UnlinksAt;
    if events != [] {
      var t, a := events[0].tid, events[0].action;
      var next := Apply(c, s, t, a);
      LinkStep(c, s, t, a, id);
      FilesStay(c, s, t, a, s.links[id]);
      if UnlinksAt(s, t, a, id) {
        StaysAway(c, next, events[1..], id, s.links[id]);
      } else {
        SameInodeIff(c, next, events[1..], id);
      }
    }
  }

  predicate NotBy(t: Tid, events: seq<Event>)
  {
    forall i :: 0 <= i < |events| ==> events[i].tid != t
  }

  lemma GotoOthers()
    ensures forall s: State, t: Tid, pc: Pc, u: Tid :: u != t ==> PcOf(Goto(s, t, pc), u) == PcOf(s, u)
  {
  }

  /** A step moves no thread but its own. */
  lemma OthersStand(c: Content, s: State, t: Tid, a: Action, u: Tid)
    requires Enabled(c, s, t, a) && u != t
    ensures PcOf(Apply(c, s, t, a), u) == PcOf(s, u)
  {
    hide ApplyWriter, ApplyDelete, ApplyEnsure, ApplyRead, ApplyOther;
    if WriterStep(a) {
      WriterStands(c, s, t, a, u);
    } else if DeleteStep(a) {
      DeleteStands(c, s, t, a, u);
    } else if EnsureStep(a) {
      EnsureStands(c, s, t, a, u);
    } else if ReadStep(a) {
      ReadStands(c, s, t, a, u);
    } else {
      OtherStands(c, s, t, a, u);
    }
  }

  lemma WriterStands(c: Content, s: State, t: Tid, a: Action, u: Tid)
    requires Enabled(c, s, t, a) && WriterStep(a) && u != t
    ensures PcOf(ApplyWriter(c, s, t, a), u) == PcOf(s, u)
  {
    GotoOthers();
    hide Goto, DecodedAll, WriteAt, Track, Bump, Drop, RangesFit, Commits, Marks;
  }

  lemma DeleteStands(c: Content, s: State, t: Tid, a: Action, u: Tid)
    requires Enabled(c, s, t, a) && DeleteStep(a) && u != t
    ensures PcOf(ApplyDelete(c, s, t, a), u) == PcOf(s, u)
  {
    GotoOthers();
    hide Goto, RangesFit, DecodedAll;
  }

  lemma EnsureStands(c: Content, s: State, t: Tid, a: Action, u: Tid)
    requires Enabled(c, s, t, a) && EnsureStep(a) && u != t
    ensures PcOf(ApplyEnsure(c, s, t, a), u) == PcOf(s, u)
  {
    GotoOthers();
    hide Goto, RangesFit, DecodedAll, SetLen;
  }

  lemma ReadStands(c: Content, s: State, t: Tid, a: Action, u: Tid)
    requires Enabled(c, s, t, a) && ReadStep(a) && u != t
    ensures PcOf(ApplyRead(c, s, t, a), u) == PcOf(s, u)
  {
    GotoOthers();
    hide Goto, RangesFit, DecodedAll, Covered;
  }

  lemma OtherStands(c: Content, s: State, t: Tid, a: Action, u: Tid)
    requires Enabled(c, s, t, a) && !WriterStep(a) && !DeleteStep(a) && !EnsureStep(a) && !ReadStep(a) && u != t
    ensures PcOf(ApplyOther(c, s, t, a), u) == PcOf(s, u)
  {
    GotoOthers();
    hide Goto, RangesFit, DecodedAll, Bump, Drop;
  }

  lemma {:induction false} StandsStill(c: Content, s: State, events: seq<Event>, u: Tid)
    requires Possible(c, s, events) && NotBy(u, events)
    ensures PcOf(Outcome(c, s, events), u) == PcOf(s, u)
    decreases |events|
  {
    hide Apply, Enabled, PcOf;
    if events != [] {
      assert NotBy(u, events[1..]);
      OthersStand(c, s, events[0].tid, events[0].action, u);
      StandsStill(c, Apply(c, s, events[0].tid, events[0].action), events[1..], u);
    }
  }

  /** A read about to open its file opens the inode it saw under the path if and only if nothing unlinked it meanwhile. */
  lemma OpensWhatItSaw(c: Content, s: State, t: Tid, between: seq<Event>)
    requires PcOf(s, t).Reading? && PcOf(s, t).reading.Seen?
    requires var pc := PcOf(s, t); pc.id in s.links && s.links[pc.id] == pc.reading.seen && pc.reading.seen in s.files
    requires Possible(c, s, between) && NotBy(t, between)
    ensures Enabled(c, Outcome(c, s, between), t, OpenForRead)
    ensures var pc := PcOf(s, t);
            PcOf(Apply(c, Outcome(c, s, between), t, OpenForRead), t) == pc.(reading := Open(pc.reading.seen, pc.reading.seen)) <==>
              !EverUnlinked(c, s, between, pc.id)
  {
    hide Possible, Outcome, EverUnlinked, ApplyWriter, ApplyDelete, ApplyEnsure, ApplyOther;
    StandsStill(c, s, between, t);
    SameInodeIff(c, s, between, PcOf(s, t).id);
  }

  /** Reading from the inode that was seen gives the object's own bytes. */
  lemma ReadsItsBytes(c: Content, d: Sizes, s: State, t: Tid)
    requires Inv(c, d, s) && PcOf(s, t).Reading? && PcOf(s, t).reading.Open? && PcOf(s, t).reading.inode == PcOf(s, t).reading.seen
    ensures var pc := PcOf(s, t);
            && pc.bytes.start <= pc.bytes.end <= |c(pc.id)|
            && Enabled(c, s, t, ReadBytes)
            && PcOf(Apply(c, s, t, ReadBytes), t) ==
                 pc.(reading := Got(pc.reading.seen, pc.reading.seen, c(pc.id)[pc.bytes.start..pc.bytes.end]))
  {
    hide PresentInv, LinkInv, LockInv, CountInv, DeleteInv, SizeInv, ExtentRight, ApplyWriter, ApplyDelete, ApplyEnsure, ApplyOther;
    var pc := PcOf(s, t);
    assert PcOk(c, d, s, pc);
    ExtentSlice(s.files[pc.reading.seen], c(pc.id), pc.bytes);
  }

  /** The rest of a read, from a state in which its record was just read. */
  lemma ReadFrom(c: Content, d: Sizes, s1: State, t: Tid, between: seq<Event>, after: seq<Event>)
    requires Inv(c, d, s1) && PcOf(s1, t).Reading? && PcOf(s1, t).reading.Seen?
    requires var pc := PcOf(s1, t); pc.id in s1.links && s1.links[pc.id] == pc.reading.seen && pc.reading.seen in s1.files
    requires Possible(c, s1, between) && NotBy(t, between) && OneSize(d, between)
    requires Enabled(c, Outcome(c, s1, between), t, OpenForRead)
    requires var s2 := Apply(c, Outcome(c, s1, between), t, OpenForRead);
             Possible(c, s2, after) && NotBy(t, after) && OneSize(d, after)
    ensures var pc := PcOf(s1, t);
            var s2 := Apply(c, Outcome(c, s1, between), t, OpenForRead);
            var s3 := Outcome(c, s2, after);
            if EverUnlinked(c, s1, between, pc.id) then
              PcOf(s2, t) != pc.(reading := Open(pc.reading.seen, pc.reading.seen))
            else
              && pc.bytes.start <= pc.bytes.end <= |c(pc.id)| && Enabled(c, s3, t, ReadBytes)
              && PcOf(Apply(c, s3, t, ReadBytes), t) ==
                   pc.(reading := Got(pc.reading.seen, pc.reading.seen, c(pc.id)[pc.bytes.start..pc.bytes.end]))
  {
    hide Inv, Possible, Outcome, EverUnlinked, Apply, Enabled, OneSize, NotBy, PcOf;
    var mid := Outcome(c, s1, between);
    var s2 := Apply(c, mid, t, OpenForRead);
    var s3 := Outcome(c, s2, after);
    OpensWhatItSaw(c, s1, t, between);
    if !EverUnlinked(c, s1, between, PcOf(s1, t).id) {
      RunKeeps(c, d, s1, between);
      assert Declares(d, OpenForRead);
      StepKeeps(c, d, mid, t, OpenForRead);
      RunKeeps(c, d, s2, after);
      StandsStill(c, s2, after, t);
      ReadsItsBytes(c, d, s3, t);
    }
  }

  lemma StartsReading(c: Content, d: Sizes, s: State, t: Tid, id: ObjId, bytes: Run)
    requires Inv(c, d, s) && PcOf(s, t).Idle? && id in s.records && Covered(s.records[id], bytes)
    ensures Enabled(c, s, t, StartRead(id, bytes)) && id in s.links && s.links[id] in s.files
    ensures Apply(c, s, t, StartRead(id, bytes)) == Goto(s, t, Reading(id, bytes, Seen(s.links[id])))
    ensures Inv(c, d, Apply(c, s, t, StartRead(id, bytes)))
  {
    hide Inv, ApplyWriter, ApplyDelete, ApplyEnsure, ApplyOther, Covered;
    InvPresent(c, d, s);
    CoveredExtent(c, s, id, bytes);
    StepKeeps(c, d, s, t, StartRead(id, bytes));
  }

  /**
   * A read of a range that the index says is present, after any run from an opened store and among any other threads
   * whose `ensure_sparse` calls agree on sizes. When nothing unlinks the object between the read of its record and the
   * opening of its file, the read returns the object's own bytes, whatever happens after; when something does, the
   * file it opens, if any, is another one.
   */
  lemma ReadRangeRight(c: Content, d: Sizes, s0: State, before: seq<Event>, t: Tid, id: ObjId, bytes: Run,
                       between: seq<Event>, after: seq<Event>)
    requires JustOpened(c, d, s0) && Possible(c, s0, before) && OneSize(d, before)
    requires var s := Outcome(c, s0, before);
             PcOf(s, t).Idle? && id in s.records && Covered(s.records[id], bytes) && id in s.links
    requires var s1 := Goto(Outcome(c, s0, before), t, Reading(id, bytes, Seen(Outcome(c, s0, before).links[id])));
             && Possible(c, s1, between) && NotBy(t, between) && OneSize(d, between)
             && Enabled(c, Outcome(c, s1, between), t, OpenForRead)
             && var s2 := Apply(c, Outcome(c, s1, between), t, OpenForRead);
                Possible(c, s2, after) && NotBy(t, after) && OneSize(d, after)
    ensures var s := Outcome(c, s0, before);
            var s1 := Goto(s, t, Reading(id, bytes, Seen(s.links[id])));
            var s2 := Apply(c, Outcome(c, s1, between), t, OpenForRead);
            var s3 := Outcome(c, s2, after);
            && Enabled(c, s, t, StartRead(id, bytes)) && Apply(c, s, t, StartRead(id, bytes)) == s1
            && if EverUnlinked(c, s1, between, id) then
                 PcOf(s2, t) != Reading(id, bytes, Open(s.links[id], s.links[id]))
               else
                 && bytes.start <= bytes.end <= |c(id)| && Enabled(c, s3, t, ReadBytes)
                 && PcOf(Apply(c, s3, t, ReadBytes), t) ==
                      Reading(id, bytes, Got(s.links[id], s.links[id], c(id)[bytes.start..bytes.end]))
  {
    hide Inv, JustOpened, Possible, Outcome, EverUnlinked, Apply, Enabled, OneSize, NotBy, Covered;
    var s := Outcome(c, s0, before);
    OpenedInv(c, d, s0);
    RunKeeps(c, d, s0, before);
    StartsReading(c, d, s, t, id, bytes);
    var s1 := Goto(s, t, Reading(id, bytes, Seen(s.links[id])));
    assert PcOf(s1, t) == Reading(id, bytes, Seen(s.links[id]));
    ReadFrom(c, d, s1, t, between, after);
  }
}
