/** The slab operations run one at a time, as the store's methods: insert, remove, compact, open. */
module SlabOperations {
  import opened Prelude
  import opened SlabStore
  import opened SlabAccounts
  import opened SlabReads
  import P = SlabProofs

  datatype InsertResult = BadBytes | AlreadyThere | ReadFailed | Stored

  /** Everything a record says but its place, which may change from slab to slab. */
  predicate SameButPlace(a: ObjRecord, b: ObjRecord)
  {
    a.size == b.size && a.refcount == b.refcount && a.lastAccess == b.lastAccess && (a.loc == b.loc || (a.loc.InSlab? && b.loc.InSlab?))
  }

  /** Every record but that of `id` is where it was, up to its place. */
  ghost predicate OthersKept(s: State, s': State, id: ObjId)
  {
    && s'.objects.Keys - {id} == s.objects.Keys - {id}
    && forall i :: i in s.objects && i != id ==> i in s'.objects && SameButPlace(s.objects[i], s'.objects[i])
  }

  /** No record came, went or changed anything but its place. */
  ghost predicate OnlyPlaces(s: State, s': State)
  {
    s'.objects.Keys == s.objects.Keys && forall id :: id in s.objects ==> SameButPlace(s.objects[id], s'.objects[id])
  }

  /**
   * Below the open slab only rows and files of `victims` changed, and only records that lived there have another place,
   * in the slab that was open or a later one.
   */
  ghost predicate RestUntouched(s: State, s': State, victims: set<nat>)
  {
    && s.mode.Up? && s'.mode.Up? && s.mode.slab <= s'.mode.slab && (forall k :: k in victims ==> k < s.mode.slab)
    && (forall k: nat :: k < s.mode.slab && k !in victims ==>
          && (k in s'.slabs <==> k in s.slabs) && (k in s'.files <==> k in s.files)
          && MetaOf(s', k) == MetaOf(s, k) && FileOf(s', k) == FileOf(s, k))
    && (forall id :: id in s.objects && id in s'.objects && s'.objects[id] != s.objects[id] ==> MovedUp(s, s.objects[id], s'.objects[id], victims))
  }

  /** From one of `victims` to the open slab or a later one. */
  predicate MovedUp(s: State, was: ObjRecord, now: ObjRecord, victims: set<nat>)
    requires s.mode.Up?
  {
    was.loc.InSlab? && was.loc.slab in victims && now.loc.InSlab? && now.loc.slab >= s.mode.slab
  }

  /** Sealed, not empty, and dead enough. */
  predicate Worthwhile(m: SlabMeta, cfg: Config) { m.sealed && m.len > 0 && m.dead * 256 >= m.len * cfg.compactDeadNum }

  ghost function WorthSet(s: State, cfg: Config): set<nat>
  {
    set k | k in s.slabs && s.slabs[k].sealed && s.slabs[k].len > 0 && s.slabs[k].dead * 256 >= s.slabs[k].len * cfg.compactDeadNum
  }

  /** Every object of these slabs is there in full. */
  ghost predicate AllReadable(s: State, slabs: set<nat>)
  {
    forall id :: id in s.objects && s.objects[id].loc.InSlab? && s.objects[id].loc.slab in slabs ==>
      Readable(s, s.objects[id].loc.slab, s.objects[id].loc.off, s.objects[id].size)
  }

  /** The invariant, balanced books, and no thread but the first under way. */
  ghost predicate Sound(c: Content, s: State)
  {
    Inv(c, s) && AccountInv(s) && forall t: Tid :: t != 0 ==> PcOf(s, t).Idle?
  }

  /**
   * `bytes` were appended to the slab that was open and nothing else was: its row has the new length and is sealed
   * exactly if that reaches the limit, when the next slab opens.
   */
  ghost predicate AppendedTo(s: State, s': State, cfg: Config, bytes: seq<byte>)
  {
    && s.mode.Up? && s.mode.slab in s.slabs && s.mode.slab in s'.slabs
    && var k, len := s.mode.slab, s.mode.off + |bytes|;
       && s'.slabs[k] == SlabMeta(len, s.slabs[k].dead, len >= cfg.sealBytes)
       && FileOf(s', k) == FileOf(s, k) + bytes
       && s'.mode == (if len >= cfg.sealBytes then Up(k + 1, 0) else Up(k, len))
       && (forall n: nat :: n != k ==> FileOf(s', n) == FileOf(s, n))
       && (forall n :: n in s.slabs && n != k ==> n in s'.slabs && s'.slabs[n] == s.slabs[n])
       && s'.slabs.Keys == s.slabs.Keys + (if len >= cfg.sealBytes then {k + 1} else {})
       && (len >= cfg.sealBytes ==> s'.slabs[k + 1] == SlabMeta(0, 0, false))
  }

  /** Bytes beyond a slab's tracked length are cut off; nothing else happens to any file. */
  ghost predicate CutBack(s: State, s': State)
  {
    forall k: nat :: FileOf(s', k) == if k in s.slabs then FileOf(s, k)[..Min(s.slabs[k].len, |FileOf(s, k)|)] else FileOf(s, k)
  }

  /**
   * The slab that appends go to after an opening: the unsealed one, at its tracked length, if its file has that many
   * bytes; otherwise, that one sealed if there was one, a new one behind all the others.
   */
  ghost predicate Opened(s: State, s': State)
  {
    if exists k :: HasOpenSlab(s.slabs, k) then
      forall k :: HasOpenSlab(s.slabs, k) ==>
        if |FileOf(s, k)| >= s.slabs[k].len then s'.slabs == s.slabs && s'.mode == Up(k, s.slabs[k].len)
        else NewSlab(s.slabs[k := s.slabs[k].(sealed := true)], s')
    else NewSlab(s.slabs, s')
  }

  ghost predicate NewSlab(slabs: map<nat, SlabMeta>, s': State)
  {
    exists n: nat :: IsNext(slabs.Keys, n) && s'.slabs == slabs[n := SlabMeta(0, 0, false)] && s'.mode == Up(n, 0)
  }

  /** Every object in a slab is there in full. */
  ghost predicate NothingLost(s: State)
  {
    forall id :: id in s.objects && s.objects[id].loc.InSlab? ==>
      Readable(s, s.objects[id].loc.slab, s.objects[id].loc.off, s.objects[id].size)
  }

  /** The number after the highest key, by a walk over the table. */
  method NextNumber(keys: set<nat>) returns (n: nat)
    ensures IsNext(keys, n)
  {
    n := 0;
    var todo := keys;
    while todo != {}
      invariant todo <= keys
      invariant IsNext(keys - todo, n)
      decreases |todo|
    {
      var k :| k in todo;
      assert keys - (todo - {k}) == (keys - todo) + {k};
      if k >= n {
        n := k + 1;
      }
      todo := todo - {k};
    }
    assert keys - todo == keys;
  }

  /** The newest unsealed slab, by a walk over the table. */
  method NewestOpen(slabs: map<nat, SlabMeta>) returns (found: Option<nat>)
    ensures found.Some? ==> HasOpenSlab(slabs, found.value)
    ensures found.None? ==> forall s :: s in slabs ==> slabs[s].sealed
  {
    found := None;
    var todo := slabs.Keys;
    while todo != {}
      invariant todo <= slabs.Keys
      invariant found.Some? ==> found.value in slabs && !slabs[found.value].sealed
      invariant found.Some? ==> forall s :: s in slabs && s !in todo && !slabs[s].sealed ==> s <= found.value
      invariant found.None? ==> forall s :: s in slabs && s !in todo ==> slabs[s].sealed
      decreases |todo|
    {
      var k :| k in todo;
      if !slabs[k].sealed && (found.None? || found.value < k) {
        found := Some(k);
      }
      todo := todo - {k};
    }
  }

  /** The slabs worth compacting, each once. */
  method SealedDead(slabs: map<nat, SlabMeta>, cfg: Config) returns (v: seq<nat>)
    ensures forall k :: k in v <==> k in slabs && Worthwhile(slabs[k], cfg)
    ensures forall i, j :: 0 <= i < j < |v| ==> v[i] != v[j]
  {
    v := [];
    var todo := slabs.Keys;
    while todo != {}
      invariant todo <= slabs.Keys
      invariant forall k :: k in v <==> k in slabs && k !in todo && Worthwhile(slabs[k], cfg)
      invariant forall i, j :: 0 <= i < j < |v| ==> v[i] != v[j]
      decreases |todo|
    {
      var k :| k in todo;
      if Worthwhile(slabs[k], cfg) {
        v := v + [k];
      }
      todo := todo - {k};
    }
  }

  /** The live objects of a slab, by a walk over the index. */
  method LiveObjects(s: State, victim: nat) returns (live: seq<Entry>)
    ensures IsSnapshot(s, victim, live)
  {
    live := [];
    var todo := s.objects.Keys;
    while todo != {}
      invariant todo <= s.objects.Keys
      invariant forall i :: 0 <= i < |live| ==>
                  live[i].id in s.objects && s.objects[live[i].id].loc == InSlab(victim, live[i].off) &&
                  s.objects[live[i].id].size == live[i].size
      invariant forall id :: id in s.objects && id !in todo && Lives(s.objects[id], victim) ==>
                  Entry(id, s.objects[id].loc.off, s.objects[id].size) in live
      decreases |todo|
    {
      var id :| id in todo;
      if Lives(s.objects[id], victim) {
        live := live + [Entry(id, s.objects[id].loc.off, s.objects[id].size)];
      }
      todo := todo - {id};
    }
  }

  class Slabs {
    ghost const content: Content
    const cfg: Config
    /** The index tables, the slab files and the `open_slab` pair. */
    var st: State

    ghost predicate Valid()
      reads this
    {
      Sound(content, st)
    }

    /** Up, with no call under way. */
    ghost predicate Ready()
      reads this
    {
      Valid() && st.mode.Up? && st.pending.None? && PcOf(st, 0).Idle?
    }

    /** An empty directory, not yet opened. */
    constructor (ghost c: Content, config: Config)
      ensures Valid() && st == P.EMPTY_DIRECTORY && content == c && cfg == config
    {
      hide Sound;
      content := c;
      cfg := config;
      st := P.EMPTY_DIRECTORY;
      new;
      EmptySound(content);
    }

    /**
     * Store a complete object. `verifies` is the hash check of the bytes against the id, `decoding` says that a sparse
     * decode of the object is registered. A complete row only has its access time brought forward; an incomplete one
     * is removed first, unless it is being decoded into.
     */
    method InsertBytes(id: ObjId, bytes: seq<byte>, verifies: bool, decoding: bool, now: nat) returns (res: InsertResult)
      requires Ready()
      requires verifies <==> bytes == content(id)
      modifies this
      ensures Ready()
      ensures res.BadBytes? <==> !verifies
      ensures !verifies ==> st == old(st)
      ensures verifies && id !in old(st).objects ==>
                && res.Stored? && AppendedTo(old(st), st, cfg, bytes)
                && st.objects == old(st).objects[id := ObjRecord(|bytes|, InSlab(old(st).mode.slab, old(st).mode.off), 0, now)]
      ensures NothingLost(old(st)) ==> !res.ReadFailed?
      ensures verifies && id in old(st).objects && Complete(old(st).objects[id]) ==>
                var rec := old(st).objects[id];
                res.AlreadyThere? && st == old(st).(objects := old(st).objects[id := rec.(lastAccess := Max(rec.lastAccess, now))])
      ensures verifies && id in old(st).objects && !Complete(old(st).objects[id]) && decoding ==>
                (res.AlreadyThere? || res.ReadFailed?) && id in st.objects && st.objects[id] == old(st).objects[id]
      ensures verifies && id in old(st).objects && !Complete(old(st).objects[id]) && !decoding ==>
                res.Stored? || (res.ReadFailed? && id !in st.objects)
      ensures res.Stored? ==>
                id in st.objects && ReadsBack(content, st, id) && st.objects[id] == ObjRecord(|bytes|, st.objects[id].loc, 0, now)
      ensures OthersKept(old(st), st, id)
      ensures NoneStartsFailing(content, old(st), st)
    {
      hide Sound, CommitAppend, ReadsBack, NoneStartsFailing, AppendedTo, NothingLost;
      NoneStarted(content, st);
      if !verifies {
        return BadBytes;
      }
      if id in st.objects {
        if Complete(st.objects[id]) {
          if st.objects[id].lastAccess < now {
            TouchStep(content, cfg, st, id, now);
            st := st.(objects := st.objects[id := st.objects[id].(lastAccess := now)]);
          } else {
            assert st.objects[id := st.objects[id]] == st.objects;
          }
          return AlreadyThere;
        }
        var ok := Remove(id, decoding);
        if !ok {
          return ReadFailed;
        }
        if id in st.objects {
          return AlreadyThere;
        }
      }
      ghost var s1 := st;
      StartInsertStep(content, cfg, st, id);
      st := Goto(st, 0, Inserting(id));
      InsertAppendStep(content, cfg, s1, st, id, now);
      st := Goto(st.(files := st.files[st.mode.slab := FileOf(st, st.mode.slab) + bytes], pending := Some(Pending(0, bytes))), 0,
                 InsertAppended(id, now));
      InsertTxnStep(content, cfg, s1, st, id, now);
      var rec := ObjRecord(|bytes|, InSlab(st.mode.slab, st.mode.off), 0, now);
      CommitShape(st.(objects := st.objects[id := rec]), cfg, |bytes|, 0);
      IsAppended(content, cfg, s1, st, id, bytes, rec, now);
      st := Goto(CommitAppend(st.(objects := st.objects[id := rec]), cfg, |bytes|, 0), 0, Idle);
      Then(content, old(st), s1, st);
      return Stored;
    }

    /** Remove an object, and compact what that made worth compacting; false when a compaction failed to read. */
    method Remove(id: ObjId, decoding: bool) returns (ok: bool)
      requires Ready()
      modifies this
      ensures Ready()
      ensures NothingLost(old(st)) ==> ok
      ensures id in st.objects <==> id in old(st).objects && decoding
      ensures id in st.objects ==> SameButPlace(old(st).objects[id], st.objects[id])
      ensures OthersKept(old(st), st, id)
      ensures NoneStartsFailing(content, old(st), st)
    {
      hide Sound, NoneStartsFailing, NothingLost, AllReadable, WorthSet, RestUntouched;
      NoneStarted(content, st);
      if id !in st.objects {
        return true;
      }
      ghost var s0 := st;
      DeleteObject(id, decoding);
      ghost var s1 := st;
      FewerLost(s0, s1, WorthSet(s1, cfg));
      ok := CompactIfWorthwhile();
      Then(content, old(st), s1, st);
    }

    /** Delete an object's row, booking its slab range dead, unless a sparse decode of it is registered. */
    method DeleteObject(id: ObjId, decoding: bool)
      requires Ready() && id in st.objects
      modifies this
      ensures Ready()
      ensures st.objects == if decoding then old(st).objects else old(st).objects - {id}
      ensures st.files == old(st).files && st.mode == old(st).mode && st.slabs.Keys == old(st).slabs.Keys
      ensures forall k :: k in st.slabs ==>
                st.slabs[k] == old(st).slabs[k].(dead := old(st).slabs[k].dead +
                  if !decoding && Lives(old(st).objects[id], k) then old(st).objects[id].size else 0)
      ensures NoneStartsFailing(content, old(st), st)
    {
      hide Sound, NoneStartsFailing, BookDead;
      ghost var s0 := st;
      var seen := st.objects[id];
      StartRemoveStep(content, cfg, st, id);
      st := Goto(st, 0, Removing(id, seen, false));
      RemoveSteps(content, cfg, s0, st, id);
      P.BookedRows(st.slabs, seen.loc, seen.size);
      if !decoding {
        st := DeleteRow(st, id, seen);
      }
      st := Goto(st, 0, Idle);
    }

    /**
     * Compact every slab that is sealed and dead enough. The call finishes if and only if every object in them can be
     * read, and leaves no row and no file of them then; other slabs below the open one are untouched.
     */
    method CompactIfWorthwhile() returns (finished: bool)
      requires Ready()
      modifies this
      ensures Ready()
      ensures OnlyPlaces(old(st), st)
      ensures NoneStartsFailing(content, old(st), st)
      ensures RestUntouched(old(st), st, WorthSet(old(st), cfg))
      ensures finished <==> AllReadable(old(st), WorthSet(old(st), cfg))
      ensures finished ==> forall k :: k in WorthSet(old(st), cfg) ==> k !in st.slabs && k !in st.files
    {
      hide Sound, NoneStartsFailing, IsSnapshot, Worthwhile, RestUntouched, Lives, WorthSet, AllReadable, StillThere;
      NoneStarted(content, st);
      ghost var s0 := st;
      var v := SealedDead(st.slabs, cfg);
      var i := 0;
      WorthSetIs(content, cfg, st, v);
      AllThere(st, cfg, v);
      while i < |v|
        invariant 0 <= i <= |v|
        invariant Ready() && OnlyPlaces(s0, st) && NoneStartsFailing(content, s0, st)
        invariant StillThere(s0, st, cfg, v, i)
      {
        var live := LiveObjects(st, v[i]);
        ghost var s1 := st;
        StillWorth(content, cfg, s0, s1, v, i);
        var ok := CompactSlab(v[i], live);
        Then(content, s0, s1, st);
        if !ok {
          StoppedThere(s0, s1, st, cfg, v, i);
          return false;
        }
        StepThere(s0, s1, st, cfg, v, i);
        i := i + 1;
      }
      AllGone(s0, st, cfg, v);
      return true;
    }

    /**
     * Move a sealed slab's live objects into the open slab and drop it. Nothing but places changes, no object starts
     * failing to read back, and the pass finishes if and only if every object of the victim can be read; then the victim
     * is gone from table and disk.
     */
    method CompactSlab(victim: nat, live: seq<Entry>) returns (finished: bool)
      requires Ready() && victim in st.slabs && Worthwhile(st.slabs[victim], cfg) && IsSnapshot(st, victim, live)
      modifies this
      ensures Ready()
      ensures OnlyPlaces(old(st), st)
      ensures NoneStartsFailing(content, old(st), st)
      ensures RestUntouched(old(st), st, {victim})
      ensures finished <==> AllReadable(old(st), {victim})
      ensures finished ==> victim !in st.slabs && victim !in st.files && forall id :: id in st.objects ==> !Lives(st.objects[id], victim)
    {
      hide Sound, IsSnapshot, Worthwhile, CommitAppend, FileOf, KeptSoFar, Lives, AllReadable, OnlyPlaces, RestUntouched, NoneStartsFailing;
      ghost var s0 := st;
      StartStep(content, cfg, st, victim, live);
      st := Goto(st.(cut := st.cut + {victim}), 0, Moving(victim, live));
      var i := 0;
      SameFile(s0, st, victim);
      while i < |live|
        invariant 0 <= i <= |live|
        invariant PcOf(st, 0) == Moving(victim, live[i..]) && st.pending.None?
        invariant KeptSoFar(content, s0, st, victim) && st.mode.Up?
        invariant FileOf(st, victim) == FileOf(s0, victim)
        invariant forall j :: 0 <= j < i ==> Readable(s0, victim, live[j].off, live[j].size)
      {
        var e := live[i];
        KeptFacts(content, s0, st, victim);
        assert live[i..][0] == e && live[i..][1..] == live[i + 1..];
        if !Readable(st, victim, e.off, e.size) {
          AbortStep(content, cfg, s0, st, victim, live[i..]);
          st := Goto(st, 0, Idle);
          KeptFacts(content, s0, st, victim);
          NotAllRead(s0, victim, live, i);
          return false;
        }
        ghost var s1 := st;
        assert victim < st.mode.slab by { StillBelow(s0, st, victim); }
        var bytes := ReadSlab(st, victim, e.off, e.size);
        ReadStep(content, cfg, s0, st, victim, live[i..]);
        st := Goto(st, 0, MoveRead(victim, live[i..], bytes));
        AppendStep(content, cfg, s0, st, victim, live[i..], bytes);
        st := Goto(st.(files := st.files[st.mode.slab := FileOf(st, st.mode.slab) + bytes], pending := Some(Pending(0, bytes))), 0,
                   MoveAppended(victim, live[i..], bytes));
        CommitStep(content, cfg, s0, st, victim, live[i..], bytes);
        if e.id in st.objects && st.objects[e.id].loc == InSlab(victim, e.off) {
          var moved := st.objects[e.id].(loc := InSlab(st.mode.slab, st.mode.off));
          CommitShape(st.(objects := st.objects[e.id := moved]), cfg, |bytes|, 0);
          st := CommitAppend(st.(objects := st.objects[e.id := moved]), cfg, |bytes|, 0);
        } else {
          CommitShape(st, cfg, |bytes|, |bytes|);
          st := CommitAppend(st, cfg, |bytes|, |bytes|);
        }
        st := Goto(st, 0, Moving(victim, live[i + 1..]));
        SameFile(s1, st, victim);
        i := i + 1;
      }
      AllRead(s0, victim, live);
      DropStep(content, cfg, s0, st, victim);
      st := Goto(st.(slabs := st.slabs - {victim}, cut := st.cut - {victim}), 0, Dropped(victim));
      UnlinkStep(content, cfg, s0, st, victim);
      st := Goto(st.(files := st.files - {victim}), 0, Idle);
      KeptFacts(content, s0, st, victim);
      return true;
    }

    /** Open the store after whatever happened to it: afterwards appends land where they are recorded. */
    method OpenWith()
      requires Valid() && st.mode.Down?
      modifies this
      ensures Ready()
      ensures st.objects == old(st).objects && CutBack(old(st), st) && Opened(old(st), st)
      ensures NoneStartsFailing(content, old(st), st)
    {
      hide Sound, NoneStartsFailing, Apply, Enabled, CutBack, Opened, Walked, FileOf, HasOpenSlab;
      ghost var s0 := st;
      NobodyRuns(content, st);
      var found := NewestOpen(st.slabs);
      if found.Some? {
        OpenFoundStep(content, cfg, st, found.value);
        st := st.(mode := Reconciling(found.value, st.slabs.Keys, false));
      } else {
        var n := NextNumber(st.slabs.Keys);
        NoneOpen(st.slabs);
        OpenFreshStep(content, cfg, st, n);
        st := st.(slabs := st.slabs[n := SlabMeta(0, 0, false)], mode := Reconciling(n, st.slabs.Keys, false));
      }
      ghost var s1 := st;
      assert Indexed(s0, s1, found);
      NothingWalked(s0, s1);
      while st.mode.todo != {}
        invariant Sound(content, st) && st.mode.Reconciling? && st.pending.None? && st.pcs == s0.pcs
        invariant st.objects == s0.objects && NoneStartsFailing(content, s0, st)
        invariant st.slabs == s1.slabs && st.mode.slab == s1.mode.slab && Walked(s0, s1, st)
        decreases if st.mode.Reconciling? then |st.mode.todo| else 0
      {
        var k :| k in st.mode.todo;
        ReconcileStep(content, cfg, s0, st, k);
        WalkedOne(s0, s1, st, k);
        var len, file := MetaOf(st, k).len, FileOf(st, k);
        var next := st.mode.(todo := st.mode.todo - {k});
        if |file| > len {
          st := st.(files := st.files[k := file[..len]], mode := next);
        } else if |file| < len && k == st.mode.slab {
          st := st.(mode := next.(damaged := true));
        } else {
          st := st.(mode := next);
        }
      }
      var slab := st.mode.slab;
      if st.mode.damaged {
        var sealed_ := st.slabs[slab := MetaOf(st, slab).(sealed := true)];
        var n := NextNumber(sealed_.Keys);
        FinishDamaged(content, cfg, s0, s1, st, found, n);
        st := st.(slabs := sealed_[n := SlabMeta(0, 0, false)], mode := Up(n, 0));
      } else {
        FinishWhole(content, cfg, s0, s1, st, found);
        st := st.(mode := Up(slab, MetaOf(st, slab).len));
      }
      assert PcOf(st, 0) == PcOf(s0, 0);
    }
  }

  // ---- each assignment above is one step of the protocol ----

  lemma NextIsUnique(keys: set<nat>, a: nat, b: nat)
    requires IsNext(keys, a) && IsNext(keys, b)
    ensures a == b
  {
    if a > 0 { assert a - 1 in keys; }
    if b > 0 { assert b - 1 in keys; }
  }

  lemma EmptySound(c: Content)
    ensures Sound(c, P.EMPTY_DIRECTORY)
  {
    hide Inv;
    P.EmptyInv(c);
  }

  lemma NoneStarted(c: Content, s: State)
    ensures NoneStartsFailing(c, s, s)
  {
  }

  lemma Then(c: Content, s: State, mid: State, s': State)
    requires NoneStartsFailing(c, s, mid) && NoneStartsFailing(c, mid, s')
    ensures NoneStartsFailing(c, s, s')
  {
    hide Fails;
  }

  lemma StaysAlone(c: Content, cfg: Config, s: State, a: Action)
    requires Enabled(c, cfg, s, 0, a) && !a.Crash?
    ensures forall t: Tid :: t != 0 ==> PcOf(Apply(c, cfg, s, 0, a), t) == PcOf(s, t)
  {
    hide Enabled, ApplyRow, ApplyRecord, ApplyCompact, ApplyOpen;
    if RowStep(a) {
      RowAlone(c, cfg, s, a);
    } else if RecordStep(a) {
      RecordAlone(c, cfg, s, a);
    } else if IsCompactionStep(a) {
      CompactAlone(c, cfg, s, a);
    } else {
      OpenAlone(c, cfg, s, a);
    }
  }

  lemma RowAlone(c: Content, cfg: Config, s: State, a: Action)
    requires Enabled(c, cfg, s, 0, a) && RowStep(a)
    ensures forall t: Tid :: t != 0 ==> PcOf(ApplyRow(c, cfg, s, 0, a), t) == PcOf(s, t)
  {
    hide FileOf, MetaOf, Grown, BookDead;
  }

  lemma RecordAlone(c: Content, cfg: Config, s: State, a: Action)
    requires Enabled(c, cfg, s, 0, a) && RecordStep(a)
    ensures forall t: Tid :: PcOf(ApplyRecord(c, cfg, s, 0, a), t) == PcOf(s, t)
  {
    hide BookDead;
  }

  lemma CompactAlone(c: Content, cfg: Config, s: State, a: Action)
    requires Enabled(c, cfg, s, 0, a) && IsCompactionStep(a)
    ensures forall t: Tid :: t != 0 ==> PcOf(ApplyCompact(c, cfg, s, 0, a), t) == PcOf(s, t)
  {
    hide FileOf, MetaOf, Grown, IsSnapshot, WorthCompacting, Readable, ReadSlab;
  }

  lemma OpenAlone(c: Content, cfg: Config, s: State, a: Action)
    requires Enabled(c, cfg, s, 0, a) && !RowStep(a) && !RecordStep(a) && !IsCompactionStep(a) && !a.Crash?
    ensures forall t: Tid :: PcOf(ApplyOpen(c, cfg, s, 0, a), t) == PcOf(s, t)
  {
    hide FileOf, MetaOf, HasOpenSlab;
  }

  /** A step of the only thread. */
  lemma Step(c: Content, cfg: Config, s: State, a: Action)
    requires Sound(c, s) && Enabled(c, cfg, s, 0, a) && FindsItsRow(s, 0, a) && !a.Crash?
    ensures Sound(c, Apply(c, cfg, s, 0, a)) && NoneStartsFailing(c, s, Apply(c, cfg, s, 0, a))
  {
    hide Inv, AccountInv, Enabled, Apply, FindsItsRow, NoneStartsFailing;
    StaysAlone(c, cfg, s, a);
    P.StepKeeps(c, cfg, s, 0, a);
    StepKeepsBooks(c, cfg, s, 0, a);
    StepReads(c, cfg, s, 0, a);
  }

  lemma TouchStep(c: Content, cfg: Config, s: State, id: ObjId, now: nat)
    requires Sound(c, s) && s.mode.Up? && id in s.objects && s.objects[id].lastAccess < now
    ensures var s' := s.(objects := s.objects[id := s.objects[id].(lastAccess := now)]); Sound(c, s') && NoneStartsFailing(c, s, s')
  {
    hide Sound, NoneStartsFailing;
    Step(c, cfg, s, Touch(id, now));
  }

  lemma StartInsertStep(c: Content, cfg: Config, s: State, id: ObjId)
    requires Sound(c, s) && s.mode.Up? && PcOf(s, 0).Idle? && id !in s.objects
    ensures Sound(c, Goto(s, 0, Inserting(id))) && NoneStartsFailing(c, s, Goto(s, 0, Inserting(id)))
  {
    hide Sound, NoneStartsFailing;
    Step(c, cfg, s, StartInsert(id));
  }

  lemma InsertAppendStep(c: Content, cfg: Config, s1: State, s: State, id: ObjId, now: nat)
    requires Sound(c, s) && s.mode.Up? && PcOf(s, 0) == Inserting(id) && s.pending.None? && NoneStartsFailing(c, s1, s)
    ensures var s' := Goto(s.(files := s.files[s.mode.slab := FileOf(s, s.mode.slab) + c(id)], pending := Some(Pending(0, c(id)))), 0,
                           InsertAppended(id, now));
            Sound(c, s') && NoneStartsFailing(c, s1, s')
  {
    hide Sound, NoneStartsFailing;
    Step(c, cfg, s, InsertAppend(now));
    Then(c, s1, s, Apply(c, cfg, s, 0, InsertAppend(now)));
  }

  lemma InsertTxnStep(c: Content, cfg: Config, s1: State, s: State, id: ObjId, now: nat)
    requires Sound(c, s) && s.mode.Up? && PcOf(s, 0) == InsertAppended(id, now) && id !in s.objects
    requires NoneStartsFailing(c, s1, s)
    ensures var n := |c(id)|;
            var rec := ObjRecord(n, InSlab(s.mode.slab, s.mode.off), 0, now);
            var s' := Goto(CommitAppend(s.(objects := s.objects[id := rec]), cfg, n, 0), 0, Idle);
            Sound(c, s') && NoneStartsFailing(c, s1, s') && !Fails(c, s', id)
  {
    hide Sound, NoneStartsFailing, CommitAppend, Fails, Inv;
    Step(c, cfg, s, InsertTxn);
    SoundParts(c, s);
    InsertReads(c, cfg, s, 0);
    Then(c, s1, s, Apply(c, cfg, s, 0, InsertTxn));
  }

  /** The three steps of an insert append the bytes. */
  lemma IsAppended(c: Content, cfg: Config, s1: State, s: State, id: ObjId, bytes: seq<byte>, rec: ObjRecord, now: nat)
    requires Sound(c, s1) && s1.mode.Up? && s1.pending.None?
    requires s == Goto(Goto(s1, 0, Inserting(id)).(files := s1.files[s1.mode.slab := FileOf(s1, s1.mode.slab) + bytes],
                                                   pending := Some(Pending(0, bytes))), 0, InsertAppended(id, now))
    ensures AppendedTo(s1, Goto(CommitAppend(s.(objects := s.objects[id := rec]), cfg, |bytes|, 0), 0, Idle), cfg, bytes)
  {
    hide InsideInv, DisjointInv, ContentInv, LockInv, ThreadInv, AccountInv;
    var mid := CommitAppend(s.(objects := s.objects[id := rec]), cfg, |bytes|, 0);
    var s' := Goto(mid, 0, Idle);
    assert s1.slabs[s1.mode.slab].len == s1.mode.off && !s1.slabs[s1.mode.slab].sealed && s1.mode.slab + 1 !in s1.slabs;
    assert s'.files == s1.files[s1.mode.slab := FileOf(s1, s1.mode.slab) + bytes];
  }

  /** Taking a row away loses no bytes. */
  lemma FewerLost(s: State, s': State, slabs: set<nat>)
    requires s'.files == s.files && forall id :: id in s'.objects ==> id in s.objects && s'.objects[id] == s.objects[id]
    ensures NothingLost(s) ==> AllReadable(s', slabs)
  {
    forall k: nat
      ensures FileOf(s', k) == FileOf(s, k)
    {
      SameFile(s, s', k);
    }
    hide FileOf;
  }

  lemma SoundParts(c: Content, s: State)
    requires Sound(c, s)
    ensures Inv(c, s) && AccountInv(s)
  {
  }

  lemma CommitShape(s: State, cfg: Config, n: nat, dead: nat)
    requires s.mode.Up?
    ensures var s' := CommitAppend(s, cfg, n, dead);
            s'.objects == s.objects && s'.files == s.files && s'.mode.Up? && s'.pending.None? && s'.pcs == s.pcs
  {
  }

  lemma StartRemoveStep(c: Content, cfg: Config, s: State, id: ObjId)
    requires Sound(c, s) && s.mode.Up? && PcOf(s, 0).Idle? && id in s.objects
    ensures var s' := Goto(s, 0, Removing(id, s.objects[id], false)); Sound(c, s') && NoneStartsFailing(c, s, s')
  {
    hide Sound, NoneStartsFailing;
    Step(c, cfg, s, StartRemove(id));
  }

  lemma RemoveSteps(c: Content, cfg: Config, s0: State, s: State, id: ObjId)
    requires Sound(c, s) && s.mode.Up? && id in s.objects && PcOf(s, 0) == Removing(id, s.objects[id], false)
    requires NoneStartsFailing(c, s0, s)
    ensures var s' := Goto(s, 0, Idle); Sound(c, s') && NoneStartsFailing(c, s0, s')
    ensures var s' := Goto(DeleteRow(s, id, s.objects[id]), 0, Idle); Sound(c, s') && NoneStartsFailing(c, s0, s')
  {
    hide Sound, NoneStartsFailing, DeleteRow;
    assert FindsItsRow(s, 0, RemoveTxn) by { OwnRow(c, s, id); }
    Step(c, cfg, s, RemoveSkip);
    Step(c, cfg, s, RemoveTxn);
    Then(c, s0, s, Apply(c, cfg, s, 0, RemoveSkip));
    Then(c, s0, s, Apply(c, cfg, s, 0, RemoveTxn));
  }

  lemma OwnRow(c: Content, s: State, id: ObjId)
    requires Sound(c, s) && id in s.objects && PcOf(s, 0) == Removing(id, s.objects[id], false)
    ensures FindsItsRow(s, 0, RemoveTxn)
  {
    hide TopInv, LenInv, DisjointInv, ContentInv, LockInv, ThreadInv, AccountInv;
  }

  // ---- compaction ----

  /** What a compaction in progress has left alone. */
  ghost predicate KeptSoFar(c: Content, s0: State, s: State, victim: nat)
  {
    Sound(c, s) && OnlyPlaces(s0, s) && NoneStartsFailing(c, s0, s) && RestUntouched(s0, s, {victim})
  }

  lemma KeptFacts(c: Content, s0: State, s: State, victim: nat)
    requires KeptSoFar(c, s0, s, victim)
    ensures Sound(c, s) && OnlyPlaces(s0, s) && NoneStartsFailing(c, s0, s) && RestUntouched(s0, s, {victim})
  {
  }

  lemma SealedBelow(c: Content, cfg: Config, s: State, k: nat)
    requires Sound(c, s) && s.mode.Up? && k in s.slabs && s.slabs[k].sealed
    ensures k < s.mode.slab
  {
    hide LenInv, InsideInv, DisjointInv, ContentInv, LockInv, ThreadInv, AccountInv;
  }

  lemma SameFile(s: State, s': State, k: nat)
    ensures (k in s.files <==> k in s'.files) && (k in s.files ==> s'.files[k] == s.files[k]) ==> FileOf(s', k) == FileOf(s, k)
  {
  }

  lemma AllRead(s: State, victim: nat, live: seq<Entry>)
    requires IsSnapshot(s, victim, live) && forall j :: 0 <= j < |live| ==> Readable(s, victim, live[j].off, live[j].size)
    ensures AllReadable(s, {victim})
  {
    hide FileOf;
    forall id | id in s.objects && s.objects[id].loc.InSlab? && s.objects[id].loc.slab in {victim}
      ensures Readable(s, s.objects[id].loc.slab, s.objects[id].loc.off, s.objects[id].size)
    {
      var e := Entry(id, s.objects[id].loc.off, s.objects[id].size);
      assert e in live;
      var j :| 0 <= j < |live| && live[j] == e;
    }
  }

  lemma NotAllRead(s: State, victim: nat, live: seq<Entry>, i: nat)
    requires IsSnapshot(s, victim, live) && i < |live| && !Readable(s, victim, live[i].off, live[i].size)
    ensures !AllReadable(s, {victim})
  {
    hide FileOf;
    assert live[i].id in s.objects;
  }

  // ---- compacting all that are worth it ----

  lemma WorthSetIs(c: Content, cfg: Config, s: State, v: seq<nat>)
    requires Sound(c, s) && s.mode.Up? && forall k :: k in v <==> k in s.slabs && Worthwhile(s.slabs[k], cfg)
    ensures forall k :: k in v <==> k in WorthSet(s, cfg)
    ensures forall k :: k in v ==> k < s.mode.slab
  {
    hide Sound;
    forall k | k in v
      ensures k < s.mode.slab
    {
      SealedBelow(c, cfg, s, k);
    }
  }

  /** The first `i` of a list. */
  function FirstOf(v: seq<nat>, i: nat): (r: set<nat>)
    requires i <= |v|
    ensures forall k :: k in r <==> exists j :: 0 <= j < i && v[j] == k
  {
    if i == 0 then {} else FirstOf(v, i - 1) + {v[i - 1]}
  }

  /** With `i` of the slabs compacted: those are gone, the others and their objects are as they were. */
  ghost predicate StillThere(s0: State, s: State, cfg: Config, v: seq<nat>, i: nat)
  {
    && i <= |v| && (forall k :: k in v <==> k in WorthSet(s0, cfg)) && (forall j, l :: 0 <= j < l < |v| ==> v[j] != v[l])
    && s.objects.Keys == s0.objects.Keys
    && RestUntouched(s0, s, FirstOf(v, i)) && AllReadable(s0, FirstOf(v, i))
    && (forall j :: 0 <= j < i ==> v[j] !in s.slabs && v[j] !in s.files)
    && (forall j :: 0 <= j < |v| ==> v[j] < s0.mode.slab)
  }

  lemma AllThere(s: State, cfg: Config, v: seq<nat>)
    requires s.mode.Up? && (forall k :: k in v <==> k in WorthSet(s, cfg)) && (forall j, l :: 0 <= j < l < |v| ==> v[j] != v[l])
    requires forall k :: k in v ==> k < s.mode.slab
    ensures StillThere(s, s, cfg, v, 0)
  {
    hide MetaOf, FileOf, WorthSet;
    forall j | 0 <= j < |v|
      ensures v[j] < s.mode.slab
    {
      assert v[j] in v;
    }
  }

  lemma NotYet(v: seq<nat>, i: nat)
    requires i < |v| && forall j, l :: 0 <= j < l < |v| ==> v[j] != v[l]
    ensures v[i] !in FirstOf(v, i) && FirstOf(v, i + 1) == FirstOf(v, i) + {v[i]}
  {
  }

  lemma StillWorth(c: Content, cfg: Config, s0: State, s: State, v: seq<nat>, i: nat)
    requires StillThere(s0, s, cfg, v, i) && i < |v|
    ensures v[i] in s.slabs && Worthwhile(s.slabs[v[i]], cfg)
  {
    hide FileOf, AllReadable;
    NotYet(v, i);
    assert v[i] in v;
    assert MetaOf(s, v[i]) == MetaOf(s0, v[i]);
  }

  /** What is readable in an untouched slab was and is. */
  lemma SameReadable(s0: State, s: State, done: set<nat>, k: nat)
    requires RestUntouched(s0, s, done) && s.objects.Keys == s0.objects.Keys && k < s0.mode.slab && k !in done
    ensures AllReadable(s, {k}) <==> AllReadable(s0, {k})
  {
    hide MetaOf;
    assert FileOf(s, k) == FileOf(s0, k);
    forall id | id in s0.objects
      ensures Lives(s0.objects[id], k) <==> Lives(s.objects[id], k)
      ensures Lives(s0.objects[id], k) ==> s.objects[id] == s0.objects[id]
    {
    }
    if AllReadable(s, {k}) {
      forall id | id in s0.objects && s0.objects[id].loc.InSlab? && s0.objects[id].loc.slab in {k}
        ensures Readable(s0, s0.objects[id].loc.slab, s0.objects[id].loc.off, s0.objects[id].size)
      {
        assert Lives(s0.objects[id], k) && id in s.objects;
      }
    }
    if AllReadable(s0, {k}) {
      forall id | id in s.objects && s.objects[id].loc.InSlab? && s.objects[id].loc.slab in {k}
        ensures Readable(s, s.objects[id].loc.slab, s.objects[id].loc.off, s.objects[id].size)
      {
        assert Lives(s.objects[id], k) && id in s0.objects;
      }
    }
  }

  lemma StepThere(s0: State, s: State, s': State, cfg: Config, v: seq<nat>, i: nat)
    requires StillThere(s0, s, cfg, v, i) && i < |v| && RestUntouched(s, s', {v[i]}) && s'.objects.Keys == s.objects.Keys
    requires AllReadable(s, {v[i]}) && v[i] !in s'.slabs && v[i] !in s'.files
    ensures StillThere(s0, s', cfg, v, i + 1)
  {
    hide MetaOf, FileOf, WorthSet, Readable;
    var done := FirstOf(v, i);
    NotYet(v, i);
    RestChain(s0, s, s', done, {v[i]});
    SameReadable(s0, s, done, v[i]);
    assert RestUntouched(s0, s', done + {v[i]});
    forall j | 0 <= j < i + 1
      ensures v[j] !in s'.slabs && v[j] !in s'.files
    {
      if j < i { assert v[j] !in {v[i]}; }
    }
  }

  lemma StoppedThere(s0: State, s: State, s': State, cfg: Config, v: seq<nat>, i: nat)
    requires StillThere(s0, s, cfg, v, i) && i < |v| && RestUntouched(s, s', {v[i]}) && !AllReadable(s, {v[i]})
    requires s'.objects.Keys == s.objects.Keys
    ensures RestUntouched(s0, s', WorthSet(s0, cfg)) && !AllReadable(s0, WorthSet(s0, cfg))
  {
    hide MetaOf, FileOf, WorthSet, Readable;
    var done := FirstOf(v, i);
    NotYet(v, i);
    RestChain(s0, s, s', done, {v[i]});
    SameReadable(s0, s, done, v[i]);
    assert v[i] in v;
    assert forall k :: k in done + {v[i]} ==> k in v;
    MoreTouched(s0, s', done + {v[i]}, WorthSet(s0, cfg));
    FewerReadable(s0, {v[i]}, WorthSet(s0, cfg));
  }

  lemma MoreTouched(s: State, s': State, fewer: set<nat>, more: set<nat>)
    requires RestUntouched(s, s', fewer) && fewer <= more && forall k :: k in more ==> k < s.mode.slab
    ensures RestUntouched(s, s', more)
  {
    hide MetaOf, FileOf;
  }

  lemma FewerReadable(s: State, fewer: set<nat>, more: set<nat>)
    requires fewer <= more
    ensures AllReadable(s, more) ==> AllReadable(s, fewer)
  {
    hide Readable;
  }

  lemma AllGone(s0: State, s: State, cfg: Config, v: seq<nat>)
    requires StillThere(s0, s, cfg, v, |v|)
    ensures RestUntouched(s0, s, WorthSet(s0, cfg)) && AllReadable(s0, WorthSet(s0, cfg))
    ensures forall k :: k in WorthSet(s0, cfg) ==> k !in s.slabs && k !in s.files
  {
    hide RestUntouched, AllReadable, WorthSet;
    assert FirstOf(v, |v|) == WorthSet(s0, cfg);
  }

  /** What every step of a compaction of `victim` by the only thread leaves alone. */
  lemma CompactionStep(c: Content, cfg: Config, s0: State, s: State, a: Action, victim: nat)
    requires IsCompactionStep(a) && Enabled(c, cfg, s, 0, a) && KeptSoFar(c, s0, s, victim)
    requires a == CompactStart(victim, if a.CompactStart? then a.live else []) || VictimOf(PcOf(s, 0)) == Some(victim)
    ensures KeptSoFar(c, s0, Apply(c, cfg, s, 0, a), victim)
  {
    hide Sound, NoneStartsFailing, Enabled, Apply, OnlyPlaces, RestUntouched;
    Step(c, cfg, s, a);
    var s' := Apply(c, cfg, s, 0, a);
    Then(c, s0, s, s');
    PlacesStep(c, cfg, s, a);
    PlacesChain(s0, s, s');
    assert s.mode.Up? && s0.mode.Up? && victim < s0.mode.slab && victim < s.mode.slab by { StillBelow(s0, s, victim); }
    RestStep(c, cfg, s, a, victim);
    assert s.objects.Keys == s0.objects.Keys by { SameKeys(s0, s); }
    RestChain(s0, s, s', {victim}, {victim});
    assert {victim} + {victim} == {victim};
  }

  lemma StillBelow(s0: State, s: State, victim: nat)
    requires RestUntouched(s0, s, {victim})
    ensures s.mode.Up? && s0.mode.Up? && victim < s0.mode.slab <= s.mode.slab
  {
    assert victim in {victim};
  }

  lemma SameKeys(s0: State, s: State)
    requires OnlyPlaces(s0, s)
    ensures s.objects.Keys == s0.objects.Keys
  {
  }

  function VictimOf(pc: Pc): Option<nat>
  {
    if pc.Moving? || pc.MoveRead? || pc.MoveAppended? || pc.Dropped? then Some(pc.victim) else None
  }

  lemma PlacesStep(c: Content, cfg: Config, s: State, a: Action)
    requires IsCompactionStep(a) && Enabled(c, cfg, s, 0, a)
    ensures OnlyPlaces(s, Apply(c, cfg, s, 0, a))
  {
    hide FileOf, MetaOf, Grown, IsSnapshot, WorthCompacting, ApplyRow, ApplyRecord, ApplyOpen;
  }

  lemma PlacesChain(s: State, mid: State, s': State)
    requires OnlyPlaces(s, mid) && OnlyPlaces(mid, s')
    ensures OnlyPlaces(s, s')
  {
  }

  lemma RestStep(c: Content, cfg: Config, s: State, a: Action, victim: nat)
    requires IsCompactionStep(a) && Enabled(c, cfg, s, 0, a) && s.mode.Up? && victim < s.mode.slab
    requires a.CompactStart? || VictimOf(PcOf(s, 0)) == Some(victim)
    ensures RestUntouched(s, Apply(c, cfg, s, 0, a), {victim})
  {
    hide FileOf, Grown, IsSnapshot, WorthCompacting, Readable, ReadSlab, MetaOf, CommitAppend, ApplyRow, ApplyRecord, ApplyOpen;
    var s' := Apply(c, cfg, s, 0, a);
    SameMeta(s, s');
    forall k: nat
      ensures (k in s.files <==> k in s'.files) && (k in s.files ==> s'.files[k] == s.files[k]) ==> FileOf(s', k) == FileOf(s, k)
    {
      SameFile(s, s', k);
    }
    if a.MoveTxn? {
      MoveRest(c, cfg, s, victim);
    } else if a.DropTxn? {
      DropMeta(s, s', victim);
    }
  }

  lemma SameMeta(s: State, s': State)
    ensures s'.slabs == s.slabs ==> forall k: nat :: MetaOf(s', k) == MetaOf(s, k)
  {
  }

  lemma DropMeta(s: State, s': State, victim: nat)
    ensures s'.slabs == s.slabs - {victim} ==> forall k: nat :: k != victim ==> MetaOf(s', k) == MetaOf(s, k)
  {
  }

  lemma MoveRest(c: Content, cfg: Config, s: State, victim: nat)
    requires Enabled(c, cfg, s, 0, MoveTxn) && VictimOf(PcOf(s, 0)) == Some(victim) && victim < s.mode.slab
    ensures RestUntouched(s, Apply(c, cfg, s, 0, MoveTxn), {victim})
  {
    hide MetaOf, FileOf, CommitAppend, ApplyRow, ApplyRecord, ApplyOpen;
    var e, n := PcOf(s, 0).rest[0], |PcOf(s, 0).bytes|;
    var s' := Apply(c, cfg, s, 0, MoveTxn);
    if e.id in s.objects && s.objects[e.id].loc == InSlab(victim, e.off) {
      CommitRest(s.(objects := s.objects[e.id := s.objects[e.id].(loc := InSlab(s.mode.slab, s.mode.off))]), cfg, n, 0);
    } else {
      CommitRest(s, cfg, n, n);
    }
    forall k: nat, s1: State, s2: State | s2.slabs == s1.slabs
      ensures MetaOf(s2, k) == MetaOf(s1, k)
    {
      SameMeta(s1, s2);
    }
    forall k: nat
      ensures FileOf(s', k) == FileOf(s, k)
    {
      SameFile(s, s', k);
    }
  }

  lemma CommitRest(s: State, cfg: Config, n: nat, dead: nat)
    requires s.mode.Up?
    ensures var s' := CommitAppend(s, cfg, n, dead);
            && s'.mode.Up? && s.mode.slab <= s'.mode.slab && s'.objects == s.objects && s'.files == s.files
            && forall k: nat :: k < s.mode.slab ==> (k in s'.slabs <==> k in s.slabs) && MetaOf(s', k) == MetaOf(s, k)
  {
  }

  lemma RestChain(s: State, mid: State, s': State, first: set<nat>, then_: set<nat>)
    requires RestUntouched(s, mid, first) && RestUntouched(mid, s', then_) && forall k :: k in then_ ==> k < s.mode.slab
    requires mid.objects.Keys == s.objects.Keys
    ensures RestUntouched(s, s', first + then_)
  {
    hide MetaOf, FileOf;
    forall id | id in s.objects && id in s'.objects && s'.objects[id] != s.objects[id]
      ensures MovedUp(s, s.objects[id], s'.objects[id], first + then_)
    {
      if mid.objects[id] != s.objects[id] {
        assert MovedUp(s, s.objects[id], mid.objects[id], first);
        assert s'.objects[id] == mid.objects[id] || MovedUp(mid, mid.objects[id], s'.objects[id], then_);
      } else {
        assert MovedUp(mid, mid.objects[id], s'.objects[id], then_);
      }
    }
  }

  lemma StartStep(c: Content, cfg: Config, s: State, victim: nat, live: seq<Entry>)
    requires Sound(c, s) && s.mode.Up? && PcOf(s, 0).Idle?
    requires victim in s.slabs && Worthwhile(s.slabs[victim], cfg) && IsSnapshot(s, victim, live)
    ensures KeptSoFar(c, s, Goto(s.(cut := s.cut + {victim}), 0, Moving(victim, live)), victim)
  {
    hide Sound, IsSnapshot, NoneStartsFailing, Worthwhile;
    assert s.slabs[victim].sealed by { IsSealed(s.slabs[victim], cfg); }
    SealedBelow(c, cfg, s, victim);
    assert KeptSoFar(c, s, s, victim) by { NoneStarted(c, s); }
    assert Enabled(c, cfg, s, 0, CompactStart(victim, live)) by { Worth(s, cfg, victim); }
    hide KeptSoFar;
    CompactionStep(c, cfg, s, s, CompactStart(victim, live), victim);
  }

  lemma IsSealed(m: SlabMeta, cfg: Config)
    requires Worthwhile(m, cfg)
    ensures m.sealed
  {
  }

  lemma Worth(s: State, cfg: Config, victim: nat)
    requires s.mode.Up? && victim in s.slabs && Worthwhile(s.slabs[victim], cfg) && victim < s.mode.slab
    ensures WorthCompacting(s, cfg, victim)
  {
  }

  lemma ReadStep(c: Content, cfg: Config, s0: State, s: State, victim: nat, rest: seq<Entry>)
    requires KeptSoFar(c, s0, s, victim) && s.mode.Up? && PcOf(s, 0) == Moving(victim, rest) && rest != []
    requires Readable(s, victim, rest[0].off, rest[0].size)
    ensures KeptSoFar(c, s0, Goto(s, 0, MoveRead(victim, rest, ReadSlab(s, victim, rest[0].off, rest[0].size))), victim)
  {
    hide KeptSoFar, Readable;
    CompactionStep(c, cfg, s0, s, ReadEntry, victim);
  }

  lemma AppendStep(c: Content, cfg: Config, s0: State, s: State, victim: nat, rest: seq<Entry>, bytes: seq<byte>)
    requires KeptSoFar(c, s0, s, victim) && s.mode.Up? && PcOf(s, 0) == MoveRead(victim, rest, bytes) && s.pending.None?
    ensures var s' := Goto(s.(files := s.files[s.mode.slab := FileOf(s, s.mode.slab) + bytes], pending := Some(Pending(0, bytes))), 0,
                           MoveAppended(victim, rest, bytes));
            KeptSoFar(c, s0, s', victim)
  {
    hide KeptSoFar;
    CompactionStep(c, cfg, s0, s, MoveAppend, victim);
  }

  lemma CommitStep(c: Content, cfg: Config, s0: State, s: State, victim: nat, rest: seq<Entry>, bytes: seq<byte>)
    requires KeptSoFar(c, s0, s, victim) && s.mode.Up? && PcOf(s, 0) == MoveAppended(victim, rest, bytes) && rest != []
    ensures var e := rest[0];
            var mid :=
              if e.id in s.objects && s.objects[e.id].loc == InSlab(victim, e.off)
              then CommitAppend(s.(objects := s.objects[e.id := s.objects[e.id].(loc := InSlab(s.mode.slab, s.mode.off))]), cfg, |bytes|, 0)
              else CommitAppend(s, cfg, |bytes|, |bytes|);
            KeptSoFar(c, s0, Goto(mid, 0, Moving(victim, rest[1..])), victim)
  {
    hide KeptSoFar, CommitAppend;
    CompactionStep(c, cfg, s0, s, MoveTxn, victim);
  }

  lemma AbortStep(c: Content, cfg: Config, s0: State, s: State, victim: nat, rest: seq<Entry>)
    requires KeptSoFar(c, s0, s, victim) && s.mode.Up? && PcOf(s, 0) == Moving(victim, rest)
    ensures KeptSoFar(c, s0, Goto(s, 0, Idle), victim)
  {
    hide KeptSoFar;
    CompactionStep(c, cfg, s0, s, CompactAbort, victim);
  }

  lemma DropStep(c: Content, cfg: Config, s0: State, s: State, victim: nat)
    requires KeptSoFar(c, s0, s, victim) && s.mode.Up? && PcOf(s, 0) == Moving(victim, [])
    ensures KeptSoFar(c, s0, Goto(s.(slabs := s.slabs - {victim}, cut := s.cut - {victim}), 0, Dropped(victim)), victim)
    ensures forall id :: id in s.objects ==> !Lives(s.objects[id], victim)
  {
    hide KeptSoFar, Lives, Sound, Inv, AccountInv;
    KeptFacts(c, s0, s, victim);
    SoundParts(c, s);
    Emptied(c, s, victim);
    CompactionStep(c, cfg, s0, s, DropTxn, victim);
  }

  lemma Emptied(c: Content, s: State, victim: nat)
    requires Inv(c, s) && PcOf(s, 0) == Moving(victim, [])
    ensures forall id :: id in s.objects ==> !Lives(s.objects[id], victim)
  {
    hide TopInv, LenInv, InsideInv, DisjointInv, ContentInv, LockInv, VictimOk;
    P.MovingOk(c, s, 0);
    forall id | id in s.objects
      ensures !Lives(s.objects[id], victim)
    {
      P.VictimEmpty(c, s, victim, id);
    }
  }

  lemma UnlinkStep(c: Content, cfg: Config, s0: State, s: State, victim: nat)
    requires KeptSoFar(c, s0, s, victim) && s.mode.Up? && PcOf(s, 0) == Dropped(victim)
    ensures KeptSoFar(c, s0, Goto(s.(files := s.files - {victim}), 0, Idle), victim)
  {
    hide KeptSoFar;
    CompactionStep(c, cfg, s0, s, DropUnlink, victim);
  }

  // ---- opening ----

  lemma NobodyRuns(c: Content, s: State)
    requires Sound(c, s) && !s.mode.Up?
    ensures s.pending.None? && forall t: Tid :: PcOf(s, t).Idle?
    ensures NoneStartsFailing(c, s, s)
  {
    hide TopInv, InsideInv, DisjointInv, ContentInv, ThreadInv, AccountInv;
    NoneStarted(c, s);
    forall t: Tid
      ensures PcOf(s, t).Idle?
    {
      P.NobodyIn(c, s, t);
    }
  }

  /** What the index says after the first transaction: the slab to go on with, a new one if none was unsealed. */
  ghost predicate Indexed(s0: State, s1: State, found: Option<nat>)
  {
    && s1.mode.Reconciling? && s1.mode.todo == s0.slabs.Keys && !s1.mode.damaged && s1.files == s0.files
    && match found
       case Some(k) => HasOpenSlab(s0.slabs, k) && s1.slabs == s0.slabs && s1.mode.slab == k
       case None =>
         && !(exists k :: HasOpenSlab(s0.slabs, k)) && IsNext(s0.slabs.Keys, s1.mode.slab)
         && s1.slabs == s0.slabs[s1.mode.slab := SlabMeta(0, 0, false)]
  }

  /** The slabs not on the list any more are cut back, and the damage to the open one is noted. */
  ghost predicate Walked(s0: State, s1: State, s: State)
  {
    && s.mode.Reconciling? && s1.mode.Reconciling? && s.mode.todo <= s0.slabs.Keys
    && (forall k: nat :: FileOf(s, k) ==
          if k in s0.slabs && k !in s.mode.todo then FileOf(s0, k)[..Min(s0.slabs[k].len, |FileOf(s0, k)|)] else FileOf(s0, k))
    && (forall k :: k in s0.slabs ==> k in s1.slabs && s1.slabs[k] == s0.slabs[k])
    && (s.mode.damaged <==>
          s1.mode.slab in s0.slabs && s1.mode.slab !in s.mode.todo && |FileOf(s0, s1.mode.slab)| < s0.slabs[s1.mode.slab].len)
  }

  lemma NoneOpen(slabs: map<nat, SlabMeta>)
    requires forall k :: k in slabs ==> slabs[k].sealed
    ensures !exists k :: HasOpenSlab(slabs, k)
  {
  }

  lemma NothingWalked(s0: State, s1: State)
    requires s1.mode.Reconciling? && s1.mode.todo == s0.slabs.Keys && !s1.mode.damaged && s1.files == s0.files
    requires forall k :: k in s0.slabs ==> k in s1.slabs && s1.slabs[k] == s0.slabs[k]
    ensures Walked(s0, s1, s1)
  {
    forall k: nat
      ensures FileOf(s1, k) == FileOf(s0, k)
    {
      SameFile(s0, s1, k);
    }
    hide FileOf;
  }

  lemma WalkedOne(s0: State, s1: State, s: State, k: nat)
    requires Walked(s0, s1, s) && k in s.mode.todo && s.slabs == s1.slabs && s.mode.slab == s1.mode.slab
    ensures var len, file := MetaOf(s, k).len, FileOf(s, k);
            var next := s.mode.(todo := s.mode.todo - {k});
            Walked(s0, s1, if |file| > len then s.(files := s.files[k := file[..len]], mode := next)
                           else if |file| < len && k == s.mode.slab then s.(mode := next.(damaged := true))
                           else s.(mode := next))
  {
    var len, file := MetaOf(s, k).len, FileOf(s, k);
    var next := s.mode.(todo := s.mode.todo - {k});
    var s' := if |file| > len then s.(files := s.files[k := file[..len]], mode := next)
              else if |file| < len && k == s.mode.slab then s.(mode := next.(damaged := true))
              else s.(mode := next);
    assert len == s0.slabs[k].len && file == FileOf(s0, k);
    assert file[..|file|] == file;
    assert forall n: nat :: FileOf(s', n) == if n == k && |file| > len then file[..len] else FileOf(s, n);
    hide FileOf;
  }

  lemma WalkedAll(s0: State, s1: State, s: State)
    requires Walked(s0, s1, s) && s.mode.todo == {}
    ensures CutBack(s0, s)
    ensures s.mode.damaged <==> s1.mode.Reconciling? && s1.mode.slab in s0.slabs && |FileOf(s0, s1.mode.slab)| < s0.slabs[s1.mode.slab].len
  {
    hide FileOf;
  }

  lemma IsOpened(s0: State, s1: State, s2: State, s3: State, found: Option<nat>)
    requires Indexed(s0, s1, found) && CutBack(s0, s2) && s2.mode.Reconciling?
    requires s2.slabs == s1.slabs && s2.mode.slab == s1.mode.slab && s3.files == s2.files
    requires s2.mode.damaged <==> s1.mode.slab in s0.slabs && |FileOf(s0, s1.mode.slab)| < s0.slabs[s1.mode.slab].len
    requires if s2.mode.damaged then
               NewSlab(s2.slabs[s2.mode.slab := MetaOf(s2, s2.mode.slab).(sealed := true)], s3)
             else s3.slabs == s2.slabs && s3.mode == Up(s2.mode.slab, MetaOf(s2, s2.mode.slab).len)
    ensures CutBack(s0, s3) && Opened(s0, s3)
  {
    forall k: nat
      ensures FileOf(s3, k) == FileOf(s2, k)
    {
      SameFile(s2, s3, k);
    }
    hide FileOf, NewSlab;
    if found.Some? {
      forall k | HasOpenSlab(s0.slabs, k)
        ensures k == found.value
      {
      }
    } else {
      assert s1.mode.slab !in s0.slabs;
      Opens(s0.slabs, s1.mode.slab, s3);
    }
  }

  lemma Opens(slabs: map<nat, SlabMeta>, n: nat, s': State)
    requires IsNext(slabs.Keys, n) && s'.slabs == slabs[n := SlabMeta(0, 0, false)] && s'.mode == Up(n, 0)
    ensures NewSlab(slabs, s')
  {
  }

  lemma OpenFoundStep(c: Content, cfg: Config, s: State, slab: nat)
    requires Sound(c, s) && s.mode.Down? && HasOpenSlab(s.slabs, slab)
    ensures var s' := s.(mode := Reconciling(slab, s.slabs.Keys, false)); Sound(c, s') && NoneStartsFailing(c, s, s')
  {
    hide Sound, NoneStartsFailing;
    Step(c, cfg, s, OpenIndex);
    var other := Apply(c, cfg, s, 0, OpenIndex).mode.slab;
    assert HasOpenSlab(s.slabs, other);
    assert other == slab;
  }

  lemma OpenFreshStep(c: Content, cfg: Config, s: State, n: nat)
    requires Sound(c, s) && s.mode.Down? && (forall k :: k in s.slabs ==> s.slabs[k].sealed) && IsNext(s.slabs.Keys, n)
    ensures var s' := s.(slabs := s.slabs[n := SlabMeta(0, 0, false)], mode := Reconciling(n, s.slabs.Keys, false));
            Sound(c, s') && NoneStartsFailing(c, s, s')
  {
    hide Sound, NoneStartsFailing;
    Step(c, cfg, s, OpenIndex);
    NextIsUnique(s.slabs.Keys, n, NextSlab(s.slabs));
    assert !exists slab :: HasOpenSlab(s.slabs, slab);
  }

  lemma ReconcileStep(c: Content, cfg: Config, s0: State, s: State, k: nat)
    requires Sound(c, s) && s.mode.Reconciling? && k in s.mode.todo && NoneStartsFailing(c, s0, s)
    ensures var len, file := MetaOf(s, k).len, FileOf(s, k);
            var next := s.mode.(todo := s.mode.todo - {k});
            var s' := if |file| > len then s.(files := s.files[k := file[..len]], mode := next)
                      else if |file| < len && k == s.mode.slab then s.(mode := next.(damaged := true))
                      else s.(mode := next);
            Sound(c, s') && NoneStartsFailing(c, s0, s')
  {
    hide Sound, NoneStartsFailing;
    Step(c, cfg, s, ReconcileOne(k));
    Then(c, s0, s, Apply(c, cfg, s, 0, ReconcileOne(k)));
  }

  lemma FinishStep(c: Content, cfg: Config, s0: State, s: State)
    requires Sound(c, s) && s.mode.Reconciling? && s.mode.todo == {} && NoneStartsFailing(c, s0, s)
    ensures var slab := s.mode.slab;
            var sealed_ := s.slabs[slab := MetaOf(s, slab).(sealed := true)];
            var n := NextSlab(sealed_);
            var s' := if s.mode.damaged then s.(slabs := sealed_[n := SlabMeta(0, 0, false)], mode := Up(n, 0))
                      else s.(mode := Up(slab, MetaOf(s, slab).len));
            Sound(c, s') && NoneStartsFailing(c, s0, s')
  {
    hide Sound, NoneStartsFailing;
    Step(c, cfg, s, FinishOpen);
    Then(c, s0, s, Apply(c, cfg, s, 0, FinishOpen));
  }

  lemma FinishDamaged(c: Content, cfg: Config, s0: State, s1: State, s: State, found: Option<nat>, n: nat)
    requires Sound(c, s) && s.mode.Reconciling? && s.mode.todo == {} && s.mode.damaged && NoneStartsFailing(c, s0, s)
    requires Indexed(s0, s1, found) && Walked(s0, s1, s) && s.slabs == s1.slabs && s.mode.slab == s1.mode.slab
    requires IsNext(s.slabs[s.mode.slab := MetaOf(s, s.mode.slab).(sealed := true)].Keys, n)
    ensures var sealed_ := s.slabs[s.mode.slab := MetaOf(s, s.mode.slab).(sealed := true)];
            var s' := s.(slabs := sealed_[n := SlabMeta(0, 0, false)], mode := Up(n, 0));
            Sound(c, s') && NoneStartsFailing(c, s0, s') && CutBack(s0, s') && Opened(s0, s')
  {
    hide *;
    var sealed_ := s.slabs[s.mode.slab := MetaOf(s, s.mode.slab).(sealed := true)];
    var s' := s.(slabs := sealed_[n := SlabMeta(0, 0, false)], mode := Up(n, 0));
    NextIsUnique(sealed_.Keys, n, NextSlab(sealed_));
    FinishStep(c, cfg, s0, s);
    WalkedAll(s0, s1, s);
    Opens(sealed_, n, s');
    assert s1.mode.Reconciling? by { WasIndexed(s0, s1, found); }
    IsOpened(s0, s1, s, s', found);
  }

  lemma FinishWhole(c: Content, cfg: Config, s0: State, s1: State, s: State, found: Option<nat>)
    requires Sound(c, s) && s.mode.Reconciling? && s.mode.todo == {} && !s.mode.damaged && NoneStartsFailing(c, s0, s)
    requires Indexed(s0, s1, found) && Walked(s0, s1, s) && s.slabs == s1.slabs && s.mode.slab == s1.mode.slab
    ensures var s' := s.(mode := Up(s.mode.slab, MetaOf(s, s.mode.slab).len));
            Sound(c, s') && NoneStartsFailing(c, s0, s') && CutBack(s0, s') && Opened(s0, s')
  {
    hide *;
    FinishStep(c, cfg, s0, s);
    WalkedAll(s0, s1, s);
    assert s1.mode.Reconciling? by { WasIndexed(s0, s1, found); }
    IsOpened(s0, s1, s, s.(mode := Up(s.mode.slab, MetaOf(s, s.mode.slab).len)), found);
  }

  lemma WasIndexed(s0: State, s1: State, found: Option<nat>)
    requires Indexed(s0, s1, found)
    ensures s1.mode.Reconciling?
  {
  }
}
