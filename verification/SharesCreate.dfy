/**
 createSharedObject's new object is sound and apart from all others.
 */
module SharesCreate {
  import RR = RoundRobin
  import opened Frames
  import opened FrameRanges
  import opened FrameTable
  import opened SharesMemory
  import opened SharesSpec
  import K = KernelHeapSpec
  import opened SharesCore

  // ----- createSharedObject -----

  lemma RestOf(at: seq<nat>)
    requires at != [] && RR.NoRepeats(at)
    ensures RR.NoRepeats(at[1..]) && at[0] !in at[1..]
    ensures forall p: nat :: p in at[1..] ==> exists i :: 1 <= i < |at| && at[i] == p
    ensures forall p: nat :: p in at <==> p == at[0] || p in at[1..]
  {
    assert at == [at[0]] + at[1..];
  }

  /** The slots in use after a create: pages, store and new tables. */
  ghost predicate CreatedSlots(m: Memory, r: Memory, ts: map<nat, nat>, us: map<nat, nat>, space: nat, page: nat, n: nat, at: seq<nat>) {
    forall t: Slot :: t in r.ptes <==> t in m.ptes || IsNew(t, space, page, n, at) || t in TablePages(us, ts)
  }

  lemma CreateGrows(m: Memory, ts: map<nat, nat>, pick: map<nat, nat>, space: nat, page: nat, n: nat, at: seq<nat>)
    requires Exact(m, {}) && WellFormed(m) && Room(m, pick, space, page, n, at) && |at| == 1 + TableCount(n)
    requires n + |at| + NewTables(ts, pick, page, n) <= |m.free|
    ensures var r := CreateMemory(m, ts, pick, space, page, n, at);
      && Grew(m, r) && |r.free| == |m.free| - n - |at| - NewTables(ts, pick, page, n)
      && CreatedSlots(m, r, ts, TablesAfter(ts, pick, page, n), space, page, n, at)
  {
    RestOf(at);
    CreateMemoryIs(m, ts, pick, space, page, n, at);
    FirstOf(m, pick, space, page, n, at);
    hide *;
    GrowOne(m, KernelPage(at[0]), PERM_WRITEABLE);
    var t := MapNew(m, KernelPage(at[0]), Base(at[0]), PERM_WRITEABLE);
    GrewFacts(m, t);
    RoomAfter(m, t, pick, space, page, n, at);
    StoreGrows(t, ts, pick, space, page, n, at[1..]);
    var r := StoreRange(t, ts, pick, space, page, n, at[1..]);
    GrewMore(m, t, r);
    FilledAll(m, t, r, ts, TablesAfter(ts, pick, page, n), space, page, n, at);
  }

  lemma CreateMemoryIs(m: Memory, ts: map<nat, nat>, pick: map<nat, nat>, space: nat, page: nat, n: nat, at: seq<nat>)
    requires WellFormed(m) && |at| == 1 + TableCount(n) && n + |at| + NewTables(ts, pick, page, n) <= |m.free|
    ensures var t := MapNew(m, KernelPage(at[0]), Base(at[0]), PERM_WRITEABLE);
      && n + TableCount(n) + NewTables(ts, pick, page, n) <= |t.free| && |at[1..]| == TableCount(n)
      && CreateMemory(m, ts, pick, space, page, n, at) == StoreRange(t, ts, pick, space, page, n, at[1..])
  {
    NewFrameCount(m, KernelPage(at[0]), Base(at[0]), PERM_WRITEABLE);
  }

  lemma FirstOf(m: Memory, pick: map<nat, nat>, space: nat, page: nat, n: nat, at: seq<nat>)
    requires Room(m, pick, space, page, n, at) && at != []
    ensures Empty(m, KernelPage(at[0])) && KernelPage(at[0]).page == at[0]
  {
  }

  /** The store can be filled once its directory has a page. */
  lemma RoomAfter(m: Memory, t: Memory, pick: map<nat, nat>, space: nat, page: nat, n: nat, at: seq<nat>)
    requires Room(m, pick, space, page, n, at) && at != [] && t.boot == m.boot
    requires forall u: Slot :: u in t.ptes <==> u in m.ptes || u == KernelPage(at[0])
    ensures Room(t, pick, space, page, n, at[1..])
  {
    RestOf(at);
    hide RR.NoRepeats;
    forall i | 0 <= i < |at[1..]|
      ensures Empty(t, KernelPage(at[1..][i]))
    {
      assert at[1..][i] == at[i + 1] && at[i + 1] in at[1..];
    }
  }

  lemma FilledAll(m: Memory, t: Memory, r: Memory, ts: map<nat, nat>, us: map<nat, nat>, space: nat, page: nat, n: nat, at: seq<nat>)
    requires at != [] && RR.NoRepeats(at) && Filled(t, r, ts, us, space, page, n, at[1..], |at| - 1)
    requires forall u: Slot :: u in t.ptes <==> u in m.ptes || u == KernelPage(at[0])
    ensures CreatedSlots(m, r, ts, us, space, page, n, at)
  {
    RestOf(at);
    assert at[1..][..|at| - 1] == at[1..];
    hide InRange, TablePages, RR.NoRepeats;
  }

  ghost function NewShare(r: Memory, owner: int, name: string, n: nat, writable: bool, space: nat, page: nat, at: seq<nat>): Share
    requires at != []
  {
    Share(owner, name, n, writable, 1, at[0], TablesAt(r, at[1..]), FramesAt(r, space, page, n), false)
  }

  lemma FrameAtIs(m: Memory, s: Slot)
    requires s in m.ptes
    ensures FrameAt(m, s) == m.ptes[s].frame
  {
  }

  /** What is behind a new slot. */
  lemma NewFrame(m: Memory, r: Memory, slots: set<Slot>, s: Slot)
    requires WellFormed(m) && WellFormed(r) && Gained(m, r, slots) && s in slots
    ensures s in r.ptes && s !in m.ptes && FrameAt(r, s) == r.ptes[s].frame < |r.refs| == |m.refs| && |r.va| == |r.refs|
    ensures m.refs[FrameAt(r, s)] == 0 && Allocatable(r, FrameAt(r, s)) && r.refs[FrameAt(r, s)] == 1
    ensures r.va[FrameAt(r, s)] == Base(s.page)
  {
  }

  lemma NewFramesDiffer(m: Memory, r: Memory, slots: set<Slot>, s: Slot, t: Slot)
    requires WellFormed(m) && WellFormed(r) && Exact(r, {}) && Gained(m, r, slots) && s in slots && t in slots && s != t
    ensures FrameAt(r, s) != FrameAt(r, t)
  {
    NewFrame(m, r, slots, s);
    NewFrame(m, r, slots, t);
    hide Gained, Exact, WellFormed;
    if FrameAt(r, s) == FrameAt(r, t) {
      OnlySlot(r, s, t);
    }
  }

  /** r is m after a create. */
  ghost predicate Created(m: Memory, r: Memory, space: nat, page: nat, n: nat, at: seq<nat>) {
    && Grew(m, r) && space != K.KERNEL && |at| == 1 + TableCount(n) && RR.NoRepeats(at)
    && forall s: Slot :: IsNew(s, space, page, n, at) ==> s in Fresh(m, r)
  }

  ghost predicate IsNew(s: Slot, space: nat, page: nat, n: nat, at: seq<nat>) {
    InRange(s, space, page, n) || (s.space == K.KERNEL && s.page in at)
  }

  lemma CreatedParts(m: Memory, r: Memory, space: nat, page: nat, n: nat, at: seq<nat>)
    requires Created(m, r, space, page, n, at)
    ensures Grew(m, r) && WellFormed(m) && WellFormed(r) && Exact(r, {}) && Gained(m, r, Fresh(m, r)) && RR.NoRepeats(at)
  {
  }

  lemma CreatedSlot(m: Memory, r: Memory, space: nat, page: nat, n: nat, at: seq<nat>, s: Slot)
    requires Created(m, r, space, page, n, at) && IsNew(s, space, page, n, at)
    ensures s in r.ptes && s !in m.ptes && FrameAt(r, s) == r.ptes[s].frame < |r.refs| == |m.refs| && |r.va| == |r.refs|
    ensures m.refs[FrameAt(r, s)] == 0 && Allocatable(r, FrameAt(r, s)) && r.refs[FrameAt(r, s)] == 1
    ensures r.va[FrameAt(r, s)] == Base(s.page)
  {
    CreatedParts(m, r, space, page, n, at);
    hide Exact, Gained, Grew, WellFormed;
    NewFrame(m, r, Fresh(m, r), s);
  }

  lemma CreatedDiffer(m: Memory, r: Memory, space: nat, page: nat, n: nat, at: seq<nat>, s: Slot, t: Slot)
    requires Created(m, r, space, page, n, at) && IsNew(s, space, page, n, at) && IsNew(t, space, page, n, at) && s != t
    ensures FrameAt(r, s) != FrameAt(r, t)
  {
    CreatedParts(m, r, space, page, n, at);
    hide Exact, Gained, Grew, WellFormed;
    NewFramesDiffer(m, r, Fresh(m, r), s, t);
  }

  lemma DataFrom(r: Memory, sh: Share)
    requires 0 < sh.pages == |sh.frames| && sh.refs == 1
    requires forall k: nat :: k < |sh.frames| ==> Allocatable(r, sh.frames[k]) && r.refs[sh.frames[k]] == 1
    requires forall k: nat, l: nat :: k < l < |sh.frames| ==> sh.frames[k] != sh.frames[l]
    ensures DataOk(r, sh)
  {
  }

  lemma FramesAtIs(r: Memory, space: nat, page: nat, n: nat, k: nat, at: seq<nat>)
    requires k < n
    ensures |FramesAt(r, space, page, n)| == n && FramesAt(r, space, page, n)[k] == FrameAt(r, Slot(space, page + k))
    ensures IsNew(Slot(space, page + k), space, page, n, at)
  {
  }

  lemma CreateData(m: Memory, r: Memory, sh: Share, space: nat, page: nat, n: nat, at: seq<nat>)
    requires Created(m, r, space, page, n, at) && 0 < n
    requires sh.frames == FramesAt(r, space, page, n) && sh.pages == n && sh.refs == 1
    ensures DataOk(r, sh) && |sh.frames| == n
    ensures forall k: nat :: k < n ==> sh.frames[k] < |m.refs| && m.refs[sh.frames[k]] == 0
  {
    hide *;
    FramesAtIs(r, space, page, n, 0, at);
    forall k: nat | k < n
      ensures sh.frames[k] < |m.refs| == |r.refs|
      ensures Allocatable(r, sh.frames[k]) && r.refs[sh.frames[k]] == 1 && m.refs[sh.frames[k]] == 0
    {
      FramesAtIs(r, space, page, n, k, at);
      CreatedSlot(m, r, space, page, n, at, Slot(space, page + k));
    }
    forall k: nat, l: nat | k < l < n
      ensures sh.frames[k] != sh.frames[l]
    {
      FramesAtIs(r, space, page, n, k, at);
      FramesAtIs(r, space, page, n, l, at);
      CreatedDiffer(m, r, space, page, n, at, Slot(space, page + k), Slot(space, page + l));
    }
    DataFrom(r, sh);
  }

  lemma TablesAtIs(r: Memory, space: nat, page: nat, n: nat, at: seq<nat>, k: nat)
    requires k < |at|
    ensures IsNew(KernelPage(at[k]), space, page, n, at) && KernelPage(at[k]).page == at[k]
    ensures |TablesAt(r, at[1..])| == |at| - 1
    ensures k > 0 ==> TablesAt(r, at[1..])[k - 1] == FrameAt(r, KernelPage(at[k]))
  {
  }

  lemma OwnPageFrom(r: Memory, f: nat, page: nat)
    requires f < |r.refs| == |r.va| && r.refs[f] == 1 && r.va[f] == Base(page)
    requires KernelPage(page) in r.ptes && r.ptes[KernelPage(page)].frame == f
    ensures OwnPage(r, f) && TableSlot(r, f) == KernelPage(page)
  {
    PageOf(page);
  }

  lemma PagesDiffer(at: seq<nat>, k: nat, l: nat)
    requires RR.NoRepeats(at) && k < l < |at|
    ensures KernelPage(at[k]) != KernelPage(at[l])
  {
  }

  lemma StoreFrom(m: Memory, r: Memory, sh: Share, at: seq<nat>)
    requires WellFormed(r) && |sh.tables| == TableCount(sh.pages)
    requires forall k: nat :: k < |sh.tables| ==> OwnPage(r, sh.tables[k])
    requires forall k: nat, l: nat :: k < l < |sh.tables| ==> sh.tables[k] != sh.tables[l]
    requires KernelPage(sh.dir) in r.ptes && r.refs[r.ptes[KernelPage(sh.dir)].frame] == 1 && KernelPage(sh.dir) !in m.ptes
    requires AreFrames(r, sh.tables) && KernelPage(sh.dir) !in TableSlots(r, sh.tables, |sh.tables|)
    requires forall t: Slot :: t in TableSlots(r, sh.tables, |sh.tables|) ==> t !in m.ptes && t.space == K.KERNEL && t.page in at
    requires sh.dir in at
    ensures StoreOk(r, sh) && forall t: Slot :: t in StorePages(r, sh) ==> t !in m.ptes && t.space == K.KERNEL && t.page in at
  {
  }

  lemma OwnPagesFrom(r: Memory, tables: seq<nat>)
    requires forall k: nat :: k < |tables| ==> OwnPage(r, tables[k])
    ensures OwnPages(r, tables) && AreFrames(r, tables)
  {
  }

  lemma CreateStore(m: Memory, r: Memory, sh: Share, space: nat, page: nat, n: nat, at: seq<nat>)
    requires Created(m, r, space, page, n, at) && |at| == 1 + TableCount(n)
    requires sh.tables == TablesAt(r, at[1..]) && sh.pages == n && sh.dir == at[0]
    ensures WellFormed(r) && StoreOk(r, sh)
    ensures forall t: Slot :: t in StorePages(r, sh) ==> t !in m.ptes && t.space == K.KERNEL && t.page in at
  {
    hide *;
    var c := TableCount(n);
    CreatedParts(m, r, space, page, n, at);
    TablesAtIs(r, space, page, n, at, 0);
    forall k: nat | k < |at|
      ensures KernelPage(at[k]) !in m.ptes && KernelPage(at[k]) in r.ptes && r.ptes[KernelPage(at[k])].frame < |r.refs|
      ensures r.refs[r.ptes[KernelPage(at[k])].frame] == 1
    {
      TablesAtIs(r, space, page, n, at, k);
      CreatedSlot(m, r, space, page, n, at, KernelPage(at[k]));
    }
    forall k: nat, l: nat | k < l < c
      ensures sh.tables[k] != sh.tables[l]
    {
      TablesAtIs(r, space, page, n, at, k + 1);
      TablesAtIs(r, space, page, n, at, l + 1);
      PagesDiffer(at, k + 1, l + 1);
      CreatedDiffer(m, r, space, page, n, at, KernelPage(at[k + 1]), KernelPage(at[l + 1]));
    }
    forall k: nat | k < c
      ensures sh.tables[k] < |r.va| && OwnPage(r, sh.tables[k]) && TableSlot(r, sh.tables[k]) == KernelPage(at[k + 1])
    {
      TablesAtIs(r, space, page, n, at, k + 1);
      CreatedSlot(m, r, space, page, n, at, KernelPage(at[k + 1]));
      OwnPageFrom(r, sh.tables[k], at[k + 1]);
    }
    OwnPagesFrom(r, sh.tables);
    CreateTableSlots(m, r, sh.tables, c, at);
    StoreFrom(m, r, sh, at);
  }

  lemma {:induction false} CreateTableSlots(m: Memory, r: Memory, tables: seq<nat>, c: nat, at: seq<nat>)
    requires WellFormed(r) && c <= |tables| && c < |at| && RR.NoRepeats(at) && OwnPages(r, tables) && AreFrames(r, tables)
    requires forall k: nat :: k < |at| ==> KernelPage(at[k]) !in m.ptes
    requires forall k: nat :: k < c ==> tables[k] < |r.va| && TableSlot(r, tables[k]) == KernelPage(at[k + 1])
    ensures KernelPage(at[0]) !in TableSlots(r, tables, c)
    ensures forall t: Slot :: t in TableSlots(r, tables, c) ==> t !in m.ptes && t.space == K.KERNEL && t.page in at
  {
    if c > 0 {
      CreateTableSlots(m, r, tables, c - 1, at);
    }
  }

  /** What was mapped before a create is undisturbed by it. */
  lemma GainedLeaves(m: Memory, r: Memory, slots: set<Slot>, t: Slot)
    requires Exact(m, {}) && WellFormed(m) && WellFormed(r) && Gained(m, r, slots) && t in m.ptes
    ensures |r.refs| == |m.refs| && Undisturbed(m, r, t)
  {
    MappedCounts(m, t);
  }

  lemma CreateLeavesStore(m: Memory, r: Memory, slots: set<Slot>, sh: Share)
    requires Exact(m, {}) && WellFormed(m) && WellFormed(r) && Gained(m, r, slots) && StoreOk(m, sh)
    ensures |r.refs| == |m.refs| && AllUndisturbed(m, r, StorePages(m, sh))
  {
    GainedLength(m, r, slots);
    hide *;
    StoreOkFrames(m, sh);
    forall t: Slot | t in StorePages(m, sh)
      ensures Undisturbed(m, r, t)
    {
      StorePageIs(m, sh, t);
      GainedLeaves(m, r, slots, t);
    }
    AllUndisturbedFrom(m, r, StorePages(m, sh));
  }

  lemma GainedLength(m: Memory, r: Memory, slots: set<Slot>)
    requires WellFormed(m) && WellFormed(r) && Gained(m, r, slots)
    ensures |r.refs| == |m.refs| && r.reserved == m.reserved && r.boot == m.boot && |r.free| + |slots| == |m.free|
  {
  }

  lemma CreateLeavesData(m: Memory, r: Memory, slots: set<Slot>, sh: Share)
    requires WellFormed(m) && WellFormed(r) && Gained(m, r, slots) && DataOk(m, sh)
    ensures DataOk(r, sh)
  {
    forall k | 0 <= k < |sh.frames|
      ensures Allocatable(r, sh.frames[k]) && r.refs[sh.frames[k]] == sh.refs
    {
      assert Allocatable(m, sh.frames[k]);
    }
  }

  lemma CreateLeavesView(m: Memory, r: Memory, slots: set<Slot>, frames: seq<nat>, v: View, k: nat)
    requires WellFormed(m) && WellFormed(r) && Gained(m, r, slots) && k < |frames| && ViewAt(m, frames, v, k)
    ensures ViewAt(r, frames, v, k)
  {
  }

  /** The state after a create, with everything the proof needs to know about memory. */
  ghost predicate CreatedState(s: State, t: State, j: nat, space: nat, page: nat, n: nat, at: seq<nat>) {
    && Named(s) && Created(s.m, t.m, space, page, n, at) && |at| == 1 + TableCount(n) && at != []
    && j < |s.shares| && s.shares[j].empty && 0 < n
    && exists owner, name, writable ::
         && (forall i :: Live(s, i) ==> !(s.shares[i].owner == owner && s.shares[i].name == name))
         && t == State(t.m, s.shares[j := NewShare(t.m, owner, name, n, writable, space, page, at)],
                       s.views + {View(j, space, page)}, t.tables)
  }

  lemma CreatedFacts(s: State, t: State, j: nat, space: nat, page: nat, n: nat, at: seq<nat>) returns (sh: Share)
    requires CreatedState(s, t, j, space, page, n, at)
    ensures Created(s.m, t.m, space, page, n, at) && |at| == 1 + TableCount(n) && at != [] && 0 < n && space != K.KERNEL
    ensures j < |s.shares| == |t.shares| && s.shares[j].empty && !sh.empty && t.shares == s.shares[j := sh]
    ensures WellFormed(s.m) && WellFormed(t.m) && Exact(t.m, {}) && Gained(s.m, t.m, Fresh(s.m, t.m))
    ensures sh.frames == FramesAt(t.m, space, page, n) && sh.pages == n && sh.refs == 1
    ensures sh.tables == TablesAt(t.m, at[1..]) && sh.dir == at[0]
    ensures t.views == s.views + {View(j, space, page)}
    ensures forall i :: Live(s, i) ==> !(s.shares[i].owner == sh.owner && s.shares[i].name == sh.name)
  {
    sh := t.shares[j];
  }

  lemma CreateOld(s: State, t: State, j: nat, space: nat, page: nat, n: nat, at: seq<nat>, i: nat)
    requires i < |s.shares| == |t.shares| && WellFormed(t.m) && WellFormed(s.m)
    requires Core(s) && CreatedState(s, t, j, space, page, n, at) && Live(t, i) && i != j
    ensures Live(s, i) && t.shares[i] == s.shares[i] && |t.m.refs| == |s.m.refs|
    ensures DataOk(t.m, t.shares[i]) && StoreOk(t.m, t.shares[i])
    ensures AreFrames(s.m, s.shares[i].tables) && AllUndisturbed(s.m, t.m, StorePages(s.m, s.shares[i]))
  {
    hide *;
    var sh := CreatedFacts(s, t, j, space, page, n, at);
    LiveIs(s, i);
    LiveIs(t, i);
    GainedLength(s.m, t.m, Fresh(s.m, t.m));
    PartsOf(s);
    LiveFacts(s, i);
    CreateLeavesStore(s.m, t.m, Fresh(s.m, t.m), s.shares[i]);
    StoreStays(s.m, t.m, s.shares[i]);
    CreateLeavesData(s.m, t.m, Fresh(s.m, t.m), s.shares[i]);
  }

  lemma CreateNew(s: State, t: State, j: nat, space: nat, page: nat, n: nat, at: seq<nat>)
    requires j < |s.shares| == |t.shares| && WellFormed(t.m) && WellFormed(s.m)
    requires Core(s) && CreatedState(s, t, j, space, page, n, at)
    ensures DataOk(t.m, t.shares[j]) && StoreOk(t.m, t.shares[j])
    ensures forall u: Slot :: u in StorePages(t.m, t.shares[j]) ==> u !in s.m.ptes && u.space == K.KERNEL && u.page in at
    ensures forall k: nat :: k < |t.shares[j].frames| ==>
              t.shares[j].frames[k] < |s.m.refs| && s.m.refs[t.shares[j].frames[k]] == 0
  {
    hide *;
    var sh := CreatedFacts(s, t, j, space, page, n, at);
    CreateData(s.m, t.m, sh, space, page, n, at);
    CreateStore(s.m, t.m, sh, space, page, n, at);
  }

  lemma CreateObject(s: State, t: State, j: nat, space: nat, page: nat, n: nat, at: seq<nat>, i: nat)
    requires i < |s.shares| == |t.shares| && j < |s.shares| && WellFormed(t.m) && WellFormed(s.m)
    requires Core(s) && CreatedState(s, t, j, space, page, n, at) && Live(t, i)
    ensures DataOk(t.m, t.shares[i]) && StoreOk(t.m, t.shares[i])
  {
    hide *;
    if i == j {
      CreateNew(s, t, j, space, page, n, at);
    } else {
      CreateOld(s, t, j, space, page, n, at, i);
    }
  }

  lemma CreatePair(s: State, t: State, j: nat, space: nat, page: nat, n: nat, at: seq<nat>, a: nat, b: nat)
    requires |t.shares| == |s.shares| && a < |s.shares| && b < |s.shares| && j < |s.shares|
    requires WellFormed(t.m) && WellFormed(s.m)
    requires Core(s) && CreatedState(s, t, j, space, page, n, at) && Live(t, a) && Live(t, b) && a != b && b != j
    ensures AreFrames(t.m, t.shares[a].tables) && AreFrames(t.m, t.shares[b].tables)
    ensures SharesApart(t.m, t.shares[a], t.shares[b]) && SharesApart(t.m, t.shares[b], t.shares[a])
  {
    hide *;
    CreateObject(s, t, j, space, page, n, at, a);
    CreateOld(s, t, j, space, page, n, at, b);
    LiveFacts(s, b);
    StoreStays(s.m, t.m, s.shares[b]);
    StoreOkFrames(t.m, t.shares[a]);
    StoreOkFrames(t.m, t.shares[b]);
    if a == j {
      CreateApart(s, t, j, space, page, n, at, b);
    } else {
      CreateOld(s, t, j, space, page, n, at, a);
      LiveFacts(s, a);
      StoreStays(s.m, t.m, s.shares[a]);
      ApartBoth(s, a, b);
      PairStays(s.m, t.m, s.shares[a], s.shares[b], t.shares[a], t.shares[b]);
      PairStays(s.m, t.m, s.shares[b], s.shares[a], t.shares[b], t.shares[a]);
    }
  }

  /** The new object shares nothing with an old one. */
  lemma CreateApart(s: State, t: State, j: nat, space: nat, page: nat, n: nat, at: seq<nat>, b: nat)
    requires |t.shares| == |s.shares| && j < |s.shares| && b < |s.shares| && WellFormed(t.m) && WellFormed(s.m)
    requires Core(s) && CreatedState(s, t, j, space, page, n, at) && Live(t, j) && Live(t, b) && b != j
    requires AreFrames(t.m, t.shares[j].tables) && AreFrames(t.m, t.shares[b].tables)
    ensures SharesApart(t.m, t.shares[j], t.shares[b]) && SharesApart(t.m, t.shares[b], t.shares[j])
  {
    hide *;
    CreateNew(s, t, j, space, page, n, at);
    CreateOld(s, t, j, space, page, n, at, b);
    LiveFacts(s, b);
    StoreStays(s.m, t.m, s.shares[b]);
    var fs, gs := t.shares[j].frames, t.shares[b].frames;
    forall l: nat | l < |gs|
      ensures gs[l] < |s.m.refs| && 0 < s.m.refs[gs[l]]
    {
      DataAt(s.m, s.shares[b], l);
    }
    forall u: Slot | u in StorePages(t.m, t.shares[b])
      ensures u in s.m.ptes
    {
      StorePageIs(s.m, s.shares[b], u);
    }
    var sh := CreatedFacts(s, t, j, space, page, n, at);
    ApartFrom(s.m, t.m, t.shares[j], t.shares[b]);
  }

  lemma ApartFrom(m: Memory, r: Memory, a: Share, b: Share)
    requires WellFormed(r) && AreFrames(r, a.tables) && AreFrames(r, b.tables)
    requires !(a.owner == b.owner && a.name == b.name)
    requires forall k: nat :: k < |a.frames| ==> a.frames[k] < |m.refs| && m.refs[a.frames[k]] == 0
    requires forall k: nat :: k < |b.frames| ==> b.frames[k] < |m.refs| && 0 < m.refs[b.frames[k]]
    requires forall u: Slot :: u in StorePages(r, a) ==> u !in m.ptes
    requires forall u: Slot :: u in StorePages(r, b) ==> u in m.ptes
    ensures SharesApart(r, a, b) && SharesApart(r, b, a)
  {
    hide AreFrames, StorePages;
  }

  lemma NewViewAt(m: Memory, r: Memory, space: nat, page: nat, n: nat, at: seq<nat>, v: View, k: nat)
    requires Created(m, r, space, page, n, at) && v.space == space && v.page == page && k < n
    requires |FramesAt(r, space, page, n)| == n
    ensures ViewAt(r, FramesAt(r, space, page, n), v, k)
  {
    hide *;
    FramesAtIs(r, space, page, n, k, at);
    CreatedSlot(m, r, space, page, n, at, Slot(space, page + k));
    FrameAtIs(r, Slot(space, page + k));
    ViewEntry(r, FramesAt(r, space, page, n), v, k);
  }

  lemma CreateViews(s: State, t: State, j: nat, space: nat, page: nat, n: nat, at: seq<nat>)
    requires Core(s) && CreatedState(s, t, j, space, page, n, at)
    ensures Views(t)
  {
    hide *;
    var sh := CreatedFacts(s, t, j, space, page, n, at);
    forall v | v in t.views
      ensures ViewOk(t.m, t.shares, v)
    {
      if v in s.views {
        ViewFacts(s, v);
        LiveFacts(s, v.id);
        assert v.id != j && t.shares[v.id] == s.shares[v.id];
        forall k: nat | k < |s.shares[v.id].frames|
          ensures ViewAt(t.m, s.shares[v.id].frames, v, k)
        {
          CreateLeavesView(s.m, t.m, Fresh(s.m, t.m), s.shares[v.id].frames, v, k);
        }
        ViewOkFrom(t.m, t.shares, v);
      } else {
        assert v == View(j, space, page);
        FramesAtIs(t.m, space, page, n, 0, at);
        forall k: nat | k < |sh.frames|
          ensures ViewAt(t.m, sh.frames, v, k)
        {
          NewViewAt(s.m, t.m, space, page, n, at, v, k);
        }
        ViewOkFrom(t.m, t.shares, v);
      }
    }
    ViewsFrom(t);
  }

  lemma CreateCounts(s: State, t: State, j: nat, space: nat, page: nat, n: nat, at: seq<nat>)
    requires Core(s) && CreatedState(s, t, j, space, page, n, at)
    ensures Counts(t)
  {
    hide *;
    var sh := CreatedFacts(s, t, j, space, page, n, at);
    PartsOf(s);
    var v := View(j, space, page);
    forall w | w in s.views
      ensures w.id != j
    {
      ViewFacts(s, w);
      LiveFacts(s, w.id);
    }
    assert v !in s.views;
    NoViews(s.views, j);
    forall i: nat | Live(t, i)
      ensures i < |t.shares| && t.shares[i].refs == |ViewsOf(t.views, i)|
    {
      ViewsGrow(s.views, v, i);
      LiveIs(t, i);
      LiveIs(s, i);
      if i != j {
        CountAt(s, i);
      }
    }
    CountsFrom(t);
  }

  lemma CreateObjects(s: State, t: State, j: nat, space: nat, page: nat, n: nat, at: seq<nat>)
    requires Core(s) && CreatedState(s, t, j, space, page, n, at)
    ensures Named(t) && Objects(t)
  {
    hide *;
    var sh := CreatedFacts(s, t, j, space, page, n, at);
    CreateNamed(s, t, j, space, page, n, at);
    forall i: nat | Live(t, i)
      ensures i < |t.shares| && DataOk(t.m, t.shares[i]) && StoreOk(t.m, t.shares[i])
    {
      LiveIs(t, i);
      CreateObject(s, t, j, space, page, n, at, i);
    }
    ObjectsFrom(t);
  }

  lemma NamedFrom(s: State, t: State, j: nat, sh: Share)
    requires Named(s) && WellFormed(t.m) && |t.m.refs| == |s.m.refs| && j < |s.shares| && t.shares == s.shares[j := sh]
    requires AreFrames(t.m, sh.frames) && AreFrames(t.m, sh.tables) && |sh.frames| == sh.pages
    ensures Named(t)
  {
  }

  lemma CreateNamed(s: State, t: State, j: nat, space: nat, page: nat, n: nat, at: seq<nat>)
    requires Core(s) && CreatedState(s, t, j, space, page, n, at)
    ensures Named(t)
  {
    hide *;
    var sh := CreatedFacts(s, t, j, space, page, n, at);
    GainedLength(s.m, t.m, Fresh(s.m, t.m));
    CreateData(s.m, t.m, sh, space, page, n, at);
    CreateStore(s.m, t.m, sh, space, page, n, at);
    StoreFacts(t.m, sh);
    DataFrames(t.m, sh);
    PartsOf(s);
    NamedFrom(s, t, j, sh);
  }

  lemma CreatePairs(s: State, t: State, j: nat, space: nat, page: nat, n: nat, at: seq<nat>)
    requires Core(s) && CreatedState(s, t, j, space, page, n, at) && Named(t)
    ensures Pairs(t)
  {
    hide *;
    var sh := CreatedFacts(s, t, j, space, page, n, at);
    forall a: nat, b: nat | Live(t, a) && Live(t, b) && a != b
      ensures a < |t.shares| && b < |t.shares| && AreFrames(t.m, t.shares[a].tables) && AreFrames(t.m, t.shares[b].tables)
      ensures SharesApart(t.m, t.shares[a], t.shares[b])
    {
      LiveIs(t, a);
      LiveIs(t, b);
      if b != j {
        CreatePair(s, t, j, space, page, n, at, a, b);
      } else {
        CreatePair(s, t, j, space, page, n, at, b, a);
      }
    }
    PairsFrom(t);
  }

  lemma CreateCore(s: State, t: State, j: nat, space: nat, page: nat, n: nat, at: seq<nat>)
    requires Core(s) && CreatedState(s, t, j, space, page, n, at)
    ensures Core(t)
  {
    hide *;
    PartsOf(s);
    CreateObjects(s, t, j, space, page, n, at);
    CreatePairs(s, t, j, space, page, n, at);
    CreateViews(s, t, j, space, page, n, at);
    CreateCounts(s, t, j, space, page, n, at);
    var sh := CreatedFacts(s, t, j, space, page, n, at);
    CoreFrom(t);
  }
}
