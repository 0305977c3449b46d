/**
 Stores and page tables on pages of the kernel heap: over every run of the
 shared-object calls, with the kmalloc and kfree calls they make, each call is
 its step of SharesSpec, and the taken blocks of the heap are those of the rest
 of the kernel and those that live stores and page tables are on.
 */
module SharedHeapTheorems {
  import RR = RoundRobin
  import opened Blocks
  import opened Tiling
  import opened Frames
  import opened FrameRanges
  import opened FrameTable
  import opened SharesMemory
  import opened SharedHeapSpec
  import opened SharedHeapLoops
  import F = FreeMemSpec
  import K = KernelHeapSpec
  import KT = KernelHeapTheorems
  import S = SharesSpec
  import SC = SharesCore
  import SN = SharesCreate
  import SF = SharesFree
  import ST = SharesTheorems
  import SM = SharedMemory
  import BL = BlockLists

  // ----- createSharedObject is its step -----

  /** The new tables and the kernel pages they are on. */
  function Added(ts: map<nat, nat>, us: map<nat, nat>): map<nat, nat> {
    map d: nat | d in us && d !in ts :: us[d]
  }

  lemma AddedIsPicked(ts: map<nat, nat>, us: map<nat, nat>)
    ensures Picked(ts, us, Added(ts, us))
    ensures forall d: nat :: d in Added(ts, us) <==> d in us && d !in ts
    ensures forall d: nat :: d in Added(ts, us) ==> Added(ts, us)[d] == us[d]
  {
  }

  /** What kmalloc gave is what a create, or new tables, ask for. */
  lemma GrownRoom(h0: K.State, ts: map<nat, nat>, l: Loop, n: nat, space: nat, page: nat)
    requires Grown(h0, ts, l, n)
    ensures Picks(h0.mem, Added(ts, l.us), l.at)
    ensures space != K.KERNEL && Unmapped(h0.mem, space, page, n) ==> Room(h0.mem, Added(ts, l.us), space, page, n, l.at)
    ensures |l.at| + |l.us| + n <= |h0.mem.free| + |ts|
  {
    GrownPages(h0, ts, l, n);
    GrownFrames(h0, ts, l, n);
    hide *;
    AddedIsPicked(ts, l.us);
    PagesAreFree(h0, ts, l, Added(ts, l.us));
    if space != K.KERNEL && Unmapped(h0.mem, space, page, n) {
      RoomFrom(h0.mem, Added(ts, l.us), space, page, n, l.at);
    }
  }

  lemma GrownFrames(h0: K.State, ts: map<nat, nat>, l: Loop, n: nat)
    requires Grown(h0, ts, l, n)
    ensures |l.at| + |l.us| + n <= |h0.mem.free| + |ts|
  {
    hide NewPages, K.Inv, Empty;
  }

  lemma RoomFrom(m: Memory, pick: map<nat, nat>, space: nat, page: nat, n: nat, at: seq<nat>)
    requires space != K.KERNEL && Unmapped(m, space, page, n) && Picks(m, pick, at) && RR.NoRepeats(at)
    requires forall i :: 0 <= i < |at| ==> Empty(m, KernelPage(at[i]))
    ensures Room(m, pick, space, page, n, at)
  {
  }

  lemma PagesAreFree(h0: K.State, ts: map<nat, nat>, l: Loop, pick: map<nat, nat>)
    requires NewPages(h0, ts, l)
    requires forall d: nat :: d in pick <==> d in l.us && d !in ts
    requires forall d: nat :: d in pick ==> pick[d] == l.us[d]
    ensures Picks(h0.mem, pick, l.at) && RR.NoRepeats(l.at)
    ensures forall i :: 0 <= i < |l.at| ==> Empty(h0.mem, KernelPage(l.at[i]))
  {
    forall d: nat | d in pick
      ensures Empty(h0.mem, KernelPage(pick[d])) && pick[d] !in l.at
    {
      assert NewPage(ts, l, pick[d]);
    }
    forall i | 0 <= i < |l.at|
      ensures Empty(h0.mem, KernelPage(l.at[i]))
    {
      assert NewPage(ts, l, l.at[i]);
    }
    hide RR.NoRepeats, NewPage, Empty, PageBlock, KernelPage;
  }

  lemma GrownNone(h: K.State, ts: map<nat, nat>)
    requires K.Inv(h)
    ensures Grown(h, ts, Loop(h, ts, []), 0)
  {
    hide K.Inv;
  }

  lemma CreateIs(x: System, g: K.Strategy, owner: int, name: string, n: nat, writable: bool, space: nat, page: nat)
    requires K.Sound(x.heap) && S.FirstEmpty(x.shares, 0) < |x.shares|
    requires Create(x, g, owner, name, n, writable, space, page).Done?
    ensures TakePage(x.heap, g).Done?
    ensures var (h, dir) := TakePage(x.heap, g).value;
      var l0 := Loop(h, S.TablesOf(x.tables, space), [dir]);
      && K.Sound(h) && StoreLoop(l0, g, space, page, n).Done?
      && var l := StoreLoop(l0, g, space, page, n).value;
      var j := S.FirstEmpty(x.shares, 0);
      && 0 < |l.at|
      && Create(x, g, owner, name, n, writable, space, page).value ==
         System(l.h, x.shares[j := S.Share(owner, name, n, writable, 1, dir, S.TablesAt(l.h.mem, l.at[1..]), S.FramesAt(l.h.mem, space, page, n), false)],
                x.views + {S.View(j, space, page)}, x.tables[space := l.us])
  {
    hide TakePage, StoreLoop, S.FramesAt, S.TablesAt;
  }

  /** The loop of a create: where it ends, and the pages it took on the way. */
  lemma CreateLoop(x: System, g: K.Strategy, owner: int, name: string, n: nat, writable: bool, space: nat, page: nat) returns (l: Loop)
    requires K.Inv(x.heap) && K.Sound(x.heap) && S.FirstEmpty(x.shares, 0) < |x.shares| && space != K.KERNEL
    requires Unmapped(x.heap.mem, space, page, n)
    requires Create(x, g, owner, name, n, writable, space, page).Done?
    ensures var y := Create(x, g, owner, name, n, writable, space, page).value;
      var ts := S.TablesOf(x.tables, space);
      var pick := Added(ts, l.us);
      && Grown(x.heap, ts, l, n) && l.h == y.heap && |l.at| == 1 + TableCount(n) && l.us == TablesAfter(ts, pick, page, n)
      && WellFormed(x.heap.mem) && Room(x.heap.mem, pick, space, page, n, l.at) && S.Coverable(ts, pick, page, n)
      && n + |l.at| + NewTables(ts, pick, page, n) <= |x.heap.mem.free|
      && Shared(y) == S.CreateStep(Shared(x), owner, name, n, writable, space, page, l.at, pick)
  {
    hide *;
    CreateIs(x, g, owner, name, n, writable, space, page);
    var ts := S.TablesOf(x.tables, space);
    TookIt(x.heap, g);
    var (h, dir) := TakePage(x.heap, g).value;
    GrownNone(x.heap, ts);
    StorePageTaken(x.heap, ts, Loop(x.heap, ts, []), 0, h, dir);
    assert [] + [dir] == [dir];
    var l0 := Loop(h, ts, [dir]);
    GrewFacts(x.heap.mem, h.mem);
    PageIs(dir);
    AheadAll(x.heap.mem, h.mem, space, page, n);
    StoreLoopGrows(x.heap, ts, l0, g, space, page, n, n);
    l := StoreLoop(l0, g, space, page, n).value;
    var pick := Added(ts, l.us);
    AddedIsPicked(ts, l.us);
    GrownRoom(x.heap, ts, l, n, space, page);
    StoreLoopTables(l0, g, space, page, n, pick);
    TablesAfterAre(ts, pick, page, n);
    CoverableFrom(ts, l.us, pick, page, n);
    FrameTaken(x.heap, h, dir);
    Whole(l.at);
    MorePrefix(l0, l);
    FirstOfPrefix(l.at, dir);
    StoreLoopMemory(l0, g, space, page, n, pick, l.at);
    CreateShared(x, owner, name, n, writable, space, page, l.at, pick, h);
    SharedIs(Create(x, g, owner, name, n, writable, space, page).value);
  }

  lemma Whole(q: seq<nat>)
    ensures q[..|q|] == q
  {
  }

  lemma FirstOfPrefix(q: seq<nat>, p: nat)
    requires 0 < |q| && q[..1] == [p]
    ensures q[0] == p
  {
    assert q[0] == q[..1][0];
  }

  lemma CoverableFrom(ts: map<nat, nat>, us: map<nat, nat>, pick: map<nat, nat>, page: nat, n: nat)
    requires forall p: nat :: page <= p < page + n ==> Directory(p) in us
    requires forall d: nat :: d in pick <==> d in us && d !in ts
    ensures S.Coverable(ts, pick, page, n)
  {
    hide Directory;
  }

  lemma FrameTaken(h: K.State, t: K.State, p: nat)
    requires TookPage(h, t, p)
    ensures |t.mem.free| == |h.mem.free| - 1
  {
  }

  lemma CreateShared(x: System, owner: int, name: string, n: nat, writable: bool, space: nat, page: nat, at: seq<nat>, pick: map<nat, nat>, h: K.State)
    requires WellFormed(x.heap.mem) && |at| == 1 + TableCount(n) && S.FirstEmpty(x.shares, 0) < |x.shares|
    requires n + |at| + NewTables(S.TablesOf(x.tables, space), pick, page, n) <= |x.heap.mem.free|
    requires h.mem == TakeKernelPage(x.heap.mem, at[0])
    ensures WellFormed(h.mem) && n + TableCount(n) + NewTables(S.TablesOf(x.tables, space), pick, page, n) <= |h.mem.free|
    ensures var ts, j := S.TablesOf(x.tables, space), S.FirstEmpty(x.shares, 0);
      var m := StoreRange(h.mem, ts, pick, space, page, n, at[1..]);
      S.CreateStep(Shared(x), owner, name, n, writable, space, page, at, pick) ==
      S.State(m, x.shares[j := S.Share(owner, name, n, writable, 1, at[0], S.TablesAt(m, at[1..]), S.FramesAt(m, space, page, n), false)],
              x.views + {S.View(j, space, page)}, x.tables[space := TablesAfter(ts, pick, page, n)])
  {
    SharedIs(x);
    hide *;
    KernelPageTaken(x.heap.mem, at[0]);
    SM.CreateStepIs(Shared(x), owner, name, n, writable, space, page, at, pick);
  }

  lemma SharedIs(x: System)
    ensures Shared(x) == S.State(x.heap.mem, x.shares, x.views, x.tables)
  {
  }

  // ----- whose pages: createSharedObject -----

  lemma {:induction false} InTableSlots(m: Memory, tables: seq<nat>, n: nat, k: nat)
    requires WellFormed(m) && k < n <= |tables| && AreFrames(m, tables)
    ensures tables[k] < |m.va| && TableSlot(m, tables[k]) in TableSlots(m, tables, n)
  {
    if k < n - 1 {
      InTableSlots(m, tables, n - 1, k);
    }
  }

  lemma DirInStore(m: Memory, sh: S.Share)
    requires WellFormed(m) && AreFrames(m, sh.tables)
    ensures KernelPage(sh.dir) in S.StorePages(m, sh)
    ensures forall u: Slot :: u in TableSlots(m, sh.tables, |sh.tables|) ==> u in S.StorePages(m, sh)
  {
  }

  /** Every page taken for the store is a page of the new object's store. */
  lemma StoreHolds(m: Memory, r: Memory, sh: S.Share, space: nat, page: nat, n: nat, at: seq<nat>, k: nat)
    requires SN.Created(m, r, space, page, n, at) && |at| == 1 + TableCount(n) && k < |at|
    requires sh.tables == S.TablesAt(r, at[1..]) && sh.pages == n && sh.dir == at[0]
    ensures WellFormed(r) && AreFrames(r, sh.tables) && KernelPage(at[k]) in S.StorePages(r, sh)
  {
    hide *;
    SN.CreateStore(m, r, sh, space, page, n, at);
    SC.StoreOkFrames(r, sh);
    DirInStore(r, sh);
    SN.TablesAtIs(r, space, page, n, at, k);
    if k > 0 {
      SN.CreatedSlot(m, r, space, page, n, at, KernelPage(at[k]));
      SN.OwnPageFrom(r, sh.tables[k - 1], at[k]);
      InTableSlots(r, sh.tables, |sh.tables|, k - 1);
    }
  }

  lemma InStoreFrom(s: S.State, u: Slot, i: nat)
    requires S.Named(s) && S.Live(s, i) && i < |s.shares| && WellFormed(s.m) && AreFrames(s.m, s.shares[i].tables)
    requires u in S.StorePages(s.m, s.shares[i])
    ensures InStore(s, u)
  {
  }

  lemma InStoreIs(s: S.State, u: Slot) returns (i: nat)
    requires S.Named(s) && InStore(s, u)
    ensures S.Live(s, i) && i < |s.shares| && !s.shares[i].empty && WellFormed(s.m) && AreFrames(s.m, s.shares[i].tables)
    ensures u in S.StorePages(s.m, s.shares[i])
  {
    i :| S.Live(s, i) && u in S.StorePages(s.m, s.shares[i]);
  }

  lemma CreateStores(s: S.State, t: S.State, j: nat, space: nat, page: nat, n: nat, at: seq<nat>, u: Slot)
    requires S.Core(s) && SN.CreatedState(s, t, j, space, page, n, at) && S.Named(s) && S.Named(t)
    ensures InStore(t, u) <==> InStore(s, u) || (u.space == K.KERNEL && u.page in at)
  {
    hide *;
    var sh := SN.CreatedFacts(s, t, j, space, page, n, at);
    if InStore(t, u) {
      var i := InStoreIs(t, u);
      if i == j {
        SN.CreateNew(s, t, j, space, page, n, at);
      } else {
        SN.CreateOld(s, t, j, space, page, n, at, i);
        SC.LiveFacts(s, i);
        SC.StoreStays(s.m, t.m, s.shares[i]);
        InStoreFrom(s, u, i);
      }
    }
    if InStore(s, u) {
      var i := InStoreIs(s, u);
      SC.LiveIs(t, i);
      SN.CreateOld(s, t, j, space, page, n, at, i);
      SC.LiveFacts(s, i);
      SC.StoreStays(s.m, t.m, s.shares[i]);
      SC.StoreOkFrames(t.m, s.shares[i]);
      InStoreFrom(t, u, i);
    }
    if u.space == K.KERNEL && u.page in at {
      var k :| 0 <= k < |at| && at[k] == u.page;
      StoreHolds(s.m, t.m, sh, space, page, n, at, k);
      PageIs(u.page);
      SC.LiveIs(t, j);
      InStoreFrom(t, u, j);
    }
  }

  /** The page tables after more were made. */
  lemma TablesMore(tables: map<nat, map<nat, nat>>, space: nat, us: map<nat, nat>, u: Slot)
    requires var ts := S.TablesOf(tables, space); forall d: nat :: d in ts ==> d in us && us[d] == ts[d]
    ensures IsTable(tables[space := us], u) <==>
            IsTable(tables, u) || (u.space == K.KERNEL && exists d: nat :: d in us && d !in S.TablesOf(tables, space) && us[d] == u.page)
  {
    var ts, more := S.TablesOf(tables, space), tables[space := us];
    if IsTable(more, u) {
      var e: nat, d: nat :| S.HasTable(more, e, d) && u == S.TablePage(more, e, d);
      assert S.HasTable(tables, e, d) ==> S.TablePage(tables, e, d) == u;
      assert !S.HasTable(tables, e, d) ==> e == space && d in us && d !in ts && us[d] == u.page;
    }
    if IsTable(tables, u) {
      var e: nat, d: nat :| S.HasTable(tables, e, d) && u == S.TablePage(tables, e, d);
      assert S.HasTable(more, e, d) && S.TablePage(more, e, d) == u;
    }
    if u.space == K.KERNEL && exists d: nat :: d in us && d !in ts && us[d] == u.page {
      var d: nat :| d in us && d !in ts && us[d] == u.page;
      assert S.HasTable(more, space, d) && S.TablePage(more, space, d) == u;
    }
  }

  /** Inv's last two clauses. */
  ghost predicate Accounted(taken: seq<Block>, s: S.State, rest: set<Block>)
    requires S.Named(s)
  {
    && (forall b :: b in taken <==> b in rest || OwnBlock(s, b))
    && (forall b :: b in rest ==> !OwnBlock(s, b))
  }

  lemma InvParts(x: System, rest: set<Block>)
    requires Inv(x, rest)
    ensures K.Inv(x.heap) && S.Inv(Shared(x)) && S.Core(Shared(x)) && S.Tabled(Shared(x)) && S.Named(Shared(x))
    ensures Accounted(x.heap.heap.taken, Shared(x), rest)
  {
    hide K.Inv, S.Core, S.Tabled, OwnBlock;
    SC.PartsOf(Shared(x));
  }

  lemma InvFrom(x: System, rest: set<Block>)
    requires K.Inv(x.heap) && S.Inv(Shared(x)) && S.Named(Shared(x)) && Accounted(x.heap.heap.taken, Shared(x), rest)
    ensures Inv(x, rest)
  {
    hide K.Inv, S.Inv, OwnBlock;
  }

  lemma OwnBlockIs(s: S.State, b: Block)
    requires S.Named(s)
    ensures OwnBlock(s, b) <==> 0 <= b.start && b == PageBlock(b.start / PAGE_SIZE) && Owns(s, KernelPage(b.start / PAGE_SIZE))
  {
  }

  /** t owns what s owns and the pages taken since. */
  ghost predicate OwnsMore(s: S.State, t: S.State, ts: map<nat, nat>, l: Loop)
    requires S.Named(s) && S.Named(t)
  {
    forall p: nat :: Owns(t, KernelPage(p)) <==> Owns(s, KernelPage(p)) || NewPage(ts, l, p)
  }

  lemma OwnsMoreAt(s: S.State, t: S.State, ts: map<nat, nat>, l: Loop, b: Block)
    requires S.Named(s) && S.Named(t) && OwnsMore(s, t, ts, l)
    ensures OwnBlock(t, b) <==>
            OwnBlock(s, b) || (0 <= b.start && b == PageBlock(b.start / PAGE_SIZE) && NewPage(ts, l, b.start / PAGE_SIZE))
  {
    hide Owns, NewPage, PageBlock, KernelPage;
  }

  lemma BlocksMore(h0: K.State, s: S.State, t: S.State, rest: set<Block>, ts: map<nat, nat>, l: Loop, n: nat)
    requires S.Named(s) && S.Named(t) && Accounted(h0.heap.taken, s, rest) && Grown(h0, ts, l, n) && OwnsMore(s, t, ts, l)
    ensures Accounted(l.h.heap.taken, t, rest)
  {
    GrownPages(h0, ts, l, n);
    forall b
      ensures OwnBlock(t, b) <==>
              OwnBlock(s, b) || (0 <= b.start && b == PageBlock(b.start / PAGE_SIZE) && NewPage(ts, l, b.start / PAGE_SIZE))
    {
      OwnsMoreAt(s, t, ts, l, b);
    }
    hide K.Inv, OwnsMore, OwnBlock, NewPage, PageBlock, RR.NoRepeats, Empty, KernelPage;
  }

  lemma CreateOwns(s: S.State, t: S.State, j: nat, space: nat, page: nat, n: nat, l: Loop)
    requires S.Core(s) && SN.CreatedState(s, t, j, space, page, n, l.at) && S.Named(s) && S.Named(t)
    requires var ts := S.TablesOf(s.tables, space);
      && t.tables == s.tables[space := l.us] && forall d: nat :: d in ts ==> d in l.us && l.us[d] == ts[d]
    ensures OwnsMore(s, t, S.TablesOf(s.tables, space), l)
  {
    var ts := S.TablesOf(s.tables, space);
    forall p: nat
      ensures Owns(t, KernelPage(p)) <==> Owns(s, KernelPage(p)) || NewPage(ts, l, p)
    {
      CreateStores(s, t, j, space, page, n, l.at, KernelPage(p));
      TablesMore(s.tables, space, l.us, KernelPage(p));
      hide S.Core, S.Named, SN.CreatedState, InStore, IsTable, S.TablesOf;
    }
  }

  /**
   createSharedObject with the pages kmalloc gives is the create of SharesSpec on
   these pages, which are as it asks; heap and objects stay sound, and the blocks
   it takes are owned by the new object's store and the new tables.  It succeeds
   exactly when there is a frame for every page of object, store and tables, and
   a vacant heap page for every one of the last two; under first fit something
   must be taken.
   */
  lemma CreateKeeps(x: System, rest: set<Block>, g: K.Strategy, owner: int, name: string, n: nat, writable: bool, space: nat, page: nat)
    returns (at: seq<nat>, pick: map<nat, nat>)
    requires Inv(x, rest) && 0 < n && space != K.KERNEL && Unmapped(x.heap.mem, space, page, n)
    requires S.Find(x.shares, owner, name) == |x.shares| && S.FirstEmpty(x.shares, 0) < |x.shares|
    ensures K.Sound(x.heap) && WellFormed(x.heap.mem)
    ensures match Create(x, g, owner, name, n, writable, space, page) {
      case Done(y) =>
        var ts := S.TablesOf(x.tables, space);
        && Inv(y, rest) && |at| == 1 + TableCount(n) && Room(x.heap.mem, pick, space, page, n, at) && S.Coverable(ts, pick, page, n)
        && n + |at| + NewTables(ts, pick, page, n) <= |x.heap.mem.free|
        && Shared(y) == S.CreateStep(Shared(x), owner, name, n, writable, space, page, at, pick)
      case Stopped => true
    }
    ensures var c := 1 + PagesFor(S.TablesOf(x.tables, space), page, n);
      Create(x, g, owner, name, n, writable, space, page).Done? <==>
      n + c <= |x.heap.mem.free| && c <= |VacantPages(x.heap)| && !(g.FirstFitStrategy? && x.heap.heap.taken == [])
  {
    hide *;
    InvParts(x, rest);
    KT.InvIsSound(x.heap);
    KT.InvParts(x.heap);
    CreateDone(x, g, owner, name, n, writable, space, page);
    SharedIs(x);
    at, pick := [], map[];
    match Create(x, g, owner, name, n, writable, space, page)
    case Stopped =>
    case Done(y) =>
      var l := CreateLoop(x, g, owner, name, n, writable, space, page);
      var ts := S.TablesOf(x.tables, space);
      at, pick := l.at, Added(ts, l.us);
      var s, t, j := Shared(x), Shared(y), S.FirstEmpty(x.shares, 0);
      SharedIs(y);
      ST.CreateKeeps(s, owner, name, n, writable, space, page, at, pick);
      CreateState(s, t, owner, name, n, writable, space, page, at, pick);
      SF.InvIs(t);
      SC.PartsOf(t);
      GrownInv(x.heap, ts, l, n);
      GrownPages(x.heap, ts, l, n);
      AddedTables(x.heap, ts, l);
      CreateOwns(s, t, j, space, page, n, l);
      BlocksMore(x.heap, s, t, rest, ts, l, n);
      InvFrom(y, rest);
  }

  lemma CreateStops(x: System, g: K.Strategy, owner: int, name: string, n: nat, writable: bool, space: nat, page: nat)
    requires K.Sound(x.heap) && S.FirstEmpty(x.shares, 0) < |x.shares|
    ensures Create(x, g, owner, name, n, writable, space, page).Done? <==>
              TakePage(x.heap, g).Done? && (var (h, dir) := TakePage(x.heap, g).value;
                                            StoreLoop(Loop(h, S.TablesOf(x.tables, space), [dir]), g, space, page, n).Done?)
  {
    hide TakePage, StoreLoop;
  }

  lemma CreateDone(x: System, g: K.Strategy, owner: int, name: string, n: nat, writable: bool, space: nat, page: nat)
    requires K.Inv(x.heap) && K.Sound(x.heap) && S.FirstEmpty(x.shares, 0) < |x.shares| && space != K.KERNEL
    requires Unmapped(x.heap.mem, space, page, n)
    ensures var c := 1 + PagesFor(S.TablesOf(x.tables, space), page, n);
      Create(x, g, owner, name, n, writable, space, page).Done? <==>
      n + c <= |x.heap.mem.free| && c <= |VacantPages(x.heap)| && !(g.FirstFitStrategy? && x.heap.heap.taken == [])
  {
    hide *;
    CreateStops(x, g, owner, name, n, writable, space, page);
    TakePageIs(x.heap, g);
    NoVacantPage(x.heap);
    TookIt(x.heap, g);
    if TakePage(x.heap, g).Done? {
      var (h, dir) := TakePage(x.heap, g).value;
      var ts := S.TablesOf(x.tables, space);
      VacantAfter(x.heap, h, dir);
      FrameTaken(x.heap, h, dir);
      GrownNone(x.heap, ts);
      StorePageTaken(x.heap, ts, Loop(x.heap, ts, []), 0, h, dir);
      assert [] + [dir] == [dir];
      GrewFacts(x.heap.mem, h.mem);
      PageIs(dir);
      AheadAll(x.heap.mem, h.mem, space, page, n);
      StoreLoopDone(x.heap, ts, Loop(h, ts, [dir]), g, space, page, n, n);
    }
  }

  lemma AddedTables(h0: K.State, ts: map<nat, nat>, l: Loop)
    requires NewPages(h0, ts, l)
    ensures forall d: nat :: d in ts ==> d in l.us && l.us[d] == ts[d]
  {
  }

  lemma CreateState(s: S.State, t: S.State, owner: int, name: string, n: nat, writable: bool, space: nat, page: nat, at: seq<nat>, pick: map<nat, nat>)
    requires S.Core(s) && S.Named(s) && WellFormed(s.m) && Room(s.m, pick, space, page, n, at) && 0 < n && |at| == 1 + TableCount(n)
    requires n + |at| + NewTables(S.TablesOf(s.tables, space), pick, page, n) <= |s.m.free|
    requires S.Find(s.shares, owner, name) == |s.shares| && S.FirstEmpty(s.shares, 0) < |s.shares|
    requires t == S.CreateStep(s, owner, name, n, writable, space, page, at, pick)
    ensures SN.CreatedState(s, t, S.FirstEmpty(s.shares, 0), space, page, n, at)
    ensures t.tables == s.tables[space := TablesAfter(S.TablesOf(s.tables, space), pick, page, n)]
  {
    SC.PartsOf(s);
    var ts := S.TablesOf(s.tables, space);
    assert t.m == S.CreateMemory(s.m, ts, pick, space, page, n, at);
    hide *;
    SN.CreateGrows(s.m, ts, pick, space, page, n, at);
    ST.CreateIsCreated(s, t, owner, name, n, writable, space, page, at, pick, S.FirstEmpty(s.shares, 0));
  }

  // ----- getSharedObject -----

  lemma GetIs(x: System, g: K.Strategy, i: nat, space: nat, page: nat)
    requires K.Sound(x.heap) && S.Named(Shared(x)) && i < |x.shares|
    requires Get(x, g, i, space, page).Done?
    ensures var sh := x.shares[i];
      var l0 := Loop(x.heap, S.TablesOf(x.tables, space), []);
      && AreFrames(x.heap.mem, sh.frames) && |sh.frames| == sh.pages
      && GetLoop(l0, g, space, page, sh.frames, sh.pages, S.Permission(sh.writable)).Done?
      && var l := GetLoop(l0, g, space, page, sh.frames, sh.pages, S.Permission(sh.writable)).value;
      Get(x, g, i, space, page).value ==
      System(l.h, x.shares[i := sh.(refs := sh.refs + 1)], x.views + {S.View(i, space, page)}, x.tables[space := l.us])
  {
    hide GetLoop, S.Permission;
  }

  lemma PermissionIs(writable: bool)
    ensures S.Permission(writable) == if writable then PERM_WRITEABLE + PERM_USER else PERM_USER
  {
  }

  /** The loop of a get: where it ends, and the pages it took on the way. */
  lemma GetLoopIs(x: System, rest: set<Block>, g: K.Strategy, i: nat, space: nat, page: nat) returns (l: Loop)
    requires Inv(x, rest) && S.Live(Shared(x), i) && i < |x.shares| && space != K.KERNEL
    requires x.shares[i].refs + 1 < COUNT_LIMIT && Unmapped(x.heap.mem, space, page, x.shares[i].pages)
    requires K.Sound(x.heap) && S.Named(Shared(x)) && Get(x, g, i, space, page).Done?
    ensures var y := Get(x, g, i, space, page).value;
      var ts := S.TablesOf(x.tables, space);
      var pick := Added(ts, l.us);
      && Grown(x.heap, ts, l, 0) && l.h == y.heap && l.at == [] && l.us == TablesAfter(ts, pick, page, x.shares[i].pages)
      && Picks(x.heap.mem, pick, []) && S.Coverable(ts, pick, page, x.shares[i].pages)
      && NewTables(ts, pick, page, x.shares[i].pages) <= |x.heap.mem.free|
      && Shared(y) == S.GetStep(Shared(x), i, space, page, pick)
  {
    hide *;
    InvParts(x, rest);
    SharedIs(x);
    GetIs(x, g, i, space, page);
    var ts, sh := S.TablesOf(x.tables, space), x.shares[i];
    var perm := S.Permission(sh.writable);
    SC.LiveFacts(Shared(x), i);
    GrownNone(x.heap, ts);
    var l0 := Loop(x.heap, ts, []);
    AheadAll(x.heap.mem, x.heap.mem, space, page, sh.pages);
    WaitingAll(x.heap.mem, sh.frames);
    GetLoopGrows(x.heap, ts, l0, g, space, page, sh.frames, sh.pages, perm);
    l := GetLoop(l0, g, space, page, sh.frames, sh.pages, perm).value;
    var pick := Added(ts, l.us);
    AddedIsPicked(ts, l.us);
    GetLoopTables(l0, g, space, page, sh.frames, sh.pages, perm, pick);
    GrownRoom(x.heap, ts, l, 0, space, page);
    TablesAfterAre(ts, pick, page, sh.pages);
    CoverableFrom(ts, l.us, pick, page, sh.pages);
    GetLoopMemory(l0, g, space, page, sh.frames, sh.pages, perm, pick);
    ST.GetStepIs(Shared(x), i, space, page, pick);
    PermissionIs(sh.writable);
    SharedIs(Get(x, g, i, space, page).value);
  }

  /** The objects' stores are on the same pages. */
  ghost predicate SameStores(s: S.State, t: S.State)
    requires S.Named(s) && S.Named(t)
  {
    forall u: Slot :: InStore(t, u) <==> InStore(s, u)
  }

  lemma SameStoresFrom(s: S.State, t: S.State)
    requires S.Named(s) && S.Named(t)
    requires forall i: nat :: S.Live(t, i) <==> S.Live(s, i)
    requires forall i: nat :: S.Live(t, i) ==>
               && i < |t.shares| && i < |s.shares| && WellFormed(s.m) && WellFormed(t.m)
               && AreFrames(s.m, s.shares[i].tables) && AreFrames(t.m, t.shares[i].tables)
               && S.StorePages(t.m, t.shares[i]) == S.StorePages(s.m, s.shares[i])
    ensures SameStores(s, t)
  {
    forall u: Slot
      ensures InStore(t, u) <==> InStore(s, u)
    {
      if InStore(t, u) {
        var i := InStoreIs(t, u);
        InStoreFrom(s, u, i);
      }
      if InStore(s, u) {
        var i := InStoreIs(s, u);
        InStoreFrom(t, u, i);
      }
    }
  }

  lemma GrewStores(s: S.State, t: S.State)
    requires S.Core(s) && Grew(s.m, t.m) && t.shares == s.shares && t.views == s.views
    ensures S.Core(t) && S.Named(t) && S.Named(s) && SameStores(s, t)
  {
    hide *;
    ST.GrewCore(s, t);
    SC.LiveSame(s, t);
    forall i: nat | S.Live(t, i)
      ensures i < |s.shares|
    {
      SC.LiveIs(t, i);
    }
    SameStoresFrom(s, t);
  }

  lemma JoinedStores(s: S.State, t: S.State, i: nat, space: nat, page: nat, perm: nat)
    requires S.Core(s) && S.Core(t) && S.Live(s, i) && WellFormed(s.m) && WellFormed(t.m) && i < |s.shares|
    requires Joined(s.m, t.m, space, page, s.shares[i].frames, |s.shares[i].frames|, perm)
    requires t.shares == s.shares[i := s.shares[i].(refs := s.shares[i].refs + 1)]
    ensures S.Named(s) && S.Named(t) && SameStores(s, t)
  {
    hide *;
    SC.PartsOf(s);
    SC.PartsOf(t);
    SC.LiveIs(s, i);
    forall j: nat
      ensures S.Live(t, j) <==> S.Live(s, j)
    {
      SC.LiveIs(t, j);
      SC.LiveIs(s, j);
    }
    forall j: nat | S.Live(t, j)
      ensures j < |t.shares| && j < |s.shares|
      ensures AreFrames(s.m, s.shares[j].tables) && AreFrames(t.m, t.shares[j].tables)
      ensures S.StorePages(t.m, t.shares[j]) == S.StorePages(s.m, s.shares[j])
    {
      SC.LiveIs(t, j);
      SC.LiveFacts(s, j);
      SC.JoinedLeavesStores(s, t.m, i, space, page, perm, j);
      SC.JoinedLength(s.m, t.m, space, page, s.shares[i].frames, perm);
      SC.StoreStays(s.m, t.m, s.shares[j]);
      SC.StoreOkFrames(t.m, s.shares[j]);
      SF.SameTables(t.m, s.shares[j], t.shares[j]);
    }
    SameStoresFrom(s, t);
  }

  lemma SameStoresTrans(s: S.State, q: S.State, t: S.State)
    requires S.Named(s) && S.Named(q) && S.Named(t) && SameStores(s, q) && SameStores(q, t)
    ensures SameStores(s, t)
  {
    hide S.Named, InStore;
  }

  /** A get leaves every store where it was. */
  lemma GetStores(s: S.State, i: nat, space: nat, page: nat, pick: map<nat, nat>)
    requires S.Core(s) && S.Live(s, i) && i < |s.shares| && space != K.KERNEL && Picks(s.m, pick, [])
    requires s.shares[i].refs + 1 < COUNT_LIMIT && Unmapped(s.m, space, page, s.shares[i].pages)
    requires S.Named(s) && NewTables(S.TablesOf(s.tables, space), pick, page, s.shares[i].pages) <= |s.m.free|
    ensures S.Named(S.GetStep(s, i, space, page, pick)) && SameStores(s, S.GetStep(s, i, space, page, pick))
  {
    hide *;
    SC.LiveFacts(s, i);
    SC.PartsOf(s);
    var sh, ts := s.shares[i], S.TablesOf(s.tables, space);
    var n, perm := sh.pages, S.Permission(sh.writable);
    ST.GetStepIs(s, i, space, page, pick);
    var t := S.GetStep(s, i, space, page, pick);
    MakeTablesGrow(s.m, ts, pick, page, n);
    var q := S.State(MakeTables(s.m, ts, pick, page, n), s.shares, s.views, t.tables);
    GrewStores(s, q);
    GrewFacts(s.m, q.m);
    ST.MappableOf(s, i);
    GetRangeIs(s.m, ts, pick, space, page, sh.frames, n, perm);
    UserSlots(s.m, q.m, TablesAfter(ts, pick, page, n), ts, space, page, n);
    SC.LiveSame(s, q);
    SC.GetCore(q, t, i, space, page);
    JoinedStores(q, t, i, space, page, perm);
    SameStoresTrans(s, q, t);
  }

  lemma UserSlots(m: Memory, r: Memory, us: map<nat, nat>, ts: map<nat, nat>, space: nat, page: nat, n: nat)
    requires space != K.KERNEL && forall u: Slot :: u in r.ptes <==> u in m.ptes || u in TablePages(us, ts)
    requires Unmapped(m, space, page, n) && r.boot == m.boot
    ensures Unmapped(r, space, page, n)
  {
    OnlyKernelPages(m, r, us, ts, space);
    ST.StillUnmapped(m, r, space, page, n);
  }

  lemma GetOwns(s: S.State, t: S.State, space: nat, l: Loop)
    requires S.Named(s) && S.Named(t) && SameStores(s, t) && l.at == []
    requires var ts := S.TablesOf(s.tables, space);
      && t.tables == s.tables[space := l.us] && forall d: nat :: d in ts ==> d in l.us && l.us[d] == ts[d]
    ensures OwnsMore(s, t, S.TablesOf(s.tables, space), l)
  {
    var ts := S.TablesOf(s.tables, space);
    forall p: nat
      ensures Owns(t, KernelPage(p)) <==> Owns(s, KernelPage(p)) || NewPage(ts, l, p)
    {
      TablesMore(s.tables, space, l.us, KernelPage(p));
      assert InStore(t, KernelPage(p)) <==> InStore(s, KernelPage(p));
      hide S.Named, InStore, IsTable, S.TablesOf;
    }
  }

  lemma GetStops(x: System, g: K.Strategy, i: nat, space: nat, page: nat)
    requires K.Sound(x.heap) && S.Named(Shared(x)) && i < |x.shares|
    ensures var sh := x.shares[i];
      && AreFrames(x.heap.mem, sh.frames) && |sh.frames| == sh.pages
      && (Get(x, g, i, space, page).Done? <==>
            GetLoop(Loop(x.heap, S.TablesOf(x.tables, space), []), g, space, page, sh.frames, sh.pages, S.Permission(sh.writable)).Done?)
  {
    hide GetLoop, S.Permission;
  }

  /** A live object's store keeps the heap from being empty. */
  lemma SomethingTaken(x: System, rest: set<Block>, i: nat)
    requires Inv(x, rest) && S.Live(Shared(x), i) && i < |x.shares|
    ensures x.heap.heap.taken != []
  {
    hide *;
    InvParts(x, rest);
    SharedIs(x);
    SC.LiveFacts(Shared(x), i);
    DirInStore(x.heap.mem, x.shares[i]);
    InStoreFrom(Shared(x), KernelPage(x.shares[i].dir), i);
    OwnsIs(Shared(x), KernelPage(x.shares[i].dir));
    OwnedIsTaken(x, rest, x.shares[i].dir);
  }

  lemma GetDone(x: System, rest: set<Block>, g: K.Strategy, i: nat, space: nat, page: nat)
    requires Inv(x, rest) && S.Live(Shared(x), i) && i < |x.shares| && space != K.KERNEL
    requires x.shares[i].refs + 1 < COUNT_LIMIT && Unmapped(x.heap.mem, space, page, x.shares[i].pages)
    requires K.Sound(x.heap) && S.Named(Shared(x))
    ensures var c := Lacking(S.TablesOf(x.tables, space), page, x.shares[i].pages);
      Get(x, g, i, space, page).Done? <==> c <= |x.heap.mem.free| && c <= |VacantPages(x.heap)|
  {
    hide *;
    InvParts(x, rest);
    SharedIs(x);
    var ts, sh := S.TablesOf(x.tables, space), x.shares[i];
    SC.LiveFacts(Shared(x), i);
    SomethingTaken(x, rest, i);
    GrownNone(x.heap, ts);
    AheadAll(x.heap.mem, x.heap.mem, space, page, sh.pages);
    WaitingAll(x.heap.mem, sh.frames);
    GetStops(x, g, i, space, page);
    GetLoopDone(x.heap, ts, Loop(x.heap, ts, []), g, space, page, sh.frames, sh.pages, S.Permission(sh.writable));
  }

  /** getSharedObject with the pages kmalloc gives is the get of SharesSpec on these pages, likewise. */
  lemma GetKeeps(x: System, rest: set<Block>, g: K.Strategy, i: nat, space: nat, page: nat) returns (pick: map<nat, nat>)
    requires Inv(x, rest) && S.Live(Shared(x), i) && i < |x.shares| && space != K.KERNEL
    requires x.shares[i].refs + 1 < COUNT_LIMIT && Unmapped(x.heap.mem, space, page, x.shares[i].pages)
    ensures K.Sound(x.heap) && S.Named(Shared(x))
    ensures match Get(x, g, i, space, page) {
      case Done(y) =>
        var ts, n := S.TablesOf(x.tables, space), x.shares[i].pages;
        && Inv(y, rest) && Picks(x.heap.mem, pick, []) && S.Coverable(ts, pick, page, n)
        && NewTables(ts, pick, page, n) <= |x.heap.mem.free|
        && Shared(y) == S.GetStep(Shared(x), i, space, page, pick)
      case Stopped => true
    }
    ensures var c := Lacking(S.TablesOf(x.tables, space), page, x.shares[i].pages);
      Get(x, g, i, space, page).Done? <==> c <= |x.heap.mem.free| && c <= |VacantPages(x.heap)|
  {
    hide *;
    InvParts(x, rest);
    KT.InvIsSound(x.heap);
    SharedIs(x);
    GetDone(x, rest, g, i, space, page);
    pick := map[];
    match Get(x, g, i, space, page)
    case Stopped =>
    case Done(y) =>
      var l := GetLoopIs(x, rest, g, i, space, page);
      var ts := S.TablesOf(x.tables, space);
      pick := Added(ts, l.us);
      var s, t := Shared(x), Shared(y);
      SharedIs(y);
      ST.GetKeeps(s, i, space, page, pick);
      SF.InvIs(t);
      SC.PartsOf(t);
      GetStores(s, i, space, page, pick);
      ST.GetStepIs(s, i, space, page, pick);
      GrownInv(x.heap, ts, l, 0);
      GrownPages(x.heap, ts, l, 0);
      AddedTables(x.heap, ts, l);
      GetOwns(s, t, space, l);
      BlocksMore(x.heap, s, t, rest, ts, l, 0);
      InvFrom(y, rest);
  }

  // ----- freeSharedObject -----

  lemma FreeIs(x: System, g: K.Strategy, i: nat, space: nat, page: nat)
    requires K.Sound(x.heap) && S.Named(Shared(x)) && i < |x.shares| && 0 < x.shares[i].refs
    ensures var sh := x.shares[i];
      && WellFormed(x.heap.mem)
      && var h := x.heap.(mem := UnmapRange(x.heap.mem, space, page, sh.pages));
      && K.Sound(h)
      && var trim := TrimLoop(h, g, space, S.TablesOf(x.tables, space), page, sh.pages);
      if trim.Stopped? then Free(x, g, i, space, page).Stopped?
      else
        && AreFrames(trim.value.0.mem, sh.tables) && K.Sound(trim.value.0)
        && Free(x, g, i, space, page) == FreeRest(x, g, i, S.View(i, space, page), trim.value.0, trim.value.1)
  {
    UnmapRangeLength(x.heap.mem, space, page, x.shares[i].pages);
    hide TrimLoop, FreeRest, UnmapRange, WellFormed;
  }

  lemma FreeRestIs(x: System, g: K.Strategy, i: nat, v: S.View, h: K.State, ts: map<nat, nat>)
    requires i < |x.shares| && 0 < x.shares[i].refs && K.Sound(h) && AreFrames(h.mem, x.shares[i].tables)
    ensures var sh, drop := x.shares[i], DropShare(h, g, x.shares[i]);
      && (sh.refs != 1 ==>
            FreeRest(x, g, i, v, h, ts) ==
            Done(System(h, x.shares[i := sh.(refs := sh.refs - 1)], x.views - {v}, x.tables[v.space := ts])))
      && (sh.refs == 1 ==>
            if drop.Stopped? then FreeRest(x, g, i, v, h, ts).Stopped?
            else
              FreeRest(x, g, i, v, h, ts) ==
              Done(System(drop.value, x.shares[i := S.NO_SHARE], x.views - {v}, x.tables[v.space := ts])))
  {
    hide DropShare;
  }

  lemma OwnedIsTaken(x: System, rest: set<Block>, p: nat)
    requires S.Named(Shared(x)) && Accounted(x.heap.heap.taken, Shared(x), rest) && Owns(Shared(x), KernelPage(p))
    ensures PageBlock(p) in x.heap.heap.taken
  {
    PageIs(p);
    OwnBlockIs(Shared(x), PageBlock(p));
    hide OwnBlock, Owns;
  }

  lemma IsTableFrom(tables: map<nat, map<nat, nat>>, e: nat, d: nat)
    requires S.HasTable(tables, e, d)
    ensures IsTable(tables, S.TablePage(tables, e, d))
  {
  }

  /** An environment's tables are on pages of the heap, each on its own. */
  lemma TablesAreTaken(x: System, rest: set<Block>, space: nat)
    requires Inv(x, rest)
    ensures TablesTaken(x.heap, S.TablesOf(x.tables, space))
  {
    InvParts(x, rest);
    SharedIs(x);
    var ts := S.TablesOf(x.tables, space);
    forall d: nat | d in ts
      ensures PageBlock(ts[d]) in x.heap.heap.taken
    {
      SF.TablesOfIs(x.tables, space, d);
      IsTableFrom(x.tables, space, d);
      OwnedIsTaken(x, rest, ts[d]);
    }
    forall d: nat, c: nat | d in ts && c in ts && d != c
      ensures ts[d] != ts[c]
    {
      SF.TablesOfIs(x.tables, space, d);
      SF.TablesOfIs(x.tables, space, c);
      SF.TablesApart(Shared(x), space, d, c);
    }
    hide Inv, S.Inv, K.Inv, S.TablesOf;
  }

  /** So are the pages of an object's store. */
  lemma StoreIsTaken(x: System, rest: set<Block>, i: nat, gone: set<Slot>)
    requires Inv(x, rest) && S.Live(Shared(x), i) && i < |x.shares| && WellFormed(x.heap.mem) && AreFrames(x.heap.mem, x.shares[i].tables)
    requires gone !! S.StorePages(x.heap.mem, x.shares[i])
    ensures StillTaken(x.heap, S.StorePages(x.heap.mem, x.shares[i]), gone)
  {
    InvParts(x, rest);
    SharedIs(x);
    SC.LiveFacts(Shared(x), i);
    forall u: Slot | u in S.StorePages(x.heap.mem, x.shares[i])
      ensures u.space == K.KERNEL && PageBlock(u.page) in x.heap.heap.taken
    {
      SC.StorePageIs(x.heap.mem, x.shares[i], u);
      PageIs(u.page);
      InStoreFrom(Shared(x), u, i);
      OwnedIsTaken(x, rest, u.page);
    }
    hide Inv, S.Inv, K.Inv, S.StorePages, PageBlock;
  }

  /** t owns what s owns but for the given slots. */
  ghost predicate OwnsLess(s: S.State, t: S.State, slots: set<Slot>)
    requires S.Named(s) && S.Named(t)
  {
    && (forall p: nat :: Owns(t, KernelPage(p)) <==> Owns(s, KernelPage(p)) && KernelPage(p) !in slots)
    && (forall p: nat :: KernelPage(p) in slots ==> Owns(s, KernelPage(p)))
  }

  lemma OwnsLessAt(s: S.State, t: S.State, slots: set<Slot>, b: Block)
    requires S.Named(s) && S.Named(t) && OwnsLess(s, t, slots)
    ensures OwnBlock(t, b) <==> OwnBlock(s, b) && !BlockOf(b, slots)
    ensures BlockOf(b, slots) ==> OwnBlock(s, b)
  {
    hide Owns, PageBlock, KernelPage;
  }

  lemma BlocksLess(h0: K.State, h: K.State, s: S.State, t: S.State, rest: set<Block>, slots: set<Slot>)
    requires S.Named(s) && S.Named(t) && Accounted(h0.heap.taken, s, rest) && Shrunk(h0, h, slots) && OwnsLess(s, t, slots)
    ensures Accounted(h.heap.taken, t, rest)
  {
    forall b
      ensures OwnBlock(t, b) <==> OwnBlock(s, b) && !BlockOf(b, slots)
      ensures BlockOf(b, slots) ==> OwnBlock(s, b)
    {
      OwnsLessAt(s, t, slots, b);
    }
    hide K.Inv, OwnsLess, OwnBlock, BlockOf;
  }

  lemma IsTableIs(tables: map<nat, map<nat, nat>>, u: Slot) returns (e: nat, d: nat)
    requires IsTable(tables, u)
    ensures S.HasTable(tables, e, d) && u == S.TablePage(tables, e, d)
  {
    e, d :| S.HasTable(tables, e, d) && u == S.TablePage(tables, e, d);
  }

  /** The tables that are left when some of an environment's go. */
  lemma TablesLess(s: S.State, v: S.View, left: map<nat, nat>, stores: set<Slot>, u: Slot)
    requires S.Core(s) && S.Tabled(s) && S.Live(s, v.id) && v.id < |s.shares| && WellFormed(s.m) && AreFrames(s.m, s.shares[v.id].tables)
    requires stores <= S.StorePages(s.m, s.shares[v.id])
    requires var ts := S.TablesOf(s.tables, v.space); forall c: nat :: c in left ==> c in ts && left[c] == ts[c]
    ensures IsTable(s.tables[v.space := left], u) <==>
            IsTable(s.tables, u) && u !in TablePages(S.TablesOf(s.tables, v.space), left) + stores
    ensures u in TablePages(S.TablesOf(s.tables, v.space), left) ==> IsTable(s.tables, u)
  {
    var ts, less := S.TablesOf(s.tables, v.space), s.tables[v.space := left];
    if IsTable(less, u) {
      var e, d := IsTableIs(less, u);
      SF.RemainingTable(s, v, left, stores, e, d);
      IsTableFrom(s.tables, e, d);
    }
    if IsTable(s.tables, u) && u !in TablePages(ts, left) {
      var e, d := IsTableIs(s.tables, u);
      SF.TablesOfIs(s.tables, e, d);
      assert e == v.space ==> d in left;
      assert S.HasTable(less, e, d) && S.TablePage(less, e, d) == u;
    }
    if u in TablePages(ts, left) {
      var d: nat :| d in ts && d !in left && u == KernelPage(ts[d]);
      SF.TablesOfIs(s.tables, v.space, d);
      IsTableFrom(s.tables, v.space, d);
    }
    hide S.Core, S.Tabled;
  }

  lemma SameTaken(h: K.State, h1: K.State, ts: map<nat, nat>)
    requires TablesTaken(h, ts) && h1.heap == h.heap
    ensures TablesTaken(h1, ts)
  {
  }

  lemma OwnsLessFrom(s: S.State, t: S.State, slots: set<Slot>)
    requires S.Named(s) && S.Named(t)
    requires forall u: Slot :: Owns(t, u) <==> Owns(s, u) && u !in slots
    requires forall u: Slot :: u in slots ==> Owns(s, u)
    ensures OwnsLess(s, t, slots)
  {
    hide Owns;
  }

  /** What goes with one of several views: the tables. */
  lemma FreeOneOwns(s: S.State, v: S.View, m: Memory, left: map<nat, nat>)
    requires S.Inv(s) && v in s.views && v.id < |s.shares| && 1 < s.shares[v.id].refs && S.Named(s) && WellFormed(s.m)
    requires m == UnmapRange(s.m, v.space, v.page, s.shares[v.id].pages)
    requires left == F.DropEmptyTables(m, v.space, S.TablesOf(s.tables, v.space), v.page, s.shares[v.id].pages).1
    requires forall c: nat :: c in left ==> c in S.TablesOf(s.tables, v.space) && left[c] == S.TablesOf(s.tables, v.space)[c]
    ensures S.Named(S.FreeStep(s, v.id, v.space, v.page))
    ensures OwnsLess(s, S.FreeStep(s, v.id, v.space, v.page), TablePages(S.TablesOf(s.tables, v.space), left))
  {
    hide *;
    SF.InvIs(s);
    SC.ViewFacts(s, v);
    SC.LiveFacts(s, v.id);
    SC.PartsOf(s);
    var sh, t := s.shares[v.id], S.FreeStep(s, v.id, v.space, v.page);
    var gone := TablePages(S.TablesOf(s.tables, v.space), left);
    SF.FreeOneKeeps(s, v);
    SF.InvIs(t);
    SC.PartsOf(t);
    SF.FreeStepIs(s, v.id, v.space, v.page);
    SF.ViewOwnsFrames(s.m, sh.frames, v);
    UnmapRangeKeeps(s.m, v.space, v.page, sh.pages);
    var q := S.State(m, s.shares[v.id := sh.(refs := sh.refs - 1)], s.views - {v}, s.tables);
    assert S.View(v.id, v.space, v.page) == v;
    SF.UnmapCore(s, q, v);
    SC.PartsOf(q);
    SF.TrimIs(s, m, v);
    SF.DroppedDisposable(s, v, left, |s.shares|);
    SF.UnmapStores(s, q, v);
    SF.SameDisposable(s, q, gone);
    SF.LostCore(q, t, gone);
    StoresOfFreeOne(s, q, t);
    assert gone + {} == gone;
    forall u: Slot
      ensures Owns(t, u) <==> Owns(s, u) && u !in gone
      ensures u in gone ==> Owns(s, u)
    {
      TablesLess(s, v, left, {}, u);
      SameStore(s, t, u);
      if InStore(s, u) {
        var i := InStoreIs(s, u);
        SC.LiveIs(s, i);
        SF.DisposableFacts(s, |s.shares|, gone, i, u);
      }
      OwnsIs(s, u);
      OwnsIs(t, u);
    }
    OwnsLessFrom(s, t, gone);
  }

  lemma OwnsIs(s: S.State, u: Slot)
    requires S.Named(s)
    ensures Owns(s, u) <==> InStore(s, u) || IsTable(s.tables, u)
  {
  }

  lemma SameStore(s: S.State, t: S.State, u: Slot)
    requires S.Named(s) && S.Named(t) && SameStores(s, t)
    ensures InStore(t, u) <==> InStore(s, u)
  {
  }

  lemma StoresOfFreeOne(s: S.State, q: S.State, t: S.State)
    requires S.Named(s) && S.Named(t) && t.shares == q.shares && |q.shares| == |s.shares| && WellFormed(q.m)
    requires forall j: nat :: S.Live(q, j) <==> S.Live(s, j)
    requires forall j: nat :: S.Live(q, j) ==>
              && j < |s.shares| && WellFormed(s.m) && AreFrames(s.m, s.shares[j].tables) && AreFrames(q.m, q.shares[j].tables)
              && S.StorePages(q.m, q.shares[j]) == S.StorePages(s.m, s.shares[j])
    requires WellFormed(t.m) && forall j: nat :: S.Live(t, j) ==>
              && j < |t.shares| && AreFrames(q.m, q.shares[j].tables) && AreFrames(t.m, t.shares[j].tables)
              && S.StorePages(t.m, t.shares[j]) == S.StorePages(q.m, q.shares[j])
    ensures SameStores(s, t)
  {
    SC.LiveSame(q, t);
    hide S.Live, S.Named, S.StorePages, AreFrames, WellFormed;
    SameStoresFrom(s, t);
  }

  /** What memory is when the last view's pages and tables are gone, and the object's store is still there. */
  lemma LastFreeHalf(s: S.State, v: S.View, m: Memory, r: Memory, left: map<nat, nat>)
    requires S.Inv(s) && v in s.views && v.id < |s.shares| && s.shares[v.id].refs == 1 && S.Named(s) && WellFormed(s.m)
    requires m == UnmapRange(s.m, v.space, v.page, s.shares[v.id].pages)
    requires (r, left) == F.DropEmptyTables(m, v.space, S.TablesOf(s.tables, v.space), v.page, s.shares[v.id].pages)
    ensures var sh, gone := s.shares[v.id], TablePages(S.TablesOf(s.tables, v.space), left);
      && S.Core(s) && S.Tabled(s) && S.Live(s, v.id) && AreFrames(s.m, sh.tables)
      && WellFormed(r) && S.StoreOk(r, sh) && AreFrames(r, sh.tables) && S.StorePages(r, sh) == S.StorePages(s.m, sh)
      && gone !! S.StorePages(s.m, sh)
      && SF.HalfFreed(s, m, v) && SF.Disposable(s, v.id, gone + S.StorePages(s.m, sh))
      && WellFormed(m) && Lost(m, S.DropStore(r, sh), gone + S.StorePages(s.m, sh))
  {
    hide *;
    SF.InvIs(s);
    SC.ViewFacts(s, v);
    SC.LiveFacts(s, v.id);
    SC.PartsOf(s);
    var sh, gone := s.shares[v.id], TablePages(S.TablesOf(s.tables, v.space), left);
    SF.UnmapHalfFrees(s, v);
    SF.HalfFreedFacts(s, m, v, v.id);
    SF.TrimIs(s, m, v);
    SF.DroppedDisposable(s, v, left, v.id);
    SF.DroppedNotStore(s, v, left);
    SF.TrimmedStore(s, m, r, v, gone);
    SF.DropStoreLoses(r, sh);
    LoseMore(m, r, S.DropStore(r, sh), gone, S.StorePages(s.m, sh));
    SF.MoreDisposable(s, v.id, gone);
  }

  lemma LastFreeIs(s: S.State, v: S.View, r: Memory, left: map<nat, nat>)
    requires S.Named(s) && v.id < |s.shares| && s.shares[v.id].refs == 1 && WellFormed(s.m)
    requires (r, left) == F.DropEmptyTables(UnmapRange(s.m, v.space, v.page, s.shares[v.id].pages), v.space,
                                            S.TablesOf(s.tables, v.space), v.page, s.shares[v.id].pages)
    ensures WellFormed(r) && AreFrames(r, s.shares[v.id].tables)
    ensures S.FreeStep(s, v.id, v.space, v.page) ==
            S.State(S.DropStore(r, s.shares[v.id]), s.shares[v.id := S.NO_SHARE], s.views - {v}, s.tables[v.space := left])
  {
    SF.FreeStepIs(s, v.id, v.space, v.page);
    assert S.View(v.id, v.space, v.page) == v;
    hide WellFormed, UnmapRange, F.DropEmptyTables, S.TablesOf;
  }

  /** What goes with the last view: the tables and the object's store. */
  lemma LastFreeOwns(s: S.State, v: S.View, m: Memory, r: Memory, left: map<nat, nat>)
    requires S.Inv(s) && v in s.views && v.id < |s.shares| && s.shares[v.id].refs == 1 && S.Named(s) && WellFormed(s.m)
    requires m == UnmapRange(s.m, v.space, v.page, s.shares[v.id].pages)
    requires (r, left) == F.DropEmptyTables(m, v.space, S.TablesOf(s.tables, v.space), v.page, s.shares[v.id].pages)
    requires forall c: nat :: c in left ==> c in S.TablesOf(s.tables, v.space) && left[c] == S.TablesOf(s.tables, v.space)[c]
    ensures AreFrames(s.m, s.shares[v.id].tables) && S.Named(S.FreeStep(s, v.id, v.space, v.page))
    ensures OwnsLess(s, S.FreeStep(s, v.id, v.space, v.page),
                     TablePages(S.TablesOf(s.tables, v.space), left) + S.StorePages(s.m, s.shares[v.id]))
  {
    hide *;
    LastFreeHalf(s, v, m, r, left);
    LastFreeIs(s, v, r, left);
    var sh, t := s.shares[v.id], S.FreeStep(s, v.id, v.space, v.page);
    var gone, stores := TablePages(S.TablesOf(s.tables, v.space), left), S.StorePages(s.m, sh);
    SF.LastFreeKeeps(s, v);
    SF.InvIs(t);
    SC.PartsOf(t);
    SF.LastFreeStores(s, m, t, v, gone + stores);
    forall u: Slot
      ensures Owns(t, u) <==> Owns(s, u) && u !in gone + stores
      ensures u in gone + stores ==> Owns(s, u)
    {
      TablesLess(s, v, left, stores, u);
      LastFreeStore(s, t, v, gone, stores, u);
      OwnsIs(s, u);
      OwnsIs(t, u);
    }
    OwnsLessFrom(s, t, gone + stores);
  }

  lemma LastFreeStore(s: S.State, t: S.State, v: S.View, gone: set<Slot>, stores: set<Slot>, u: Slot)
    requires S.Core(s) && S.Named(s) && S.Named(t) && S.Live(s, v.id) && v.id < |s.shares| && WellFormed(s.m) && AreFrames(s.m, s.shares[v.id].tables)
    requires t.shares == s.shares[v.id := S.NO_SHARE] && stores == S.StorePages(s.m, s.shares[v.id])
    requires SF.Disposable(s, v.id, gone + stores) && gone !! stores
    requires forall i: nat :: S.Live(t, i) ==>
              && S.Live(s, i) && i < |t.shares| && i < |s.shares| && WellFormed(t.m)
              && AreFrames(s.m, s.shares[i].tables) && AreFrames(t.m, t.shares[i].tables)
              && S.StorePages(t.m, t.shares[i]) == S.StorePages(s.m, s.shares[i])
    ensures InStore(t, u) <==> InStore(s, u) && u !in gone + stores
    ensures u in stores ==> InStore(s, u)
  {
    SF.NoShareIsEmpty();
    hide *;
    SC.LiveIs(t, v.id);
    if InStore(t, u) {
      var i := InStoreIs(t, u);
      InStoreFrom(s, u, i);
      SF.DisposableFacts(s, v.id, gone + stores, i, u);
    }
    if InStore(s, u) && u !in gone + stores {
      var i := InStoreIs(s, u);
      SC.LiveIs(t, i);
      SC.LiveIs(s, i);
      InStoreFrom(t, u, i);
    }
    if u in stores {
      InStoreFrom(s, u, v.id);
    }
  }

  /**
   freeSharedObject with kfree is the free of SharesSpec; heap and objects stay
   sound, and the blocks that go are those of the tables left empty and, with
   the last view, of the object's store.  It follows a null pointer exactly when
   something is to be freed and the heap has no free block.
   */
  lemma FreeKeeps(x: System, rest: set<Block>, g: K.Strategy, v: S.View)
    requires Inv(x, rest) && v in x.views && v.id < |x.shares|
    ensures K.Sound(x.heap) && S.Named(Shared(x)) && 0 < x.shares[v.id].refs
    ensures var t := S.FreeStep(Shared(x), v.id, v.space, v.page);
      && (match Free(x, g, v.id, v.space, v.page) {
        case Done(y) => Inv(y, rest) && Shared(y) == t
        case Stopped => true
      })
      && (Free(x, g, v.id, v.space, v.page).Stopped? <==>
            x.heap.heap.free == [] &&
            (x.shares[v.id].refs == 1 || |S.TablesOf(t.tables, v.space)| < |S.TablesOf(x.tables, v.space)|))
  {
    hide *;
    InvParts(x, rest);
    KT.InvIsSound(x.heap);
    KT.InvParts(x.heap);
    SharedIs(x);
    var s, sh, ts := Shared(x), x.shares[v.id], S.TablesOf(x.tables, v.space);
    SC.ViewFacts(s, v);
    SC.LiveFacts(s, v.id);
    ST.FreeStepKeeps(s, v);
    FreeIs(x, g, v.id, v.space, v.page);
    SF.FreeStepIs(s, v.id, v.space, v.page);
    assert S.View(v.id, v.space, v.page) == v;
    var m := UnmapRange(x.heap.mem, v.space, v.page, sh.pages);
    var h := x.heap.(mem := m);
    UnmapUserKeeps(x.heap, v.space, v.page, sh.pages);
    TablesAreTaken(x, rest, v.space);
    SameTaken(x.heap, h, ts);
    TrimLoopShrinks(h, g, v.space, ts, v.page, sh.pages);
    var (r, left) := F.DropEmptyTables(m, v.space, ts, v.page, sh.pages);
    SF.TablesOfSet(x.tables, v.space, left);
    var gone := TablePages(ts, left);
    var trim := TrimLoop(h, g, v.space, ts, v.page, sh.pages);
    var free := Free(x, g, v.id, v.space, v.page);
    if trim.Done? {
      FreeRestIs(x, g, v.id, v, trim.value.0, trim.value.1);
    }
    if sh.refs != 1 {
      FreeOneOwns(s, v, m, left);
      if trim.Done? {
        SharedIs(free.value);
        assert Shared(free.value) == S.FreeStep(s, v.id, v.space, v.page);
        FreeEnds(x, rest, h, trim.value.0, free.value, gone);
      }
    } else {
      LastFreeHalf(s, v, m, r, left);
      LastFreeIs(s, v, r, left);
      LastFreeOwns(s, v, m, r, left);
      if trim.Done? {
        StoreIsTaken(x, rest, v.id, gone);
        SameStill(x.heap, h, S.StorePages(s.m, sh), gone);
        DropShareShrinks(h, trim.value.0, gone, g, sh);
        if free.Done? {
          SharedIs(free.value);
          assert Shared(free.value) == S.FreeStep(s, v.id, v.space, v.page);
          FreeEnds(x, rest, h, free.value.heap, free.value, gone + S.StorePages(s.m, sh));
        }
      }
    }
  }

  lemma SameStill(h: K.State, h1: K.State, slots: set<Slot>, gone: set<Slot>)
    requires StillTaken(h, slots, gone) && h1.heap == h.heap
    ensures StillTaken(h1, slots, gone)
  {
  }

  lemma FreeEnds(x: System, rest: set<Block>, h: K.State, t: K.State, y: System, slots: set<Slot>)
    requires Inv(x, rest) && h.heap == x.heap.heap && Shrunk(h, t, slots) && y.heap == t
    requires S.Named(Shared(x)) && S.Named(Shared(y)) && S.Inv(Shared(y)) && OwnsLess(Shared(x), Shared(y), slots)
    ensures Inv(y, rest)
  {
    hide *;
    InvParts(x, rest);
    ShrunkInv(h, t, slots);
    BlocksLess(h, t, Shared(x), Shared(y), rest, slots);
    InvFrom(y, rest);
  }

  // ----- kmalloc and kfree for the rest of the kernel -----

  lemma MapNewNone(m: Memory, page: nat)
    requires Exact(m, {}) && WellFormed(m)
    ensures MapNewRange(m, K.KERNEL, page, 0, PERM_WRITEABLE) == m && Grew(m, m)
  {
    GrewNone(m);
  }

  /** A run of new kernel pages. */
  lemma {:induction false} RangeGrows(m: Memory, page: nat, n: nat)
    requires Exact(m, {}) && WellFormed(m) && n <= |m.free| && Unmapped(m, K.KERNEL, page, n)
    ensures var r := MapNewRange(m, K.KERNEL, page, n, PERM_WRITEABLE);
      && Grew(m, r) && r.boot == m.boot && |r.free| == |m.free| - n
      && forall u: Slot :: u in r.ptes <==> u in m.ptes || InRange(u, K.KERNEL, page, n)
  {
    hide *;
    if n == 0 {
      MapNewNone(m, page);
      NoRange(page);
    } else {
      var k := n - 1;
      UnmappedShorter(m, K.KERNEL, page, n);
      RangeGrows(m, page, k);
      MapNewRangeNext(m, K.KERNEL, page, k, PERM_WRITEABLE);
      var t := MapNewRange(m, K.KERNEL, page, k, PERM_WRITEABLE);
      GrewFacts(m, t);
      NextEmpty(m, t, page, k, n);
      PageIs(page + k);
      GrowOne(t, Slot(K.KERNEL, page + k), PERM_WRITEABLE);
      SlotPage(page + k);
      GrewFacts(t, MapNewRange(m, K.KERNEL, page, n, PERM_WRITEABLE));
      GrewMore(m, t, MapNewRange(m, K.KERNEL, page, n, PERM_WRITEABLE));
      RangeMore(page, k);
    }
  }

  lemma SlotPage(p: nat)
    ensures Slot(K.KERNEL, p).page == p
  {
  }

  lemma NoRange(page: nat)
    ensures forall u: Slot :: !InRange(u, K.KERNEL, page, 0)
  {
  }

  lemma RangeMore(page: nat, k: nat)
    ensures forall u: Slot :: InRange(u, K.KERNEL, page, k + 1) <==> InRange(u, K.KERNEL, page, k) || u == Slot(K.KERNEL, page + k)
  {
    forall u: Slot
      ensures InRange(u, K.KERNEL, page, k + 1) <==> InRange(u, K.KERNEL, page, k) || u == Slot(K.KERNEL, page + k)
    {
    }
  }

  lemma NextEmpty(m: Memory, t: Memory, page: nat, k: nat, n: nat)
    requires Unmapped(m, K.KERNEL, page, n) && k < n && t.boot == m.boot
    requires forall u: Slot :: u in t.ptes <==> u in m.ptes || InRange(u, K.KERNEL, page, k)
    ensures Empty(t, Slot(K.KERNEL, page + k))
  {
    assert InRange(Slot(K.KERNEL, page + k), K.KERNEL, page, n);
    assert !InRange(Slot(K.KERNEL, page + k), K.KERNEL, page, k);
  }

  lemma UnchangedTable(s: S.State, m: Memory, e: nat, d: nat)
    requires S.Core(s) && S.Tabled(s) && S.HasTable(s.tables, e, d) && Grew(s.m, m)
    ensures WellFormed(s.m) && WellFormed(m) && SC.Undisturbed(s.m, m, S.TablePage(s.tables, e, d))
  {
    hide *;
    SF.TableFacts(s, e, d);
    GrewFacts(s.m, m);
    SN.GainedLeaves(s.m, m, Fresh(s.m, m), S.TablePage(s.tables, e, d));
  }

  /** New kernel pages leave objects and tables as they are. */
  lemma KernelGrewKeeps(s: S.State, t: S.State)
    requires S.Inv(s) && Grew(s.m, t.m) && t == s.(m := t.m)
    requires forall u: Slot :: u in t.m.ptes && u.space != K.KERNEL ==> u in s.m.ptes
    ensures S.Inv(t) && S.Named(s) && S.Named(t) && SameStores(s, t)
  {
    hide *;
    SF.InvIs(s);
    SF.InvIs(t);
    ST.GrewCore(s, t);
    GrewStores(s, t);
    GrewFacts(s.m, t.m);
    forall e: nat, d: nat | S.HasTable(t.tables, e, d)
      ensures S.HasTable(s.tables, e, d) && S.TablePage(t.tables, e, d) == S.TablePage(s.tables, e, d)
      ensures SC.Undisturbed(s.m, t.m, S.TablePage(s.tables, e, d))
    {
      UnchangedTable(s, t.m, e, d);
    }
    forall u: Slot | u in t.m.ptes && u.space != K.KERNEL
      ensures S.HasTable(t.tables, u.space, Directory(u.page))
    {
      SF.SlotHasTable(s, u);
    }
    forall i: nat | S.Live(t, i)
      ensures i < |s.shares|
    {
      SC.LiveIs(t, i);
    }
    SF.TabledFrom(s, t);
  }

  lemma SubsetEqual(a: set<Slot>, b: set<Slot>)
    requires a <= b && |a| == |b|
    ensures a == b
  {
    assert b == a + (b - a);
    assert |b - a| == 0;
  }

  /** The k-th pages of some views of one object. */
  ghost function PagesOf(vs: set<S.View>, k: nat): set<Slot> {
    set v | v in vs :: Slot(v.space, v.page + k)
  }

  lemma {:induction false} PagesOfSize(vs: set<S.View>, j: nat, k: nat)
    requires forall v :: v in vs ==> v.id == j
    ensures |PagesOf(vs, k)| == |vs|
    decreases |vs|
  {
    if vs != {} {
      var v :| v in vs;
      PagesOfSize(vs - {v}, j, k);
      var u := Slot(v.space, v.page + k);
      forall w | w in vs - {v}
        ensures Slot(w.space, w.page + k) != u
      {
        assert w != v && w.id == v.id;
      }
      assert PagesOf(vs, k) == PagesOf(vs - {v}, k) + {u};
      assert u !in PagesOf(vs - {v}, k);
    } else {
      assert PagesOf(vs, k) == {};
    }
  }

  /** Only its views' pages map an object's frame. */
  lemma DataIsSharedOnly(s: S.State, j: nat, k: nat)
    requires S.Core(s) && S.Live(s, j) && j < |s.shares| && k < |s.shares[j].frames|
    ensures Mapping(s.m, s.shares[j].frames[k]) == PagesOf(S.ViewsOf(s.views, j), k)
  {
    SC.PartsOf(s);
    SC.LiveFacts(s, j);
    var f, vs := s.shares[j].frames[k], S.ViewsOf(s.views, j);
    SC.DataAt(s.m, s.shares[j], k);
    SC.CountAt(s, j);
    PagesOfSize(vs, j, k);
    forall v | v in vs
      ensures Slot(v.space, v.page + k) in Mapping(s.m, f)
    {
      SC.ViewFacts(s, v);
      assert S.ViewAt(s.m, s.shares[j].frames, v, k);
    }
    assert PagesOf(vs, k) <= Mapping(s.m, f);
    assert |Mapping(s.m, f)| == s.m.refs[f];
    SubsetEqual(PagesOf(vs, k), Mapping(s.m, f));
  }

  lemma KernelNotShared(s: S.State, u: Slot, j: nat, k: nat)
    requires S.Core(s) && S.Live(s, j) && j < |s.shares| && k < |s.shares[j].frames| && u.space == K.KERNEL && u in s.m.ptes
    ensures s.m.ptes[u].frame != s.shares[j].frames[k]
  {
    DataIsSharedOnly(s, j, k);
    forall v | v in S.ViewsOf(s.views, j)
      ensures v.space != K.KERNEL
    {
      SC.ViewFacts(s, v);
    }
    assert u !in PagesOf(S.ViewsOf(s.views, j), k);
    assert u !in Mapping(s.m, s.shares[j].frames[k]);
    hide S.Core, S.Live, PagesOf;
  }

  /** What unmapping a slot does to another one whose frame is not shared with it. */
  lemma UnmapLeaves(m: Memory, u: Slot, t: Slot)
    requires Exact(m, {}) && WellFormed(m) && u in m.ptes && t in m.ptes && t != u && m.ptes[t].frame != m.ptes[u].frame
    ensures SC.Undisturbed(m, UnmapFrame(m, u), t)
  {
    UnmapIs(m, u);
  }

  lemma UnmapCount(m: Memory, u: Slot)
    requires Exact(m, {}) && WellFormed(m) && u in m.ptes
    ensures var r := UnmapFrame(m, u);
      && WellFormed(r) && Exact(r, {}) && |r.refs| == |m.refs| && r.reserved == m.reserved
      && (forall t: Slot :: t in r.ptes <==> t in m.ptes && t != u)
      && (forall t: Slot :: t in m.ptes && t != u ==> r.ptes[t] == m.ptes[t])
      && m.ptes[u].frame < |m.refs| && forall f: nat :: f < |m.refs| && f != m.ptes[u].frame ==> r.refs[f] == m.refs[f]
  {
    UnmapIs(m, u);
    hide Exact, UnmapFrame;
  }

  /** A page on a frame of its own shares it with no other slot. */
  lemma OwnFrameLeft(m: Memory, u: Slot, t: Slot)
    requires Exact(m, {}) && WellFormed(m) && u in m.ptes && t in m.ptes && t != u && m.refs[m.ptes[t].frame] == 1
    ensures SC.Undisturbed(m, UnmapFrame(m, u), t)
  {
    if m.ptes[t].frame == m.ptes[u].frame {
      OnlySlot(m, t, u);
    }
    UnmapLeaves(m, u, t);
  }

  lemma DataLeft(s: S.State, u: Slot, j: nat)
    requires S.Core(s) && Exact(s.m, {}) && WellFormed(s.m) && u in s.m.ptes && u.space == K.KERNEL && S.Live(s, j) && j < |s.shares|
    ensures S.DataOk(UnmapFrame(s.m, u), s.shares[j])
  {
    hide *;
    UnmapCount(s.m, u);
    SC.LiveFacts(s, j);
    var sh, r := s.shares[j], UnmapFrame(s.m, u);
    forall k: nat | k < |sh.frames|
      ensures Allocatable(r, sh.frames[k]) && sh.frames[k] < |r.refs| && r.refs[sh.frames[k]] == sh.refs
    {
      SC.DataAt(s.m, sh, k);
      KernelNotShared(s, u, j, k);
      SameAllocatable(s.m, r, sh.frames[k]);
    }
    SF.DataSame(s.m, r, sh, sh.refs);
  }

  lemma SameAllocatable(m: Memory, r: Memory, f: nat)
    requires Allocatable(m, f) && |r.refs| == |m.refs| && r.reserved == m.reserved
    ensures Allocatable(r, f)
  {
  }

  /** Unmapping a kernel page that nobody's store or table is on leaves objects and tables as they are. */
  lemma UnmapKernelKeeps(s: S.State, u: Slot)
    requires S.Inv(s) && S.Named(s) && WellFormed(s.m) && u.space == K.KERNEL && u in s.m.ptes && !Owns(s, u)
    ensures var t := s.(m := UnmapFrame(s.m, u)); S.Inv(t) && S.Named(t) && SameStores(s, t)
  {
    hide *;
    SF.InvIs(s);
    SC.PartsOf(s);
    OwnsIs(s, u);
    UnmapCount(s.m, u);
    var t := s.(m := UnmapFrame(s.m, u));
    SF.InvIs(t);
    SC.LiveSame(s, t);
    forall j: nat | S.Live(t, j)
      ensures j < |s.shares| && S.DataOk(t.m, t.shares[j]) && AreFrames(s.m, s.shares[j].tables)
      ensures SC.AllUndisturbed(s.m, t.m, S.StorePages(s.m, s.shares[j]))
    {
      SC.LiveFacts(s, j);
      DataLeft(s, u, j);
      StoreLeft(s, u, j);
    }
    forall v, k: nat | v in t.views && v.id < |s.shares| && k < |s.shares[v.id].frames|
      ensures S.ViewAt(t.m, s.shares[v.id].frames, v, k)
    {
      SC.ViewFacts(s, v);
      SC.ViewEntry(s.m, s.shares[v.id].frames, v, k);
      SC.ViewEntry(t.m, s.shares[v.id].frames, v, k);
      UserSlotIs(v.space, v.page + k, u);
    }
    SC.CoreStays(s, t);
    SC.PartsOf(t);
    SameStoresFrom(s, t);
    forall e: nat, d: nat | S.HasTable(t.tables, e, d)
      ensures S.HasTable(s.tables, e, d) && S.TablePage(t.tables, e, d) == S.TablePage(s.tables, e, d)
      ensures SC.Undisturbed(s.m, t.m, S.TablePage(s.tables, e, d))
    {
      SF.TableFacts(s, e, d);
      IsTableFrom(s.tables, e, d);
      OwnFrameLeft(s.m, u, S.TablePage(s.tables, e, d));
    }
    forall w: Slot | w in t.m.ptes && w.space != K.KERNEL
      ensures S.HasTable(t.tables, w.space, Directory(w.page))
    {
      SF.SlotHasTable(s, w);
    }
    SF.TabledFrom(s, t);
  }

  lemma UserSlotIs(space: nat, page: nat, u: Slot)
    requires space != K.KERNEL && u.space == K.KERNEL
    ensures Slot(space, page) != u
  {
  }

  lemma StoreLeft(s: S.State, u: Slot, j: nat)
    requires S.Core(s) && S.Named(s) && Exact(s.m, {}) && WellFormed(s.m) && u in s.m.ptes && S.Live(s, j) && j < |s.shares|
    requires AreFrames(s.m, s.shares[j].tables) && !InStore(s, u)
    ensures SC.AllUndisturbed(s.m, UnmapFrame(s.m, u), S.StorePages(s.m, s.shares[j]))
  {
    hide *;
    SC.LiveFacts(s, j);
    forall w: Slot | w in S.StorePages(s.m, s.shares[j])
      ensures SC.Undisturbed(s.m, UnmapFrame(s.m, u), w)
    {
      SC.StorePageIs(s.m, s.shares[j], w);
      InStoreFrom(s, w, j);
      OwnFrameLeft(s.m, u, w);
    }
    SC.AllUndisturbedFrom(s.m, UnmapFrame(s.m, u), S.StorePages(s.m, s.shares[j]));
  }

  /** No page of the range is mapped from booting, and none is owned. */
  ghost predicate Ordinary(s: S.State, page: nat, n: nat)
    requires S.Named(s)
  {
    forall p: nat :: page <= p < page + n ==> KernelPage(p) !in s.m.boot && !Owns(s, KernelPage(p))
  }

  lemma OrdinaryAt(s: S.State, t: S.State, page: nat, k: nat, n: nat)
    requires S.Named(s) && S.Named(t) && Ordinary(s, page, n) && k < n && SameStores(s, t) && t == s.(m := t.m) && t.m.boot == s.m.boot
    ensures !Owns(t, KernelPage(page + k)) && KernelPage(page + k) !in t.m.boot
  {
    SameStore(s, t, KernelPage(page + k));
    OwnsIs(s, KernelPage(page + k));
    OwnsIs(t, KernelPage(page + k));
    hide S.Named, SameStores, Owns, InStore, IsTable;
  }

  /** Unmapping a run of such pages. */
  lemma {:induction false} UnmapKernelRange(s: S.State, page: nat, k: nat, n: nat)
    requires S.Inv(s) && S.Named(s) && WellFormed(s.m) && Ordinary(s, page, n) && k <= n
    ensures var t := s.(m := UnmapRange(s.m, K.KERNEL, page, k));
      S.Inv(t) && S.Named(t) && SameStores(s, t) && t.m.boot == s.m.boot
  {
    hide *;
    if k == 0 {
      UnmapKernelNone(s, page);
    } else {
      var j := k - 1;
      UnmapKernelRange(s, page, j, n);
      var q := s.(m := UnmapRange(s.m, K.KERNEL, page, j));
      var u := Slot(K.KERNEL, page + j);
      PageIs(page + j);
      OrdinaryAt(s, q, page, j, n);
      UnmapRangeNext(s.m, K.KERNEL, page, j);
      SF.InvIs(q);
      SC.PartsOf(q);
      UnmapKeeps(q.m, {}, u);
      if u in q.m.ptes {
        UnmapKernelKeeps(q, u);
        SameStoresTrans(s, q, q.(m := UnmapFrame(q.m, u)));
      } else {
        UnmapNothing(q.m, u);
      }
    }
  }

  lemma UnmapNothing(m: Memory, u: Slot)
    requires WellFormed(m) && Empty(m, u)
    ensures UnmapFrame(m, u) == m
  {
  }

  lemma UnmapKernelNone(s: S.State, page: nat)
    requires S.Named(s) && WellFormed(s.m)
    ensures s.(m := UnmapRange(s.m, K.KERNEL, page, 0)) == s && SameStores(s, s)
  {
  }

  /** A vacant range of the heap is mapped nowhere. */
  lemma VacantRange(h: K.State, a: int, n: int)
    requires K.Inv(h) && Aligned(a) && Aligned(n) && 0 < n && Vacant(h.heap.taken, K.KERNEL_HEAP_START, K.KERNEL_HEAP_MAX, a, n)
    ensures 0 <= a && Unmapped(h.mem, K.KERNEL, a / PAGE_SIZE, n / PAGE_SIZE) && Block(a, n) !in h.heap.taken
  {
    var b := Block(a, n);
    forall x | b.Has(x)
      ensures !Covered(h.heap.taken, x)
    {
      assert forall i :: 0 <= i < |h.heap.taken| ==> Apart(h.heap.taken[i], b);
    }
    assert b.Has(a);
    forall u: Slot | InRange(u, K.KERNEL, a / PAGE_SIZE, n / PAGE_SIZE)
      ensures Empty(h.mem, u)
    {
      KT.PagesOfBlock(b, u);
    }
    hide Tiles, Exact;
  }

  /** What kmalloc does to memory when it succeeds. */
  lemma KmallocMemory(h: K.State, g: K.Strategy, size: int)
    requires K.Inv(h) && K.Sound(h) && 0 < size <= WORD - PAGE_SIZE && K.EnoughFrames(h, size)
    ensures var (t, r) := K.KmallocStep(h, g, size); var n := RoundUp(size);
      r.Address? ==>
        && 0 < n && Aligned(n) && 0 <= r.va && Aligned(r.va) && n / PAGE_SIZE <= |h.mem.free| && WellFormed(h.mem)
        && t.mem == MapNewRange(h.mem, K.KERNEL, r.va / PAGE_SIZE, n / PAGE_SIZE, PERM_WRITEABLE)
        && Unmapped(h.mem, K.KERNEL, r.va / PAGE_SIZE, n / PAGE_SIZE) && Block(r.va, n) !in h.heap.taken
        && K.Inv(t) && forall b :: b in t.heap.taken <==> b in h.heap.taken || b == Block(r.va, n)
  {
    KT.KmallocKeeps(h, g, size);
    var (t, r) := K.KmallocStep(h, g, size);
    if r.Address? {
      assert Vacant(h.heap.taken, K.KERNEL_HEAP_START, K.KERNEL_HEAP_MAX, r.va, RoundUp(size));
      hide K.Inv, K.Backed, Tiles, Exact, Vacant, KT.Placed, MapNewRange, Unmapped;
      VacantRange(h, r.va, RoundUp(size));
      TakenMore(h.heap.taken, t.heap.taken, Block(r.va, RoundUp(size)));
    }
  }

  /** The rest of the kernel gets one more block. */
  lemma AccountedMore(taken: seq<Block>, more: seq<Block>, s: S.State, t: S.State, rest: set<Block>, b: Block)
    requires S.Named(s) && S.Named(t) && Accounted(taken, s, rest) && b !in taken
    requires forall c :: c in more <==> c in taken || c == b
    requires forall u: Slot :: Owns(t, u) <==> Owns(s, u)
    ensures Accounted(more, t, rest + {b}) && b !in rest
  {
    forall c
      ensures OwnBlock(t, c) <==> OwnBlock(s, c)
    {
      OwnBlockIs(s, c);
      OwnBlockIs(t, c);
    }
    hide OwnBlock, Owns;
  }

  lemma SameOwns(s: S.State, t: S.State)
    requires S.Named(s) && S.Named(t) && SameStores(s, t) && t.tables == s.tables
    ensures forall u: Slot :: Owns(t, u) <==> Owns(s, u)
  {
    forall u: Slot
      ensures Owns(t, u) <==> Owns(s, u)
    {
      SameStore(s, t, u);
    }
  }

  /** kmalloc for the rest of the kernel leaves objects and tables alone and adds its block to the rest. */
  lemma KmallocKeeps(x: System, rest: set<Block>, g: K.Strategy, size: int)
    requires Inv(x, rest) && 0 < size <= WORD - PAGE_SIZE && K.EnoughFrames(x.heap, size)
    ensures K.Sound(x.heap)
    ensures var (t, r) := K.KmallocStep(x.heap, g, size);
      r.Address? ==> Inv(x.(heap := t), rest + {Block(r.va, RoundUp(size))}) && Block(r.va, RoundUp(size)) !in rest
  {
    hide *;
    InvParts(x, rest);
    KT.InvIsSound(x.heap);
    KT.InvParts(x.heap);
    KmallocMemory(x.heap, g, size);
    var (t, r) := K.KmallocStep(x.heap, g, size);
    if r.Address? {
      var n, y := RoundUp(size), x.(heap := t);
      RangeGrows(x.heap.mem, r.va / PAGE_SIZE, n / PAGE_SIZE);
      SharedIs(x);
      SharedIs(y);
      KernelRange(r.va / PAGE_SIZE, n / PAGE_SIZE);
      KernelGrewKeeps(Shared(x), Shared(y));
      SameOwns(Shared(x), Shared(y));
      AccountedMore(x.heap.heap.taken, t.heap.taken, Shared(x), Shared(y), rest, Block(r.va, n));
      InvFrom(y, rest + {Block(r.va, n)});
    }
  }

  lemma KernelRange(page: nat, n: nat)
    ensures forall u: Slot :: InRange(u, K.KERNEL, page, n) ==> u.space == K.KERNEL
  {
  }

  /** The pages of a block of the rest of the kernel are nobody's. */
  lemma RestIsOrdinary(x: System, rest: set<Block>, b: Block)
    requires Inv(x, rest) && b in rest
    ensures b in x.heap.heap.taken && 0 <= b.start && 0 < b.size && Aligned(b.start) && Aligned(b.size) && S.Named(Shared(x))
    ensures Ordinary(Shared(x), b.start / PAGE_SIZE, b.size / PAGE_SIZE)
  {
    InvParts(x, rest);
    SharedIs(x);
    KT.InvParts(x.heap);
    KT.PlacedInHeap(x.heap.heap, b);
    var i :| 0 <= i < |x.heap.heap.taken| && x.heap.heap.taken[i] == b;
    assert Aligned(b.size);
    forall p: nat | b.start / PAGE_SIZE <= p < b.start / PAGE_SIZE + b.size / PAGE_SIZE
      ensures KernelPage(p) !in x.heap.mem.boot && !Owns(Shared(x), KernelPage(p))
    {
      RestPage(x, rest, b, p);
    }
    hide K.Inv, S.Inv, Inv, Owns, KernelPage, Accounted;
  }

  lemma RestPage(x: System, rest: set<Block>, b: Block, p: nat)
    requires Inv(x, rest) && S.Named(Shared(x)) && b in rest && b in x.heap.heap.taken && 0 <= b.start && 0 < b.size
    requires Aligned(b.start) && Aligned(b.size) && b.start / PAGE_SIZE <= p < b.start / PAGE_SIZE + b.size / PAGE_SIZE
    requires K.KERNEL_HEAP_START <= b.start && b.End() <= K.KERNEL_HEAP_MAX
    ensures KernelPage(p) !in x.heap.mem.boot && !Owns(Shared(x), KernelPage(p))
  {
    InvParts(x, rest);
    KT.InvParts(x.heap);
    assert b.Has(Base(p)) && K.HeapSlot(KernelPage(p));
    hide K.Inv, S.Inv, Inv, Owns, Tiles, Exact, Accounted, S.Named;
    if Owns(Shared(x), KernelPage(p)) {
      OwnedIsTaken(x, rest, p);
      PageIs(p);
      BlocksMeet(x.heap.heap, b, PageBlock(p), Base(p));
      RestNotOwned(x, rest, p);
      assert false;
    }
  }

  /** Taken blocks that share an address are the same. */
  lemma BlocksMeet(h: Heap, b: Block, c: Block, a: int)
    requires Tiles(h, K.KERNEL_HEAP_START, K.KERNEL_HEAP_MAX) && b in h.taken && c in h.taken && b.Has(a) && c.Has(a)
    ensures b == c
  {
    var i :| 0 <= i < |h.taken| && h.taken[i] == b;
    var j :| 0 <= j < |h.taken| && h.taken[j] == c;
    if i != j {
      ApartHas(h.taken, i, j, a);
    }
  }

  lemma ApartHas(bs: seq<Block>, i: nat, j: nat, a: int)
    requires PairwiseApart(bs) && i < |bs| && j < |bs| && i != j && bs[i].Has(a)
    ensures !bs[j].Has(a)
  {
    if i < j {
      assert Apart(bs[i], bs[j]);
    } else {
      assert Apart(bs[j], bs[i]);
    }
  }

  lemma RestNotOwned(x: System, rest: set<Block>, p: nat)
    requires S.Named(Shared(x)) && Accounted(x.heap.heap.taken, Shared(x), rest) && PageBlock(p) in rest
    ensures !Owns(Shared(x), KernelPage(p))
  {
    PageIs(p);
    OwnBlockIs(Shared(x), PageBlock(p));
    hide OwnBlock, Owns;
  }

  /** kfree of a taken block: what it finds and what it does to memory. */
  lemma KfreeMemory(h: K.State, g: K.Strategy, b: Block)
    requires K.Inv(h) && b in h.heap.taken
    ensures K.Sound(h) && WellFormed(h.mem) && 0 <= b.start && 0 <= b.size
    ensures var (t, r) := K.KfreeStep(h, g, b.start);
      if h.heap.free == [] then r.Fault?
      else
        && r == K.Freed(b.size) && K.Inv(t) && t.mem == UnmapRange(h.mem, K.KERNEL, b.start / PAGE_SIZE, b.size / PAGE_SIZE)
        && forall c :: c in t.heap.taken <==> c in h.heap.taken && c != b
  {
    KT.InvIsSound(h);
    KT.InvParts(h);
    KT.PlacedInHeap(h.heap, b);
    hide *;
    TakenFound(h.heap, b);
    KT.KfreeKeeps(h, g, b.start);
    KfreeFound(h, g, b);
    TakenOnce(h.heap, b, b);
    if h.heap.free != [] {
      TakenLess(h.heap.taken, K.KfreeStep(h, g, b.start).0.heap.taken, b);
    }
  }

  lemma TakenFound(h: Heap, b: Block)
    requires Tiles(h, K.KERNEL_HEAP_START, K.KERNEL_HEAP_MAX) && b in h.taken
    ensures var j := BL.TakenAt(h.taken, b.start); j < |h.taken| && h.taken[j] == b
  {
    var i :| 0 <= i < |h.taken| && h.taken[i] == b;
    assert h.taken[i].start == b.start;
    TakenOnce(h, b, h.taken[BL.TakenAt(h.taken, b.start)]);
  }

  lemma KfreeFound(h: K.State, g: K.Strategy, b: Block)
    requires K.Sound(h) && WellFormed(h.mem) && 0 <= b.start && 0 <= b.size
    requires var j := BL.TakenAt(h.heap.taken, b.start); j < |h.heap.taken| && h.heap.taken[j] == b
    ensures var (t, r) := K.KfreeStep(h, g, b.start);
      && (h.heap.free == [] ==> r.Fault?)
      && (h.heap.free != [] ==>
            && r == K.Freed(b.size) && Block(b.start, b.size) == b
            && t.mem == UnmapRange(h.mem, K.KERNEL, b.start / PAGE_SIZE, b.size / PAGE_SIZE))
  {
    hide WellFormed, UnmapRange, BL.TakenAt;
  }

  lemma AccountedLess(taken: seq<Block>, less: seq<Block>, s: S.State, t: S.State, rest: set<Block>, b: Block)
    requires S.Named(s) && S.Named(t) && Accounted(taken, s, rest) && b in rest
    requires forall c :: c in less <==> c in taken && c != b
    requires forall u: Slot :: Owns(t, u) <==> Owns(s, u)
    ensures Accounted(less, t, rest - {b})
  {
    forall c
      ensures OwnBlock(t, c) <==> OwnBlock(s, c)
    {
      OwnBlockIs(s, c);
      OwnBlockIs(t, c);
    }
    hide OwnBlock, Owns;
  }

  /** kfree of a block of the rest leaves objects and tables alone; it follows a null pointer when no free block is left. */
  lemma KfreeKeeps(x: System, rest: set<Block>, g: K.Strategy, b: Block)
    requires Inv(x, rest) && b in rest
    ensures K.Sound(x.heap)
    ensures var (t, r) := K.KfreeStep(x.heap, g, b.start);
      if x.heap.heap.free == [] then r.Fault? else r == K.Freed(b.size) && Inv(x.(heap := t), rest - {b})
  {
    hide *;
    InvParts(x, rest);
    RestIsOrdinary(x, rest, b);
    KfreeMemory(x.heap, g, b);
    if x.heap.heap.free != [] {
      var t := K.KfreeStep(x.heap, g, b.start).0;
      var y := x.(heap := t);
      SharedIs(x);
      SharedIs(y);
      PageIs(0);
      UnmapKernelRange(Shared(x), b.start / PAGE_SIZE, b.size / PAGE_SIZE, b.size / PAGE_SIZE);
      SameOwns(Shared(x), Shared(y));
      AccountedLess(x.heap.heap.taken, t.heap.taken, Shared(x), Shared(y), rest, b);
      InvFrom(y, rest - {b});
    }
  }

  // ----- what decides the heap -----

  lemma SameElements(a: seq<Block>, c: seq<Block>)
    requires forall b :: b in a <==> b in c
    requires forall b :: b in a ==> multiset(a)[b] == 1
    requires forall b :: b in c ==> multiset(c)[b] == 1
    ensures |a| == |c|
  {
    forall b
      ensures multiset(a)[b] == multiset(c)[b]
    {
      assert b in a <==> b in multiset(a);
      assert b in c <==> b in multiset(c);
    }
    assert multiset(a) == multiset(c);
    assert |a| == |multiset(a)|;
  }

  /**
   The free list and the spare descriptors depend only on what the rest of the
   kernel holds and which pages stores and tables are on: once every object and
   table made since is gone, the heap is as it was.
   */
  lemma HeapIsDetermined(x: System, y: System, rest: set<Block>)
    requires Inv(x, rest) && Inv(y, rest) && S.Named(Shared(x)) && S.Named(Shared(y))
    requires forall p: nat :: Owns(Shared(x), KernelPage(p)) <==> Owns(Shared(y), KernelPage(p))
    ensures x.heap.heap.free == y.heap.heap.free && x.heap.spare == y.heap.spare
    ensures |VacantPages(x.heap)| == |VacantPages(y.heap)|
  {
    InvParts(x, rest);
    InvParts(y, rest);
    KT.InvParts(x.heap);
    KT.InvParts(y.heap);
    var a, c := x.heap.heap, y.heap.heap;
    forall b
      ensures b in a.taken <==> b in c.taken
    {
      OwnBlockIs(Shared(x), b);
      OwnBlockIs(Shared(y), b);
    }
    hide *;
    forall z
      ensures Covered(a.taken, z) <==> Covered(c.taken, z)
    {
      CoveredBy(a.taken, z);
      CoveredBy(c.taken, z);
    }
    SameCoverFrom(a.taken, c.taken);
    FreeListIsDetermined(a, c, K.KERNEL_HEAP_START, K.KERNEL_HEAP_MAX);
    forall b | b in a.taken
      ensures multiset(a.taken)[b] == 1
    {
      TakenOnce(a, b, b);
    }
    forall b | b in c.taken
      ensures multiset(c.taken)[b] == 1
    {
      TakenOnce(c, b, b);
    }
    SameElements(a.taken, c.taken);
    forall p: nat
      ensures p in VacantPages(x.heap) <==> p in VacantPages(y.heap)
    {
      VacantPageIs(x.heap, p);
      VacantPageIs(y.heap, p);
    }
    assert VacantPages(x.heap) == VacantPages(y.heap);
  }

  lemma SameCoverFrom(a: seq<Block>, c: seq<Block>)
    requires forall z :: Covered(a, z) <==> Covered(c, z)
    ensures SameCover(a, c)
  {
  }

  // ----- every run -----

  datatype Op =
    | CreateObject(owner: int, name: string, size: int, writable: bool, space: nat, page: nat)
    | GetObject(owner: int, name: string, space: nat, page: nat)
    | FreeObject(space: nat, page: nat)
    | Kmalloc(size: int)
    | Kfree(b: Block)

  /** The system and the blocks the rest of the kernel holds. */
  datatype Joint = Joint(x: System, rest: set<Block>)

  /** What the code asks of its callers, as in SharesSpec; the rest of the kernel frees what it was given. */
  ghost predicate Allowed(j: Joint, op: Op) {
    match op
    case CreateObject(owner, name, size, _, space, page) =>
      && 0 < size <= WORD - PAGE_SIZE && space != K.KERNEL
      && (S.Find(j.x.shares, owner, name) == |j.x.shares| ==>
            && S.FirstEmpty(j.x.shares, 0) < |j.x.shares|
            && Unmapped(j.x.heap.mem, space, page, RoundUp(size) / PAGE_SIZE))
    case GetObject(owner, name, space, page) =>
      && space != K.KERNEL
      && var i := S.Find(j.x.shares, owner, name);
      (i < |j.x.shares| ==> j.x.shares[i].refs + 1 < COUNT_LIMIT && Unmapped(j.x.heap.mem, space, page, j.x.shares[i].pages))
    case FreeObject(space, page) =>
      var i := S.Search(j.x.shares, j.x.heap.mem, Slot(space, page), 0);
      i < |j.x.shares| ==> S.View(i, space, page) in j.x.views
    case Kmalloc(size) => 0 < size <= WORD - PAGE_SIZE && K.EnoughFrames(j.x.heap, size)
    case Kfree(b) => b in j.rest
  }

  lemma InvSound(x: System, rest: set<Block>)
    requires Inv(x, rest)
    ensures K.Sound(x.heap) && S.Named(Shared(x))
    ensures forall i :: 0 <= i < |x.shares| && !x.shares[i].empty ==> 0 < x.shares[i].refs
  {
    hide *;
    InvParts(x, rest);
    KT.InvIsSound(x.heap);
    SharedIs(x);
    ST.StepAllowed(Shared(x));
  }

  ghost function Step(j: Joint, g: K.Strategy, op: Op): Outcome<Joint>
    requires Inv(j.x, j.rest) && Allowed(j, op)
  {
    InvSound(j.x, j.rest);
    match op
    case CreateObject(owner, name, size, writable, space, page) =>
      if S.Find(j.x.shares, owner, name) < |j.x.shares| then Done(j)
      else WithRest(Create(j.x, g, owner, name, RoundUp(size) / PAGE_SIZE, writable, space, page), j.rest)
    case GetObject(owner, name, space, page) =>
      var i := S.Find(j.x.shares, owner, name);
      if i < |j.x.shares| then WithRest(Get(j.x, g, i, space, page), j.rest) else Done(j)
    case FreeObject(space, page) =>
      var i := S.Search(j.x.shares, j.x.heap.mem, Slot(space, page), 0);
      if i < |j.x.shares| then WithRest(Free(j.x, g, i, space, page), j.rest) else Done(j)
    case Kmalloc(size) =>
      var (t, r) := K.KmallocStep(j.x.heap, g, size);
      if r.Address? then Done(Joint(j.x.(heap := t), j.rest + {Block(r.va, RoundUp(size))}))
      else if r.Null? then Done(j)
      else Stopped
    case Kfree(b) =>
      var (t, r) := K.KfreeStep(j.x.heap, g, b.start);
      if r.Fault? then Stopped else Done(Joint(j.x.(heap := t), j.rest - {b}))
  }

  ghost function WithRest(r: Outcome<System>, rest: set<Block>): Outcome<Joint> {
    match r
    case Done(x) => Done(Joint(x, rest))
    case Stopped => Stopped
  }

  lemma SomePages(size: int)
    requires 0 < size <= WORD - PAGE_SIZE
    ensures 0 < RoundUp(size) / PAGE_SIZE
  {
  }

  lemma FoundIsLive(x: System, owner: int, name: string)
    ensures var i := S.Find(x.shares, owner, name); i < |x.shares| ==> S.Live(Shared(x), i)
  {
  }

  /** Any of the calls, made as the code asks, keeps heap, objects and the account of the blocks. */
  lemma StepKeeps(j: Joint, g: K.Strategy, op: Op)
    requires Inv(j.x, j.rest) && Allowed(j, op)
    ensures Step(j, g, op).Done? ==> Inv(Step(j, g, op).value.x, Step(j, g, op).value.rest)
  {
    hide *;
    match op
    case CreateObject(_, _, _, _, _, _) => CreateObjectKeeps(j, g, op);
    case GetObject(_, _, _, _) => GetObjectKeeps(j, g, op);
    case FreeObject(_, _) => FreeObjectKeeps(j, g, op);
    case Kmalloc(_) => HeapCallKeeps(j, g, op);
    case Kfree(_) => HeapCallKeeps(j, g, op);
  }

  lemma CreateObjectKeeps(j: Joint, g: K.Strategy, op: Op)
    requires Inv(j.x, j.rest) && Allowed(j, op) && op.CreateObject?
    ensures Step(j, g, op).Done? ==> Inv(Step(j, g, op).value.x, Step(j, g, op).value.rest)
  {
    hide Inv, K.Inv, S.Inv, K.Sound, S.Named, Create, Get, Free, K.KmallocStep, K.KfreeStep, Unmapped, K.EnoughFrames;
    hide RoundUp, S.Find, S.FirstEmpty, S.Search, S.FreeStep, S.TablesOf, PagesFor, Lacking, VacantPages, S.Live, Shared, WellFormed;
    InvSound(j.x, j.rest);
    if S.Find(j.x.shares, op.owner, op.name) == |j.x.shares| {
      SomePages(op.size);
      var at, pick := CreateKeeps(j.x, j.rest, g, op.owner, op.name, RoundUp(op.size) / PAGE_SIZE, op.writable, op.space, op.page);
    }
  }

  lemma GetObjectKeeps(j: Joint, g: K.Strategy, op: Op)
    requires Inv(j.x, j.rest) && Allowed(j, op) && op.GetObject?
    ensures Step(j, g, op).Done? ==> Inv(Step(j, g, op).value.x, Step(j, g, op).value.rest)
  {
    hide Inv, K.Inv, S.Inv, K.Sound, S.Named, Create, Get, Free, K.KmallocStep, K.KfreeStep, Unmapped, K.EnoughFrames;
    hide RoundUp, S.Find, S.FirstEmpty, S.Search, S.FreeStep, S.TablesOf, PagesFor, Lacking, VacantPages, S.Live, Shared, WellFormed;
    InvSound(j.x, j.rest);
    var i := S.Find(j.x.shares, op.owner, op.name);
    if i < |j.x.shares| {
      FoundIsLive(j.x, op.owner, op.name);
      var pick := GetKeeps(j.x, j.rest, g, i, op.space, op.page);
    }
  }

  lemma FreeObjectKeeps(j: Joint, g: K.Strategy, op: Op)
    requires Inv(j.x, j.rest) && Allowed(j, op) && op.FreeObject?
    ensures Step(j, g, op).Done? ==> Inv(Step(j, g, op).value.x, Step(j, g, op).value.rest)
  {
    hide Inv, K.Inv, S.Inv, K.Sound, S.Named, Create, Get, Free, K.KmallocStep, K.KfreeStep, Unmapped, K.EnoughFrames;
    hide RoundUp, S.Find, S.FirstEmpty, S.Search, S.FreeStep, S.TablesOf, PagesFor, Lacking, VacantPages, S.Live, Shared, WellFormed;
    InvSound(j.x, j.rest);
    var i := S.Search(j.x.shares, j.x.heap.mem, Slot(op.space, op.page), 0);
    if i < |j.x.shares| {
      FreeKeeps(j.x, j.rest, g, S.View(i, op.space, op.page));
    }
  }

  lemma HeapCallKeeps(j: Joint, g: K.Strategy, op: Op)
    requires Inv(j.x, j.rest) && Allowed(j, op) && (op.Kmalloc? || op.Kfree?)
    ensures Step(j, g, op).Done? ==> Inv(Step(j, g, op).value.x, Step(j, g, op).value.rest)
  {
    hide Inv, K.Inv, S.Inv, K.Sound, S.Named, Create, Get, Free, K.KmallocStep, K.KfreeStep, Unmapped, K.EnoughFrames;
    hide RoundUp, S.Find, S.FirstEmpty, S.Search, S.FreeStep, S.TablesOf, PagesFor, Lacking, VacantPages, S.Live, Shared, WellFormed;
    InvSound(j.x, j.rest);
    match op
    case Kmalloc(size) => KmallocKeeps(j.x, j.rest, g, size);
    case Kfree(b) => KfreeKeeps(j.x, j.rest, g, b);
  }

  /** k is reached from j by such calls. */
  ghost predicate Reaches(j: Joint, g: K.Strategy, ops: seq<Op>, k: Joint)
    decreases |ops|
  {
    if ops == [] then j == k
    else
      && Inv(j.x, j.rest) && Allowed(j, ops[0])
      && Step(j, g, ops[0]).Done? && Reaches(Step(j, g, ops[0]).value, g, ops[1..], k)
  }

  /** The same over every run, the kernel's other uses of the heap in between. */
  lemma {:induction false} RunsKeep(j: Joint, g: K.Strategy, ops: seq<Op>, k: Joint)
    requires Inv(j.x, j.rest) && Reaches(j, g, ops, k)
    ensures Inv(k.x, k.rest)
    decreases |ops|
  {
    hide Inv, Step, Allowed;
    if ops != [] {
      StepKeeps(j, g, ops[0]);
      RunsKeep(Step(j, g, ops[0]).value, g, ops[1..], k);
    }
  }

  /** Before any object: create_shares_array over a sound heap and memory without user pages. */
  lemma BootInv(h: K.State, count: nat)
    requires K.Inv(h) && forall u: Slot :: u in h.mem.ptes ==> u.space == K.KERNEL
    ensures Inv(System(h, seq(count, _ => S.NO_SHARE), {}, map[]), set b | b in h.heap.taken)
  {
    var x := System(h, seq(count, _ => S.NO_SHARE), {}, map[]);
    KT.InvParts(h);
    ST.BootInv(h.mem, count, map[]);
    SF.NoShareIsEmpty();
    assert S.Named(Shared(x)) && S.Tabled(Shared(x));
    assert forall u: Slot :: !Owns(Shared(x), u);
    hide K.Inv, S.Inv, Owns;
  }

  predicate IsCall(op: Op) {
    op.CreateObject? || op.GetObject? || op.FreeObject?
  }

  lemma {:induction false} RestStays(j: Joint, g: K.Strategy, ops: seq<Op>, k: Joint)
    requires Reaches(j, g, ops, k) && forall op :: op in ops ==> IsCall(op)
    ensures k.rest == j.rest
    decreases |ops|
  {
    hide Inv, Allowed, Step, IsCall;
    if ops != [] {
      assert ops[0] in ops && forall op :: op in ops[1..] ==> op in ops;
      StepRest(j, g, ops[0]);
      RestStays(Step(j, g, ops[0]).value, g, ops[1..], k);
    }
  }

  lemma StepRest(j: Joint, g: K.Strategy, op: Op)
    requires Inv(j.x, j.rest) && Allowed(j, op) && IsCall(op) && Step(j, g, op).Done?
    ensures Step(j, g, op).value.rest == j.rest
  {
    InvSound(j.x, j.rest);
    hide Inv, Allowed, Create, Get, Free, S.Find, S.Search, RoundUp, K.Sound, S.Named, Shared;
  }

  ghost predicate NoObjects(x: System) {
    forall i: nat :: !S.Live(Shared(x), i)
  }

  lemma NoObjectsOwn(x: System, u: Slot)
    requires S.Named(Shared(x)) && NoObjects(x)
    ensures Owns(Shared(x), u) <==> IsTable(x.tables, u)
  {
    hide S.Named, S.Live, S.StorePages;
  }

  /**
   Nothing leaks: whatever is created, got and freed, once all objects are gone
   and the page tables are on the pages they were on, the free list of the heap,
   its spare descriptors and its vacant pages are as they were.
   */
  lemma NothingLeaks(j: Joint, g: K.Strategy, ops: seq<Op>, k: Joint)
    requires Inv(j.x, j.rest) && Reaches(j, g, ops, k) && forall op :: op in ops ==> IsCall(op)
    requires NoObjects(j.x) && NoObjects(k.x) && forall u: Slot :: IsTable(j.x.tables, u) <==> IsTable(k.x.tables, u)
    ensures k.x.heap.heap.free == j.x.heap.heap.free && k.x.heap.spare == j.x.heap.spare
    ensures |VacantPages(k.x.heap)| == |VacantPages(j.x.heap)|
  {
    hide *;
    RunsKeep(j, g, ops, k);
    RestStays(j, g, ops, k);
    InvSound(j.x, j.rest);
    InvSound(k.x, k.rest);
    forall p: nat
      ensures Owns(Shared(j.x), KernelPage(p)) <==> Owns(Shared(k.x), KernelPage(p))
    {
      NoObjectsOwn(j.x, KernelPage(p));
      NoObjectsOwn(k.x, KernelPage(p));
    }
    HeapIsDetermined(j.x, k.x, j.rest);
  }
}
