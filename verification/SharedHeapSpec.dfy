/**
 Shared objects over the kernel heap: kmalloc hands out the kernel pages of
 stores and page tables, kfree takes them back, on one memory.
 */
module SharedHeapSpec {
  import opened Blocks
  import opened Tiling
  import opened BlockLists
  import opened Frames
  import opened FrameRanges
  import opened FrameTable
  import opened SharesMemory
  import F = FreeMemSpec
  import K = KernelHeapSpec
  import S = SharesSpec

  /** Stopped: a panic, or a null pointer followed. */
  datatype Outcome<T> = Done(value: T) | Stopped

  /** The kernel heap with the shares array, the views handed out and the environments' page tables. */
  datatype System = System(heap: K.State, shares: seq<S.Share>, views: set<S.View>, tables: map<nat, map<nat, nat>>)

  function Shared(x: System): S.State {
    S.State(x.heap.mem, x.shares, x.views, x.tables)
  }

  function PageBlock(p: nat): Block {
    Block(Base(p), PAGE_SIZE)
  }

  // ----- one page from kmalloc, one block to kfree -----

  lemma OnePage(m: Memory, p: nat)
    requires WellFormed(m) && m.free != []
    ensures RoundUp(PAGE_SIZE) == PAGE_SIZE && PAGE_SIZE / PAGE_SIZE == 1
    ensures MapNewRange(m, K.KERNEL, p, 1, PERM_WRITEABLE) == TakeKernelPage(m, p)
  {
    assert MapNewRange(m, K.KERNEL, p, 0, PERM_WRITEABLE) == m;
  }

  lemma CarveStarts(bs: seq<Block>, i: nat, n: int)
    requires i < |bs| && 0 <= n && forall k :: 0 <= k < |bs| ==> 0 <= bs[k].start
    ensures forall k :: 0 <= k < |Carve(bs, i, n)| ==> 0 <= Carve(bs, i, n)[k].start
  {
  }

  lemma WithSound(taken: seq<Block>, k: nat, b: Block)
    requires k <= |taken| && 0 <= b.start && 0 <= b.size
    requires forall i :: 0 <= i < |taken| ==> 0 <= taken[i].start && 0 <= taken[i].size
    ensures forall i :: 0 <= i < |With(taken, k, b)| ==> 0 <= With(taken, k, b)[i].start && 0 <= With(taken, k, b)[i].size
  {
  }

  /** What kmalloc(PAGE_SIZE) does to memory when it succeeds. */
  lemma PageTaken(h: K.State, g: K.Strategy)
    requires K.Sound(h) && h.mem.free != []
    ensures K.EnoughFrames(h, PAGE_SIZE)
    ensures var (t, r) := K.KmallocStep(h, g, PAGE_SIZE);
      r.Address? ==> 0 <= r.va && K.Sound(t) && t.mem == TakeKernelPage(h.mem, r.va / PAGE_SIZE)
  {
    OnePage(h.mem, 0);
    var i := K.Choose(g, h.heap.free, PAGE_SIZE, h.last);
    if i < |h.heap.free| {
      var b := h.heap.free[i];
      OnePage(h.mem, b.start / PAGE_SIZE);
      CarveStarts(h.heap.free, i, PAGE_SIZE);
      var k := if g.FirstFitStrategy? && |h.heap.taken| > 0 then SortedPosition(h.heap.taken, b.start) else 0;
      WithSound(h.heap.taken, k, Block(b.start, PAGE_SIZE));
    }
    hide WellFormed, MapNewRange, Carve, With, SortedPosition, RoundUp, K.Choose, TakeKernelPage;
  }

  /** kmalloc(PAGE_SIZE); its callers panic on null. */
  ghost function TakePage(h: K.State, g: K.Strategy): (r: Outcome<(K.State, nat)>)
    requires K.Sound(h)
    ensures r.Done? ==> K.Sound(r.value.0) && h.mem.free != [] && r.value.0.mem == TakeKernelPage(h.mem, r.value.1)
  {
    if h.mem.free == [] then Stopped
    else
      PageTaken(h, g);
      var (t, r) := K.KmallocStep(h, g, PAGE_SIZE);
      if r.Address? then Done((t, r.va / PAGE_SIZE)) else Stopped
  }

  lemma UnmapLength(m: Memory, u: Slot)
    requires WellFormed(m)
    ensures |UnmapFrame(m, u).refs| == |m.refs|
  {
  }

  lemma {:induction false} UnmapRangeLength(m: Memory, space: nat, page: nat, n: nat)
    requires WellFormed(m)
    ensures |UnmapRange(m, space, page, n).refs| == |m.refs|
  {
    if n > 0 {
      UnmapRangeLength(m, space, page, n - 1);
      UnmapRangeNext(m, space, page, n - 1);
      UnmapLength(UnmapRange(m, space, page, n - 1), Slot(space, page + (n - 1)));
    }
  }

  lemma MergeStarts(bs: seq<Block>, b: Block)
    requires 0 <= b.start && forall k :: 0 <= k < |bs| ==> 0 <= bs[k].start
    ensures forall k :: 0 <= k < |Merge(bs, b)| ==> 0 <= Merge(bs, b)[k].start
  {
  }

  lemma BlockDropped(h: K.State, g: K.Strategy, va: int)
    requires K.Sound(h)
    ensures var t := K.KfreeStep(h, g, va).0; K.Sound(t) && |t.mem.refs| == |h.mem.refs|
  {
    var j := TakenAt(h.heap.taken, va);
    if j < |h.heap.taken| && |h.heap.free| > 0 {
      var b := h.heap.taken[j];
      MergeStarts(h.heap.free, b);
      UnmapRangeLength(h.mem, K.KERNEL, b.start / PAGE_SIZE, b.size / PAGE_SIZE);
    }
    hide WellFormed, UnmapRange, Merge;
  }

  /** kfree */
  ghost function DropBlock(h: K.State, g: K.Strategy, va: int): (r: Outcome<K.State>)
    requires K.Sound(h)
    ensures r.Done? ==> K.Sound(r.value) && |r.value.mem.refs| == |h.mem.refs|
  {
    BlockDropped(h, g, va);
    var (t, r) := K.KfreeStep(h, g, va);
    if r.Fault? then Stopped else Done(t)
  }

  // ----- the loops, with the kernel pages they take -----

  /** Where a loop is: the heap, the environment's tables by now, the pages taken for the store, its directory's first. */
  datatype Loop = Loop(h: K.State, us: map<nat, nat>, at: seq<nat>)

  /** Tables and pages of the store are only added. */
  predicate More(l: Loop, r: Loop) {
    && |l.at| <= |r.at| && r.at[..|l.at|] == l.at
    && forall d: nat :: d in l.us ==> d in r.us && r.us[d] == l.us[d]
  }

  /** get_page_table, and create_page_table when there is none. */
  ghost function EnsureTable(l: Loop, g: K.Strategy, d: nat): (r: Outcome<Loop>)
    requires K.Sound(l.h)
    ensures r.Done? ==> K.Sound(r.value.h) && |r.value.h.mem.refs| == |l.h.mem.refs| && More(l, r.value)
  {
    if d in l.us then Done(l)
    else
      match TakePage(l.h, g)
      case Done((t, p)) =>
        NewFrameCount(l.h.mem, KernelPage(p), Base(p), PERM_WRITEABLE);
        Done(Loop(t, l.us[d := p], l.at))
      case Stopped => Stopped
  }

  /** One turn of createSharedObject's loop: a page, its table, and a page for the store when it needs a table. */
  ghost function StoreTurn(l: Loop, g: K.Strategy, space: nat, page: nat, k: nat): (r: Outcome<Loop>)
    requires K.Sound(l.h)
    ensures r.Done? ==> K.Sound(r.value.h) && More(l, r.value)
  {
    if l.h.mem.free == [] then Stopped
    else
      var m := MapNew(l.h.mem, Slot(space, page + k), Base(page + k), PERM_WRITEABLE + PERM_USER);
      match EnsureTable(l.(h := l.h.(mem := m)), g, Directory(page + k))
      case Stopped => Stopped
      case Done(u) =>
        if k % TABLE_ENTRIES != 0 then Done(u)
        else
          match TakePage(u.h, g)
          case Done((t, p)) => Done(Loop(t, u.us, u.at + [p]))
          case Stopped => Stopped
  }

  ghost function StoreLoop(l: Loop, g: K.Strategy, space: nat, page: nat, n: nat): (r: Outcome<Loop>)
    requires K.Sound(l.h)
    ensures r.Done? ==> K.Sound(r.value.h) && |l.at| <= |r.value.at|
  {
    if n == 0 then Done(l)
    else
      match StoreLoop(l, g, space, page, n - 1)
      case Stopped => Stopped
      case Done(t) => StoreTurn(t, g, space, page, n - 1)
  }

  /** The loop of getSharedObject. */
  ghost function GetLoop(l: Loop, g: K.Strategy, space: nat, page: nat, frames: seq<nat>, n: nat, perm: nat): (r: Outcome<Loop>)
    requires K.Sound(l.h) && n <= |frames| && AreFrames(l.h.mem, frames)
    ensures r.Done? ==> K.Sound(r.value.h) && |r.value.h.mem.refs| == |l.h.mem.refs|
  {
    if n == 0 then Done(l)
    else
      match GetLoop(l, g, space, page, frames, n - 1, perm)
      case Stopped => Stopped
      case Done(t) =>
        match EnsureTable(t, g, Directory(page + n - 1))
        case Stopped => Stopped
        case Done(u) =>
          MapFrameCount(u.h.mem, Slot(space, page + n - 1), frames[n - 1], Base(page + n - 1), perm);
          var m := MapFrame(u.h.mem, Slot(space, page + n - 1), frames[n - 1], Base(page + n - 1), perm);
          Done(u.(h := u.h.(mem := m)))
  }

  /** The loop that frees page tables left empty. */
  ghost function TrimLoop(h: K.State, g: K.Strategy, space: nat, ts: map<nat, nat>, lo: nat, k: nat): (r: Outcome<(K.State, map<nat, nat>)>)
    requires K.Sound(h)
    ensures r.Done? ==> K.Sound(r.value.0) && |r.value.0.mem.refs| == |h.mem.refs|
  {
    if k == 0 then Done((h, ts))
    else
      match TrimLoop(h, g, space, ts, lo, k - 1)
      case Stopped => Stopped
      case Done((t, us)) =>
        var d := Directory(lo + k - 1);
        if d in us && F.TableEmpty(t.mem, space, d) then
          match DropBlock(t, g, Base(us[d]))
          case Stopped => Stopped
          case Done(u) => Done((u, us - {d}))
        else Done((t, us))
  }

  /** clear_frames_storage: each table is freed at the address its frame remembers. */
  ghost function ClearLoop(h: K.State, g: K.Strategy, tables: seq<nat>, n: nat): (r: Outcome<K.State>)
    requires K.Sound(h) && n <= |tables| && AreFrames(h.mem, tables)
    ensures r.Done? ==> K.Sound(r.value) && |r.value.mem.refs| == |h.mem.refs|
  {
    if n == 0 then Done(h)
    else
      match ClearLoop(h, g, tables, n - 1)
      case Stopped => Stopped
      case Done(t) => DropBlock(t, g, t.mem.va[tables[n - 1]])
  }

  // ----- the calls -----

  /** createSharedObject of a new name, n pages long */
  ghost function Create(x: System, g: K.Strategy, owner: int, name: string, n: nat, writable: bool, space: nat, page: nat): Outcome<System>
    requires K.Sound(x.heap) && S.FirstEmpty(x.shares, 0) < |x.shares|
  {
    match TakePage(x.heap, g)
    case Stopped => Stopped
    case Done((h, dir)) =>
      match StoreLoop(Loop(h, S.TablesOf(x.tables, space), [dir]), g, space, page, n)
      case Stopped => Stopped
      case Done(l) =>
        var j := S.FirstEmpty(x.shares, 0);
        var sh := S.Share(owner, name, n, writable, 1, dir, S.TablesAt(l.h.mem, l.at[1..]), S.FramesAt(l.h.mem, space, page, n), false);
        Done(System(l.h, x.shares[j := sh], x.views + {S.View(j, space, page)}, x.tables[space := l.us]))
  }

  /** getSharedObject of object i */
  ghost function Get(x: System, g: K.Strategy, i: nat, space: nat, page: nat): Outcome<System>
    requires K.Sound(x.heap) && S.Named(Shared(x)) && i < |x.shares|
  {
    var sh := x.shares[i];
    match GetLoop(Loop(x.heap, S.TablesOf(x.tables, space), []), g, space, page, sh.frames, sh.pages, S.Permission(sh.writable))
    case Stopped => Stopped
    case Done(l) =>
      Done(System(l.h, x.shares[i := sh.(refs := sh.refs + 1)], x.views + {S.View(i, space, page)}, x.tables[space := l.us]))
  }

  /** free_share_object: the store's tables, then its directory. */
  ghost function DropShare(h: K.State, g: K.Strategy, sh: S.Share): (r: Outcome<K.State>)
    requires K.Sound(h) && AreFrames(h.mem, sh.tables)
    ensures r.Done? ==> K.Sound(r.value)
  {
    match ClearLoop(h, g, sh.tables, |sh.tables|)
    case Stopped => Stopped
    case Done(t) => DropBlock(t, g, Base(sh.dir))
  }

  /** freeSharedObject of object i; its store goes with the last view. */
  ghost function Free(x: System, g: K.Strategy, i: nat, space: nat, page: nat): Outcome<System>
    requires K.Sound(x.heap) && S.Named(Shared(x)) && i < |x.shares| && 0 < x.shares[i].refs
  {
    var sh := x.shares[i];
    UnmapRangeLength(x.heap.mem, space, page, sh.pages);
    match TrimLoop(x.heap.(mem := UnmapRange(x.heap.mem, space, page, sh.pages)), g, space, S.TablesOf(x.tables, space), page, sh.pages)
    case Stopped => Stopped
    case Done((h, ts)) => FreeRest(x, g, i, S.View(i, space, page), h, ts)
  }

  /** What is left to do when the pages and tables of a view are gone. */
  ghost function FreeRest(x: System, g: K.Strategy, i: nat, v: S.View, h: K.State, ts: map<nat, nat>): Outcome<System>
    requires i < |x.shares| && 0 < x.shares[i].refs && K.Sound(h) && AreFrames(h.mem, x.shares[i].tables)
  {
    var sh := x.shares[i];
    if sh.refs != 1 then Done(System(h, x.shares[i := sh.(refs := sh.refs - 1)], x.views - {v}, x.tables[v.space := ts]))
    else
      match DropShare(h, g, sh)
      case Stopped => Stopped
      case Done(u) => Done(System(u, x.shares[i := S.NO_SHARE], x.views - {v}, x.tables[v.space := ts]))
  }

  // ----- what is whose -----

  /** The kernel page holds part of a live object's store. */
  ghost predicate InStore(s: S.State, u: Slot)
    requires S.Named(s)
  {
    exists i: nat :: S.Live(s, i) && u in S.StorePages(s.m, s.shares[i])
  }

  /** The kernel page is somebody's page table. */
  ghost predicate IsTable(tables: map<nat, map<nat, nat>>, u: Slot) {
    exists e: nat, d: nat :: S.HasTable(tables, e, d) && u == S.TablePage(tables, e, d)
  }

  ghost predicate Owns(s: S.State, u: Slot)
    requires S.Named(s)
  {
    InStore(s, u) || IsTable(s.tables, u)
  }

  ghost predicate OwnBlock(s: S.State, b: Block)
    requires S.Named(s)
  {
    0 <= b.start && b == PageBlock(b.start / PAGE_SIZE) && Owns(s, KernelPage(b.start / PAGE_SIZE))
  }

  /**
   Heap and objects are sound, and the taken blocks are those of the rest of the
   kernel and, a page each, those of stores and page tables.
   */
  ghost predicate Inv(x: System, rest: set<Block>) {
    && K.Inv(x.heap) && S.Inv(Shared(x))
    && (forall b :: b in x.heap.heap.taken <==> b in rest || OwnBlock(Shared(x), b))
    && (forall b :: b in rest ==> !OwnBlock(Shared(x), b))
  }
}
