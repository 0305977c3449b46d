/**
 The loops of the shared-object calls with the kmalloc and kfree calls they make:
 which pages they take, and that memory is what SharesSpec says for these pages.
 */
module SharedHeapLoops {
  import RR = RoundRobin
  import opened Blocks
  import opened Tiling
  import opened BlockLists
  import opened Frames
  import opened FrameRanges
  import opened FrameTable
  import opened SharesMemory
  import opened SharedHeapSpec
  import F = FreeMemSpec
  import K = KernelHeapSpec
  import KT = KernelHeapTheorems
  import S = SharesSpec
  import SM = SharedMemory
  import SC = SharesCore

  // ----- one page -----

  lemma PageIs(p: nat)
    ensures 0 < PAGE_SIZE && Base(p) / PAGE_SIZE == p && Aligned(Base(p)) && PageBlock(p).start == Base(p) && PageBlock(p).size == PAGE_SIZE
    ensures forall q: nat :: PageBlock(q) == PageBlock(p) ==> q == p
    ensures PageBlock(p).Has(Base(p)) && KernelPage(p) == Slot(K.KERNEL, p)
  {
    forall q: nat | PageBlock(q) == PageBlock(p)
      ensures q == p
    {
      assert Base(q) == Base(p);
    }
  }

  /** An aligned vacant page of the heap: it is mapped nowhere and no block is there. */
  lemma VacantPage(h: K.State, a: int)
    requires K.Inv(h) && Aligned(a) && Vacant(h.heap.taken, K.KERNEL_HEAP_START, K.KERNEL_HEAP_MAX, a, PAGE_SIZE)
    ensures 0 <= a && Base(a / PAGE_SIZE) == a && PageBlock(a / PAGE_SIZE) !in h.heap.taken
    ensures K.HeapSlot(KernelPage(a / PAGE_SIZE)) && Empty(h.mem, KernelPage(a / PAGE_SIZE))
  {
    var b := Block(a, PAGE_SIZE);
    var u := KernelPage(a / PAGE_SIZE);
    assert a == PAGE_SIZE * (a / PAGE_SIZE);
    forall i | 0 <= i < |h.heap.taken|
      ensures !h.heap.taken[i].Has(a) && h.heap.taken[i] != b
    {
      assert Apart(h.heap.taken[i], b);
      assert 0 < h.heap.taken[i].size;
    }
    assert !Covered(h.heap.taken, Base(u.page));
  }

  lemma FreeIsVacant(h: K.State)
    requires K.Inv(h) && h.heap.free != []
    ensures exists a :: Vacant(h.heap.taken, K.KERNEL_HEAP_START, K.KERNEL_HEAP_MAX, a, PAGE_SIZE)
  {
    KT.PlacedInHeap(h.heap, h.heap.free[0]);
    assert Aligned(h.heap.free[0].size) && PAGE_SIZE <= h.heap.free[0].size;
    BlockIsVacant(h.heap, K.KERNEL_HEAP_START, K.KERNEL_HEAP_MAX, 0, PAGE_SIZE);
  }

  /**
   kmalloc(PAGE_SIZE): a page that was vacant and unmapped, and one frame.  It
   fails exactly when no frame or no free block is left, or under first fit when
   nothing is taken.
   */
  lemma TakePageIs(h: K.State, g: K.Strategy)
    requires K.Inv(h)
    ensures K.Sound(h)
    ensures match TakePage(h, g) {
      case Done((t, p)) =>
        && K.Inv(t) && PageBlock(p) !in h.heap.taken && Empty(h.mem, KernelPage(p)) && K.HeapSlot(KernelPage(p))
        && (forall b :: b in t.heap.taken <==> b in h.heap.taken || b == PageBlock(p))
        && |t.mem.free| == |h.mem.free| - 1
      case Stopped => true
    }
    ensures TakePage(h, g).Stopped? <==>
              h.mem.free == [] || h.heap.free == [] || (g.FirstFitStrategy? && h.heap.taken == [])
  {
    KT.InvIsSound(h);
    if h.mem.free != [] {
      OnePage(h.mem, 0);
      PageTaken(h, g);
      KT.KmallocKeeps(h, g, PAGE_SIZE);
      var (t, r) := K.KmallocStep(h, g, PAGE_SIZE);
      if r.Address? {
        assert Vacant(h.heap.taken, K.KERNEL_HEAP_START, K.KERNEL_HEAP_MAX, r.va, PAGE_SIZE);
        VacantPage(h, r.va);
        TakenMore(h.heap.taken, t.heap.taken, PageBlock(r.va / PAGE_SIZE));
      }
      if h.heap.free != [] {
        FreeIsVacant(h);
      }
    }
    hide K.Inv, Tiles, Exact, K.Backed;
  }

  /** A multiset of blocks after one more. */
  lemma TakenMore(a: seq<Block>, b: seq<Block>, x: Block)
    requires multiset(b) == multiset(a) + multiset{x}
    ensures forall y :: y in b <==> y in a || y == x
  {
    assert forall y :: y in b <==> y in multiset(b);
    assert forall y :: y in a <==> y in multiset(a);
  }

  lemma StartsDiffer(bs: seq<Block>, i: nat, j: nat)
    requires PairwiseApart(bs) && i < |bs| && j < |bs| && i != j
    ensures bs[i].start != bs[j].start
  {
    if i < j {
      assert Apart(bs[i], bs[j]);
    } else {
      assert Apart(bs[j], bs[i]);
    }
  }

  /** A taken block occurs once, and no other starts where it does. */
  lemma TakenOnce(h: Heap, b: Block, c: Block)
    requires Tiles(h, K.KERNEL_HEAP_START, K.KERNEL_HEAP_MAX) && b in h.taken && c in h.taken && b.start == c.start
    ensures b == c && multiset(h.taken)[b] == 1
  {
    var i :| 0 <= i < |h.taken| && h.taken[i] == b;
    assert h.taken == h.taken[..i] + [b] + h.taken[i + 1..];
    forall k | 0 <= k < |h.taken| && k != i
      ensures h.taken[k].start != b.start
    {
      StartsDiffer(h.taken, k, i);
    }
    hide Tiles;
    assert b !in h.taken[..i] && b !in h.taken[i + 1..];
  }

  /**
   kfree of a one-page block: the block and the page's entry go.  It follows a
   null pointer exactly when no free block is left.
   */
  lemma DropPageIs(h: K.State, g: K.Strategy, p: nat)
    requires K.Inv(h) && PageBlock(p) in h.heap.taken
    ensures K.Sound(h) && WellFormed(h.mem)
    ensures match DropBlock(h, g, Base(p)) {
      case Done(t) =>
        && K.Inv(t) && t.mem == UnmapFrame(h.mem, KernelPage(p)) && t.heap.free != []
        && forall b :: b in t.heap.taken <==> b in h.heap.taken && b != PageBlock(p)
      case Stopped => h.heap.free == []
    }
    ensures h.heap.free == [] ==> DropBlock(h, g, Base(p)).Stopped?
  {
    KT.InvIsSound(h);
    KT.InvParts(h);
    hide *;
    KT.KfreeKeeps(h, g, Base(p));
    TakenOnce(h.heap, PageBlock(p), PageBlock(p));
    BlockFound(h, p);
    DropBlockIs(h, g, p);
    if h.heap.free != [] {
      TakenLess(h.heap.taken, K.KfreeStep(h, g, Base(p)).0.heap.taken, PageBlock(p));
    }
  }

  lemma BlockFound(h: K.State, p: nat)
    requires Tiles(h.heap, K.KERNEL_HEAP_START, K.KERNEL_HEAP_MAX) && PageBlock(p) in h.heap.taken
    ensures var j := TakenAt(h.heap.taken, Base(p));
      j < |h.heap.taken| && h.heap.taken[j] == PageBlock(p)
  {
    var i :| 0 <= i < |h.heap.taken| && h.heap.taken[i] == PageBlock(p);
    assert h.heap.taken[i].start == Base(p);
    TakenOnce(h.heap, PageBlock(p), h.heap.taken[TakenAt(h.heap.taken, Base(p))]);
  }

  /** kfree of the block it finds. */
  lemma DropBlockIs(h: K.State, g: K.Strategy, p: nat)
    requires K.Sound(h) && WellFormed(h.mem)
    requires var j := TakenAt(h.heap.taken, Base(p)); j < |h.heap.taken| && h.heap.taken[j] == PageBlock(p)
    ensures var (t, r) := K.KfreeStep(h, g, Base(p));
      && DropBlock(h, g, Base(p)) == (if h.heap.free == [] then Stopped else Done(t))
      && (h.heap.free == [] ==> r.Fault?)
      && (h.heap.free != [] ==>
            && r == K.Freed(PAGE_SIZE) && Block(Base(p), PAGE_SIZE) == PageBlock(p)
            && t.mem == UnmapFrame(h.mem, KernelPage(p)) && t.heap.free != [])
  {
    PageIs(p);
    UnmapOne(h.mem, p);
    MergeSome(h.heap.free, PageBlock(p));
    hide WellFormed, UnmapRange, Merge, UnmapFrame, TakenAt;
  }

  lemma TakenLess(a: seq<Block>, b: seq<Block>, x: Block)
    requires multiset(a) == multiset(b) + multiset{x} && multiset(a)[x] == 1
    ensures forall y :: y in b <==> y in a && y != x
  {
    assert forall y :: y in b <==> y in multiset(b);
    assert forall y :: y in a <==> y in multiset(a);
  }

  lemma UnmapOne(m: Memory, p: nat)
    requires WellFormed(m)
    ensures UnmapRange(m, K.KERNEL, p, 1) == UnmapFrame(m, KernelPage(p))
  {
    UnmapRangeNext(m, K.KERNEL, p, 0);
    assert UnmapRange(m, K.KERNEL, p, 0) == m;
  }

  lemma MergeSome(bs: seq<Block>, b: Block)
    ensures Merge(bs, b) != []
  {
  }

  // ----- pages taken one after another -----

  /** kmalloc gave the page to the store or to a new table. */
  ghost predicate NewPage(ts: map<nat, nat>, l: Loop, p: nat) {
    p in l.at || exists d: nat :: d in l.us && d !in ts && l.us[d] == p
  }

  /** Pages taken since h0 were vacant and unmapped then, and are all different. */
  ghost predicate NewPages(h0: K.State, ts: map<nat, nat>, l: Loop) {
    && RR.NoRepeats(l.at)
    && (forall p: nat :: NewPage(ts, l, p) ==>
          PageBlock(p) in l.h.heap.taken && PageBlock(p) !in h0.heap.taken && Empty(h0.mem, KernelPage(p)))
    && (forall d: nat :: d in ts ==> d in l.us && l.us[d] == ts[d])
    && (forall d: nat :: d in l.us && d !in ts ==> l.us[d] !in l.at)
    && (forall d: nat, c: nat :: d in l.us && d !in ts && c in l.us && c !in ts && d != c ==> l.us[d] != l.us[c])
  }

  /** The blocks taken since h0 are those pages; every page and every one of n other frames came off the free list. */
  ghost predicate Grown(h0: K.State, ts: map<nat, nat>, l: Loop, n: nat) {
    && K.Inv(l.h) && NewPages(h0, ts, l)
    && (forall b :: b in h0.heap.taken ==> b in l.h.heap.taken)
    && (forall b :: b in l.h.heap.taken ==>
          b in h0.heap.taken || (0 <= b.start && b == PageBlock(b.start / PAGE_SIZE) && NewPage(ts, l, b.start / PAGE_SIZE)))
    && l.h.mem.boot == h0.mem.boot && (forall u: Slot :: u in h0.mem.ptes ==> u in l.h.mem.ptes)
    && |l.h.mem.free| + |l.at| + |l.us| + n == |h0.mem.free| + |ts|
  }

  lemma GrownInv(h0: K.State, ts: map<nat, nat>, l: Loop, n: nat)
    requires Grown(h0, ts, l, n)
    ensures K.Inv(l.h)
  {
  }

  /** What kmalloc(PAGE_SIZE) leaves, in the terms of Grown. */
  ghost predicate TookPage(h: K.State, t: K.State, p: nat) {
    && K.Inv(t) && PageBlock(p) !in h.heap.taken && Empty(h.mem, KernelPage(p)) && K.HeapSlot(KernelPage(p))
    && (forall b :: b in t.heap.taken <==> b in h.heap.taken || b == PageBlock(p))
    && t.mem.boot == h.mem.boot && (forall u: Slot :: u in h.mem.ptes ==> u in t.mem.ptes)
    && |t.mem.free| == |h.mem.free| - 1
  }

  lemma TookIt(h: K.State, g: K.Strategy)
    requires K.Inv(h)
    ensures K.Sound(h)
    ensures match TakePage(h, g) {
      case Done((t, p)) =>
        && WellFormed(h.mem) && h.mem.free != [] && TookPage(h, t, p) && Grew(h.mem, t.mem)
        && t.mem == TakeKernelPage(h.mem, p)
        && forall u: Slot :: u in t.mem.ptes <==> u in h.mem.ptes || u == KernelPage(p)
      case Stopped => true
    }
  {
    KT.InvParts(h);
    hide *;
    TakePageIs(h, g);
    match TakePage(h, g)
    case Done((t, p)) =>
      PageIs(p);
      PageGrows(h.mem, p);
      TookPageFrom(h, t, p);
    case Stopped =>
  }

  lemma PageGrows(m: Memory, p: nat)
    requires Exact(m, {}) && WellFormed(m) && m.free != [] && Empty(m, KernelPage(p))
    ensures var r := TakeKernelPage(m, p);
      && Grew(m, r) && r.boot == m.boot && forall u: Slot :: u in r.ptes <==> u in m.ptes || u == KernelPage(p)
  {
    GrowOne(m, KernelPage(p), PERM_WRITEABLE);
    GrewFacts(m, TakeKernelPage(m, p));
    hide Grew, Exact, WellFormed, MapNew, Gained;
  }

  lemma TookPageFrom(h: K.State, t: K.State, p: nat)
    requires K.Inv(t) && PageBlock(p) !in h.heap.taken && Empty(h.mem, KernelPage(p)) && K.HeapSlot(KernelPage(p))
    requires forall b :: b in t.heap.taken <==> b in h.heap.taken || b == PageBlock(p)
    requires t.mem.boot == h.mem.boot && |t.mem.free| == |h.mem.free| - 1
    requires forall u: Slot :: u in t.mem.ptes <==> u in h.mem.ptes || u == KernelPage(p)
    ensures TookPage(h, t, p)
  {
    hide K.Inv;
  }

  /** One page more, taken from a state that Grown describes. */
  lemma PageIsNew(h0: K.State, ts: map<nat, nat>, l: Loop, n: nat, t: K.State, p: nat)
    requires Grown(h0, ts, l, n) && TookPage(l.h, t, p)
    ensures !NewPage(ts, l, p) && PageBlock(p) !in h0.heap.taken && Empty(h0.mem, KernelPage(p))
    ensures PageBlock(p) in t.heap.taken
  {
    hide K.Inv;
  }

  lemma NoRepeatsMore(q: seq<nat>, p: nat)
    requires RR.NoRepeats(q) && p !in q
    ensures RR.NoRepeats(q + [p])
  {
  }

  /** create_page_table's page. */
  lemma TablePageTaken(h0: K.State, ts: map<nat, nat>, l: Loop, n: nat, t: K.State, p: nat, d: nat)
    requires Grown(h0, ts, l, n) && TookPage(l.h, t, p) && d !in l.us
    ensures Grown(h0, ts, Loop(t, l.us[d := p], l.at), n)
  {
    var r := Loop(t, l.us[d := p], l.at);
    hide *;
    GrownPages(h0, ts, l, n);
    TablePageIsNew(ts, l, t, p, d);
    PageIsNew(h0, ts, l, n, t, p);
    PageOfTable(ts, l, p);
    TookFacts(l.h, t, p);
    TablePageAdded(h0, ts, l, r, p, d);
    MapGrows(l.us, d, p);
    OneMore(h0, ts, l, n, r, p);
  }

  /** A page more, where the new page is known to be one. */
  lemma OneMore(h0: K.State, ts: map<nat, nat>, l: Loop, n: nat, r: Loop, p: nat)
    requires Grown(h0, ts, l, n) && TookPage(l.h, r.h, p) && NewPages(h0, ts, r)
    requires forall q: nat :: NewPage(ts, r, q) <==> NewPage(ts, l, q) || q == p
    requires |r.at| + |r.us| == |l.at| + |l.us| + 1
    ensures Grown(h0, ts, r, n)
  {
    PageIs(p);
    hide K.Inv, NewPages, NewPage, Empty, PageBlock;
  }

  lemma GrownPages(h0: K.State, ts: map<nat, nat>, l: Loop, n: nat)
    requires Grown(h0, ts, l, n)
    ensures NewPages(h0, ts, l) && forall d: nat :: d in ts ==> d in l.us
  {
  }

  lemma TookFacts(h: K.State, t: K.State, p: nat)
    requires TookPage(h, t, p)
    ensures forall b :: b in t.heap.taken <==> b in h.heap.taken || b == PageBlock(p)
  {
  }

  lemma TablePageAdded(h0: K.State, ts: map<nat, nat>, l: Loop, r: Loop, p: nat, d: nat)
    requires NewPages(h0, ts, l) && r == Loop(r.h, l.us[d := p], l.at) && d !in l.us
    requires forall q: nat :: NewPage(ts, r, q) <==> NewPage(ts, l, q) || q == p
    requires p !in l.at && forall c: nat :: c in l.us && c !in ts ==> l.us[c] != p
    requires PageBlock(p) !in h0.heap.taken && Empty(h0.mem, KernelPage(p))
    requires forall b :: b in r.h.heap.taken <==> b in l.h.heap.taken || b == PageBlock(p)
    ensures NewPages(h0, ts, r)
  {
    hide RR.NoRepeats, NewPage, Empty, PageBlock, KernelPage;
  }

  lemma TablePageIsNew(ts: map<nat, nat>, l: Loop, t: K.State, p: nat, d: nat)
    requires d !in l.us && d !in ts
    ensures forall q: nat :: NewPage(ts, Loop(t, l.us[d := p], l.at), q) <==> NewPage(ts, l, q) || q == p
  {
    var r := Loop(t, l.us[d := p], l.at);
    forall q: nat
      ensures NewPage(ts, r, q) <==> NewPage(ts, l, q) || q == p
    {
      if NewPage(ts, l, q) && q !in l.at {
        var c: nat :| c in l.us && c !in ts && l.us[c] == q;
        assert c in r.us && r.us[c] == q;
      }
      assert d in r.us && d !in ts && r.us[d] == p;
    }
  }

  lemma PageOfTable(ts: map<nat, nat>, l: Loop, p: nat)
    requires !NewPage(ts, l, p)
    ensures p !in l.at && forall c: nat :: c in l.us && c !in ts ==> l.us[c] != p
  {
  }

  /** A page of the store. */
  lemma StorePageTaken(h0: K.State, ts: map<nat, nat>, l: Loop, n: nat, t: K.State, p: nat)
    requires Grown(h0, ts, l, n) && TookPage(l.h, t, p)
    ensures Grown(h0, ts, Loop(t, l.us, l.at + [p]), n)
  {
    var r := Loop(t, l.us, l.at + [p]);
    StorePageIsNew(ts, l, t, p);
    hide *;
    GrownPages(h0, ts, l, n);
    PageIsNew(h0, ts, l, n, t, p);
    PageOfTable(ts, l, p);
    TookFacts(l.h, t, p);
    StorePageAdded(h0, ts, l, r, p);
    OneMore(h0, ts, l, n, r, p);
  }

  lemma StorePageIsNew(ts: map<nat, nat>, l: Loop, t: K.State, p: nat)
    ensures forall q: nat :: NewPage(ts, Loop(t, l.us, l.at + [p]), q) <==> NewPage(ts, l, q) || q == p
  {
  }

  lemma StorePageAdded(h0: K.State, ts: map<nat, nat>, l: Loop, r: Loop, p: nat)
    requires NewPages(h0, ts, l) && r == Loop(r.h, l.us, l.at + [p])
    requires forall q: nat :: NewPage(ts, r, q) <==> NewPage(ts, l, q) || q == p
    requires p !in l.at && forall c: nat :: c in l.us && c !in ts ==> l.us[c] != p
    requires PageBlock(p) !in h0.heap.taken && Empty(h0.mem, KernelPage(p))
    requires forall b :: b in r.h.heap.taken <==> b in l.h.heap.taken || b == PageBlock(p)
    ensures NewPages(h0, ts, r)
  {
    assert RR.NoRepeats(l.at);
    NoRepeatsMore(l.at, p);
    hide RR.NoRepeats, NewPage, Empty, PageBlock, KernelPage;
  }

  lemma EnsureTableGrows(h0: K.State, ts: map<nat, nat>, l: Loop, n: nat, g: K.Strategy, d: nat)
    requires Grown(h0, ts, l, n)
    ensures K.Sound(l.h)
    ensures match EnsureTable(l, g, d) {
      case Done(r) => Grown(h0, ts, r, n) && Grew(l.h.mem, r.h.mem) && forall u: Slot :: u in r.h.mem.ptes && u.space != K.KERNEL ==> u in l.h.mem.ptes
      case Stopped => true
    }
  {
    hide *;
    GrownInv(h0, ts, l, n);
    TookIt(l.h, g);
    EnsureTableIs(l, g, d);
    if d in l.us {
      KT.InvParts(l.h);
      GrewNone(l.h.mem);
    } else {
      match TakePage(l.h, g)
      case Done((t, p)) =>
        TablePageTaken(h0, ts, l, n, t, p, d);
        PageIs(p);
      case Stopped =>
    }
  }

  lemma EnsureTableIs(l: Loop, g: K.Strategy, d: nat)
    requires K.Sound(l.h)
    ensures EnsureTable(l, g, d) ==
            if d in l.us then Done(l)
            else match TakePage(l.h, g)
              case Done((t, p)) => Done(Loop(t, l.us[d := p], l.at))
              case Stopped => Stopped
  {
  }

  // ----- createSharedObject -----

  /** The pages from the k-th to the n-th are still empty. */
  ghost predicate Ahead(m: Memory, space: nat, page: nat, k: nat, n: nat) {
    forall u: Slot :: u.space == space && page + k <= u.page < page + n ==> Empty(m, u)
  }

  lemma AheadNext(m: Memory, r: Memory, space: nat, page: nat, k: nat, n: nat)
    requires Ahead(m, space, page, k, n) && k < n && r.boot == m.boot
    requires forall u: Slot :: u in r.ptes && u.space == space ==> u in m.ptes || u == Slot(space, page + k)
    ensures Ahead(r, space, page, k + 1, n)
  {
  }

  lemma AheadFirst(m: Memory, space: nat, page: nat, k: nat, n: nat)
    requires Ahead(m, space, page, k, n) && k < n
    ensures Empty(m, Slot(space, page + k))
  {
  }

  lemma AheadAll(m: Memory, r: Memory, space: nat, page: nat, n: nat)
    requires Unmapped(m, space, page, n) && r.boot == m.boot
    requires forall u: Slot :: u in r.ptes && u.space == space ==> u in m.ptes
    ensures Ahead(r, space, page, 0, n)
  {
    forall u: Slot | u.space == space && page <= u.page < page + n
      ensures Empty(r, u)
    {
      assert InRange(u, space, page, n);
    }
  }

  lemma GrownMemory(h0: K.State, ts: map<nat, nat>, l: Loop, n: nat, m: Memory, k: nat)
    requires Grown(h0, ts, l, n) && K.Inv(l.h.(mem := m)) && m.boot == l.h.mem.boot
    requires |m.free| + k == |l.h.mem.free| && forall u: Slot :: u in l.h.mem.ptes ==> u in m.ptes
    ensures Grown(h0, ts, l.(h := l.h.(mem := m)), n + k)
  {
    hide K.Inv, RR.NoRepeats, Empty, PageBlock;
  }

  lemma NotHeapSlot(u: Slot)
    requires u.space != K.KERNEL
    ensures !K.HeapSlot(u)
  {
  }

  /** allocate_frame and map_frame on an empty page of the environment. */
  lemma UserPageGrows(h0: K.State, ts: map<nat, nat>, l: Loop, n: nat, u: Slot, va: nat, perm: nat)
    requires Grown(h0, ts, l, n) && u.space != K.KERNEL && l.h.mem.free != [] && Empty(l.h.mem, u)
    ensures WellFormed(l.h.mem)
    ensures var m := MapNew(l.h.mem, u, va, perm);
      && Grown(h0, ts, l.(h := l.h.(mem := m)), n + 1) && m.boot == l.h.mem.boot
      && forall v: Slot :: v in m.ptes <==> v in l.h.mem.ptes || v == u
  {
    hide *;
    GrownInv(h0, ts, l, n);
    KT.InvParts(l.h);
    NotHeapSlot(u);
    KT.MapNewElsewhereKeeps(l.h, u, va, perm);
    MapNewKeeps(l.h.mem, u, va, perm);
    GrownMemory(h0, ts, l, n, MapNew(l.h.mem, u, va, perm), 1);
  }

  lemma StoreTurnIs(l: Loop, g: K.Strategy, space: nat, page: nat, k: nat)
    requires K.Sound(l.h)
    ensures StoreTurn(l, g, space, page, k).Done? ==> l.h.mem.free != []
    ensures WellFormed(l.h.mem) && 0 < TABLE_ENTRIES
    ensures StoreTurn(l, g, space, page, k).Done? ==>
              var m := MapNew(l.h.mem, Slot(space, page + k), Base(page + k), PERM_WRITEABLE + PERM_USER);
              var t := l.(h := l.h.(mem := m));
              && K.Sound(t.h) && EnsureTable(t, g, Directory(page + k)).Done?
              && var u := EnsureTable(t, g, Directory(page + k)).value;
              && (k % TABLE_ENTRIES != 0 ==> StoreTurn(l, g, space, page, k) == Done(u))
              && (k % TABLE_ENTRIES == 0 ==>
                    && TakePage(u.h, g).Done?
                    && var (h, p) := TakePage(u.h, g).value;
                    StoreTurn(l, g, space, page, k) == Done(Loop(h, u.us, u.at + [p])))
  {
    hide MapNew, EnsureTable, TakePage;
  }

  lemma StoreTurnGrows(h0: K.State, ts: map<nat, nat>, l: Loop, g: K.Strategy, space: nat, page: nat, k: nat, n: nat)
    requires Grown(h0, ts, l, k) && space != K.KERNEL && k < n && Ahead(l.h.mem, space, page, k, n)
    ensures K.Sound(l.h)
    ensures match StoreTurn(l, g, space, page, k) {
      case Done(r) => Grown(h0, ts, r, k + 1) && Ahead(r.h.mem, space, page, k + 1, n)
      case Stopped => true
    }
  {
    hide *;
    GrownInv(h0, ts, l, k);
    KT.InvIsSound(l.h);
    StoreTurnIs(l, g, space, page, k);
    match StoreTurn(l, g, space, page, k)
    case Done(r) =>
      var u := Slot(space, page + k);
      AheadFirst(l.h.mem, space, page, k, n);
      UserPageGrows(h0, ts, l, k, u, Base(page + k), PERM_WRITEABLE + PERM_USER);
      var t := l.(h := l.h.(mem := MapNew(l.h.mem, u, Base(page + k), PERM_WRITEABLE + PERM_USER)));
      AheadNext(l.h.mem, t.h.mem, space, page, k, n);
      EnsureTableGrows(h0, ts, t, k + 1, g, Directory(page + k));
      var v := EnsureTable(t, g, Directory(page + k)).value;
      GrewFacts(t.h.mem, v.h.mem);
      StillAhead(t.h.mem, v.h.mem, space, page, k + 1, n);
      if k % TABLE_ENTRIES == 0 {
        StorePageGrows(h0, ts, v, g, space, page, k + 1, n);
      }
    case Stopped =>
  }

  lemma StorePageGrows(h0: K.State, ts: map<nat, nat>, l: Loop, g: K.Strategy, space: nat, page: nat, k: nat, n: nat)
    requires Grown(h0, ts, l, k) && space != K.KERNEL && Ahead(l.h.mem, space, page, k, n)
    ensures K.Sound(l.h)
    ensures match TakePage(l.h, g) {
      case Done((t, p)) => Grown(h0, ts, Loop(t, l.us, l.at + [p]), k) && Ahead(t.mem, space, page, k, n)
      case Stopped => true
    }
  {
    hide *;
    GrownInv(h0, ts, l, k);
    TookIt(l.h, g);
    match TakePage(l.h, g)
    case Done((t, p)) =>
      StorePageTaken(h0, ts, l, k, t, p);
      PageIs(p);
      GrewFacts(l.h.mem, t.mem);
      StillAhead(l.h.mem, t.mem, space, page, k, n);
    case Stopped =>
  }

  lemma StillAhead(m: Memory, r: Memory, space: nat, page: nat, k: nat, n: nat)
    requires Ahead(m, space, page, k, n) && r.boot == m.boot && space != K.KERNEL
    requires forall u: Slot :: u in r.ptes && u.space != K.KERNEL ==> u in m.ptes
    ensures Ahead(r, space, page, k, n)
  {
  }

  lemma StoreLoopNext(l: Loop, g: K.Strategy, space: nat, page: nat, k: nat)
    requires K.Sound(l.h)
    ensures StoreLoop(l, g, space, page, 0) == Done(l)
    ensures StoreLoop(l, g, space, page, k + 1) ==
            match StoreLoop(l, g, space, page, k)
            case Stopped => Stopped
            case Done(t) => StoreTurn(t, g, space, page, k)
  {
  }

  lemma {:induction false} StoreLoopGrows(h0: K.State, ts: map<nat, nat>, l: Loop, g: K.Strategy, space: nat, page: nat, k: nat, n: nat)
    requires Grown(h0, ts, l, 0) && space != K.KERNEL && k <= n && Ahead(l.h.mem, space, page, 0, n)
    ensures K.Sound(l.h)
    ensures match StoreLoop(l, g, space, page, k) {
      case Done(r) => Grown(h0, ts, r, k) && Ahead(r.h.mem, space, page, k, n)
      case Stopped => true
    }
  {
    hide *;
    GrownInv(h0, ts, l, 0);
    KT.InvIsSound(l.h);
    StoreLoopNext(l, g, space, page, if k == 0 then 0 else k - 1);
    if k > 0 {
      StoreLoopGrows(h0, ts, l, g, space, page, k - 1, n);
      if StoreLoop(l, g, space, page, k - 1).Done? {
        StoreTurnGrows(h0, ts, StoreLoop(l, g, space, page, k - 1).value, g, space, page, k - 1, n);
      }
    }
  }

  /** The pages new tables are on, as far as the loop got. */
  ghost predicate Picked(ts: map<nat, nat>, us: map<nat, nat>, pick: map<nat, nat>) {
    forall d: nat :: d in us && d !in ts ==> d in pick && pick[d] == us[d]
  }

  lemma PickedLess(ts: map<nat, nat>, l: Loop, r: Loop, pick: map<nat, nat>)
    requires More(l, r) && Picked(ts, r.us, pick)
    ensures Picked(ts, l.us, pick)
  {
  }

  /** The table the page needs is made, or was there, as SharesSpec has it. */
  lemma EnsuredTable(l: Loop, g: K.Strategy, d: nat, ts: map<nat, nat>, pick: map<nat, nat>)
    requires K.Sound(l.h) && EnsureTable(l, g, d).Done?
    requires Picked(ts, EnsureTable(l, g, d).value.us, pick) && forall b: nat :: b in ts ==> b in l.us
    ensures var r := EnsureTable(l, g, d).value;
      && r.at == l.at && r.us == WithTable(l.us, pick, d) && WellFormed(l.h.mem) && TableCost(l.us, pick, d) <= |l.h.mem.free|
      && r.h.mem == MakeTable(l.h.mem, l.us, pick, d) && d in r.us
  {
    hide TakePage, TakeKernelPage;
    EnsureTableIs(l, g, d);
    var r := EnsureTable(l, g, d).value;
    if d !in l.us {
      assert d in r.us && d !in ts;
    }
  }

  /** The tables and the pages of the store after k turns. */
  lemma {:induction false} StoreLoopTables(l: Loop, g: K.Strategy, space: nat, page: nat, k: nat, pick: map<nat, nat>)
    requires K.Sound(l.h) && StoreLoop(l, g, space, page, k).Done?
    requires Picked(l.us, StoreLoop(l, g, space, page, k).value.us, pick)
    ensures var r := StoreLoop(l, g, space, page, k).value;
      && (forall p: nat :: page <= p < page + k ==> Directory(p) in r.us)
      && More(l, r) && r.us == TablesAfter(l.us, pick, page, k) && |r.at| == |l.at| + TableCount(k)
  {
    hide *;
    StoreLoopNext(l, g, space, page, if k == 0 then 0 else k - 1);
    if k == 0 {
      NoNewTables(l.us, pick, page);
      MoreSame(l);
    } else {
      var t := StoreLoop(l, g, space, page, k - 1).value;
      var r := StoreTurn(t, g, space, page, k - 1).value;
      PickedLess(l.us, t, r, pick);
      StoreLoopTables(l, g, space, page, k - 1, pick);
      StoreTurnIs(t, g, space, page, k - 1);
      MoreTrans(l, t, r);
      MoreFacts(l, t);
      MoreFacts(t, r);
      var v := t.(h := t.h.(mem := MapNew(t.h.mem, Slot(space, page + (k - 1)), Base(page + (k - 1)), PERM_WRITEABLE + PERM_USER)));
      EnsuredTable(v, g, Directory(page + (k - 1)), l.us, pick);
      CostStep(l.us, pick, page, k - 1);
    }
  }

  lemma MoreSame(l: Loop)
    ensures More(l, l) && TableCount(0) == 0
  {
  }

  lemma MoreTrans(l: Loop, t: Loop, r: Loop)
    requires More(l, t) && More(t, r)
    ensures More(l, r)
  {
    assert r.at[..|l.at|] == t.at[..|l.at|];
  }

  lemma MoreFacts(l: Loop, r: Loop)
    requires More(l, r)
    ensures |l.at| <= |r.at| && forall d: nat :: d in l.us ==> d in r.us && r.us[d] == l.us[d]
  {
  }

  lemma PrefixOf(at: seq<nat>, q: seq<nat>, p: nat)
    requires |q| + 1 <= |at| && at[..|q| + 1] == q + [p]
    ensures at[..|q|] == q && at[|q|] == p && (0 < |q| ==> at[1..][|q| - 1] == p)
  {
    assert at[..|q|] == at[..|q| + 1][..|q|];
  }

  lemma PrefixShorter(at: seq<nat>, q: seq<nat>, r: seq<nat>)
    requires |q| <= |r| <= |at| && at[..|r|] == r && r[..|q|] == q
    ensures at[..|q|] == q
  {
    assert at[..|q|] == at[..|r|][..|q|];
  }

  /** Memory after k turns is what SharesSpec says it is for the pages kmalloc gave. */
  lemma {:induction false} StoreLoopMemory(l: Loop, g: K.Strategy, space: nat, page: nat, k: nat, pick: map<nat, nat>, at: seq<nat>)
    requires K.Sound(l.h) && StoreLoop(l, g, space, page, k).Done? && |l.at| == 1
    requires var r := StoreLoop(l, g, space, page, k).value;
      Picked(l.us, r.us, pick) && |r.at| <= |at| && at[..|r.at|] == r.at
    requires k + TableCount(k) + NewTables(l.us, pick, page, k) <= |l.h.mem.free|
    ensures WellFormed(l.h.mem) && TableCount(k) <= |at[1..]|
    ensures StoreLoop(l, g, space, page, k).value.h.mem == StoreRange(l.h.mem, l.us, pick, space, page, k, at[1..])
  {
    hide *;
    SoundMemory(l.h);
    StoreLoopTables(l, g, space, page, k, pick);
    StoreLoopNext(l, g, space, page, if k == 0 then 0 else k - 1);
    if k == 0 {
      StoreNone(l.h.mem, l.us, pick, space, page, at[1..]);
    } else {
      var j := k - 1;
      var t := StoreLoop(l, g, space, page, j).value;
      var r := StoreTurn(t, g, space, page, j).value;
      PickedLess(l.us, t, r, pick);
      MoreFacts(t, r);
      MorePrefix(t, r);
      PrefixShorter(at, t.at, r.at);
      CostStep(l.us, pick, page, j);
      StoreLoopTables(l, g, space, page, j, pick);
      StoreLoopMemory(l, g, space, page, j, pick, at);
      StoreRangeNext(l.h.mem, l.us, pick, space, page, j, at[1..]);
      MoreFacts(l, t);
      StoreTurnMemory(t, g, space, page, j, l.us, pick, at);
    }
  }

  lemma MorePrefix(l: Loop, r: Loop)
    requires More(l, r)
    ensures |l.at| <= |r.at| && r.at[..|l.at|] == l.at
  {
  }

  lemma SoundMemory(h: K.State)
    requires K.Sound(h)
    ensures WellFormed(h.mem)
  {
  }

  lemma StoreTurnMemory(l: Loop, g: K.Strategy, space: nat, page: nat, k: nat, ts: map<nat, nat>, pick: map<nat, nat>, at: seq<nat>)
    requires K.Sound(l.h) && StoreTurn(l, g, space, page, k).Done? && |l.at| == 1 + TableCount(k)
    requires forall d: nat :: d in ts ==> d in l.us
    requires var r := StoreTurn(l, g, space, page, k).value;
      Picked(ts, r.us, pick) && |r.at| <= |at| && at[..|r.at|] == r.at
    requires WellFormed(l.h.mem) && StoreCost(l.us, pick, page, k) <= |l.h.mem.free| && 0 < |at| && TableCount(k + 1) <= |at[1..]|
    ensures StoreTurn(l, g, space, page, k).value.h.mem == StoreOne(l.h.mem, l.us, pick, space, page, k, at[1..])
  {
    hide *;
    StoreTurnIs(l, g, space, page, k);
    SM.StoreOneIs(l.h.mem, l.us, pick, space, page, k, at[1..]);
    var m := MapNew(l.h.mem, Slot(space, page + k), Base(page + k), PERM_WRITEABLE + PERM_USER);
    var t := l.(h := l.h.(mem := m));
    var u := EnsureTable(t, g, Directory(page + k)).value;
    EnsuredTable(t, g, Directory(page + k), ts, pick);
    if k % TABLE_ENTRIES == 0 {
      var (h, p) := TakePage(u.h, g).value;
      PrefixOf(at, l.at, p);
      KernelPageTaken(u.h.mem, p);
    }
  }

  lemma KernelPageTaken(m: Memory, p: nat)
    requires WellFormed(m) && m.free != []
    ensures TakeKernelPage(m, p) == MapNew(m, KernelPage(p), Base(p), PERM_WRITEABLE)
  {
  }

  // ----- getSharedObject -----

  /** The frames from the k-th on can be mapped once more. */
  ghost predicate Waiting(m: Memory, frames: seq<nat>, k: nat) {
    forall j {:trigger frames[j]} :: k <= j < |frames| ==> Allocatable(m, frames[j]) && 0 < m.refs[frames[j]] < COUNT_LIMIT - 1
  }

  lemma WaitingAll(m: Memory, frames: seq<nat>)
    requires Mappable(m, frames)
    ensures Waiting(m, frames, 0)
  {
  }

  lemma WaitingAt(m: Memory, frames: seq<nat>, k: nat)
    requires Waiting(m, frames, k) && k < |frames|
    ensures Allocatable(m, frames[k]) && frames[k] < |m.refs| && 0 < m.refs[frames[k]] < COUNT_LIMIT - 1
  {
  }

  lemma WaitingGrew(m: Memory, r: Memory, frames: seq<nat>, k: nat)
    requires Waiting(m, frames, k) && Grew(m, r)
    ensures Waiting(r, frames, k)
  {
  }

  lemma WaitingNext(m: Memory, r: Memory, frames: seq<nat>, k: nat)
    requires Waiting(m, frames, k) && k < |frames| && RR.NoRepeats(frames) && frames[k] < |m.refs| == |r.refs| && r.reserved == m.reserved
    requires forall f: nat :: f < |m.refs| && f != frames[k] ==> r.refs[f] == m.refs[f]
    ensures Waiting(r, frames, k + 1)
  {
  }

  /** map_frame of an object's frame on an empty page of the environment. */
  lemma SharedPageGrows(h0: K.State, ts: map<nat, nat>, l: Loop, u: Slot, f: nat, va: nat, perm: nat)
    requires Grown(h0, ts, l, 0) && u.space != K.KERNEL && Empty(l.h.mem, u)
    requires Allocatable(l.h.mem, f) && f < |l.h.mem.refs| && 0 < l.h.mem.refs[f] < COUNT_LIMIT - 1
    ensures WellFormed(l.h.mem)
    ensures var m := MapFrame(l.h.mem, u, f, va, perm);
      && Grown(h0, ts, l.(h := l.h.(mem := m)), 0) && m.boot == l.h.mem.boot && m.free == l.h.mem.free && |m.refs| == |l.h.mem.refs| && m.reserved == l.h.mem.reserved
      && (forall v: Slot :: v in m.ptes <==> v in l.h.mem.ptes || v == u)
      && (forall g: nat :: g < |m.refs| && g != f ==> m.refs[g] == l.h.mem.refs[g])
  {
    hide *;
    GrownInv(h0, ts, l, 0);
    KT.InvParts(l.h);
    NotHeapSlot(u);
    NotBoot(l.h.mem, u);
    KT.MapElsewhereKeeps(l.h, u, f, va, perm);
    MapIs(l.h.mem, u, f, va, perm);
    GrownMemory(h0, ts, l, 0, MapFrame(l.h.mem, u, f, va, perm), 0);
  }

  lemma NotBoot(m: Memory, u: Slot)
    requires Exact(m, {}) && u.space != K.KERNEL
    ensures u !in m.boot
  {
  }

  lemma GetLoopNext(l: Loop, g: K.Strategy, space: nat, page: nat, frames: seq<nat>, k: nat, perm: nat)
    requires K.Sound(l.h) && AreFrames(l.h.mem, frames)
    ensures GetLoop(l, g, space, page, frames, 0, perm) == Done(l)
    ensures k < |frames| && GetLoop(l, g, space, page, frames, k + 1, perm).Done? ==>
              && GetLoop(l, g, space, page, frames, k, perm).Done?
              && var t := GetLoop(l, g, space, page, frames, k, perm).value;
              && K.Sound(t.h) && EnsureTable(t, g, Directory(page + k)).Done?
              && var u := EnsureTable(t, g, Directory(page + k)).value;
              && WellFormed(u.h.mem) && frames[k] < |u.h.mem.refs|
              && GetLoop(l, g, space, page, frames, k + 1, perm) ==
                 Done(u.(h := u.h.(mem := MapFrame(u.h.mem, Slot(space, page + k), frames[k], Base(page + k), perm))))
  {
    hide MapFrame, EnsureTable;
  }

  lemma {:induction false} GetLoopGrows(h0: K.State, ts: map<nat, nat>, l: Loop, g: K.Strategy, space: nat, page: nat, frames: seq<nat>, k: nat, perm: nat)
    requires Grown(h0, ts, l, 0) && space != K.KERNEL && k <= |frames| && Ahead(l.h.mem, space, page, 0, |frames|)
    requires RR.NoRepeats(frames) && AreFrames(l.h.mem, frames) && Waiting(l.h.mem, frames, 0)
    ensures K.Sound(l.h)
    ensures match GetLoop(l, g, space, page, frames, k, perm) {
      case Done(r) => Grown(h0, ts, r, 0) && Ahead(r.h.mem, space, page, k, |frames|) && Waiting(r.h.mem, frames, k)
      case Stopped => true
    }
  {
    hide *;
    GrownInv(h0, ts, l, 0);
    KT.InvIsSound(l.h);
    GetLoopNext(l, g, space, page, frames, if k == 0 then 0 else k - 1, perm);
    if k > 0 {
      var j := k - 1;
      GetLoopGrows(h0, ts, l, g, space, page, frames, j, perm);
      if GetLoop(l, g, space, page, frames, k, perm).Done? {
        GetTurnGrows(h0, ts, GetLoop(l, g, space, page, frames, j, perm).value, g, space, page, frames, j, perm);
      }
    }
  }

  lemma GetTurnGrows(h0: K.State, ts: map<nat, nat>, l: Loop, g: K.Strategy, space: nat, page: nat, frames: seq<nat>, k: nat, perm: nat)
    requires Grown(h0, ts, l, 0) && space != K.KERNEL && k < |frames| && Ahead(l.h.mem, space, page, k, |frames|)
    requires RR.NoRepeats(frames) && Waiting(l.h.mem, frames, k)
    requires K.Sound(l.h) && EnsureTable(l, g, Directory(page + k)).Done?
    ensures var u := EnsureTable(l, g, Directory(page + k)).value;
      && WellFormed(u.h.mem) && frames[k] < |u.h.mem.refs|
      && var m := MapFrame(u.h.mem, Slot(space, page + k), frames[k], Base(page + k), perm);
      Grown(h0, ts, u.(h := u.h.(mem := m)), 0) && m.free == u.h.mem.free && Ahead(m, space, page, k + 1, |frames|) && Waiting(m, frames, k + 1)
  {
    hide *;
    EnsureTableGrows(h0, ts, l, 0, g, Directory(page + k));
    var u := EnsureTable(l, g, Directory(page + k)).value;
    GrewFacts(l.h.mem, u.h.mem);
    StillAhead(l.h.mem, u.h.mem, space, page, k, |frames|);
    WaitingGrew(l.h.mem, u.h.mem, frames, k);
    AheadFirst(u.h.mem, space, page, k, |frames|);
    WaitingAt(u.h.mem, frames, k);
    SharedPageGrows(h0, ts, u, Slot(space, page + k), frames[k], Base(page + k), perm);
    var m := MapFrame(u.h.mem, Slot(space, page + k), frames[k], Base(page + k), perm);
    AheadNext(u.h.mem, m, space, page, k, |frames|);
    WaitingNext(u.h.mem, m, frames, k);
  }

  lemma {:induction false} GetLoopTables(l: Loop, g: K.Strategy, space: nat, page: nat, frames: seq<nat>, k: nat, perm: nat, pick: map<nat, nat>)
    requires K.Sound(l.h) && AreFrames(l.h.mem, frames) && k <= |frames| && GetLoop(l, g, space, page, frames, k, perm).Done?
    requires Picked(l.us, GetLoop(l, g, space, page, frames, k, perm).value.us, pick)
    ensures var r := GetLoop(l, g, space, page, frames, k, perm).value;
      && (forall p: nat :: page <= p < page + k ==> Directory(p) in r.us)
      && More(l, r) && r.us == TablesAfter(l.us, pick, page, k) && r.at == l.at
  {
    hide *;
    GetLoopNext(l, g, space, page, frames, if k == 0 then 0 else k - 1, perm);
    if k == 0 {
      NoNewTables(l.us, pick, page);
      MoreSame(l);
    } else {
      var t := GetLoop(l, g, space, page, frames, k - 1, perm).value;
      var u := EnsureTable(t, g, Directory(page + (k - 1))).value;
      var r := GetLoop(l, g, space, page, frames, k, perm).value;
      MoreMemory(t, u, r);
      PickedLess(l.us, t, r, pick);
      GetLoopTables(l, g, space, page, frames, k - 1, perm, pick);
      MoreTrans(l, t, r);
      MoreFacts(l, t);
      MoreFacts(t, r);
      EnsuredTable(t, g, Directory(page + (k - 1)), l.us, pick);
      CostStep(l.us, pick, page, k - 1);
    }
  }

  lemma MoreMemory(l: Loop, u: Loop, r: Loop)
    requires More(l, u) && r.us == u.us && r.at == u.at
    ensures More(l, r)
  {
  }

  /** Memory after k turns is what SharesSpec says it is for the pages kmalloc gave. */
  lemma {:induction false} GetLoopMemory(l: Loop, g: K.Strategy, space: nat, page: nat, frames: seq<nat>, k: nat, perm: nat, pick: map<nat, nat>)
    requires K.Sound(l.h) && AreFrames(l.h.mem, frames) && k <= |frames| && GetLoop(l, g, space, page, frames, k, perm).Done?
    requires Picked(l.us, GetLoop(l, g, space, page, frames, k, perm).value.us, pick)
    requires NewTables(l.us, pick, page, k) <= |l.h.mem.free|
    ensures WellFormed(l.h.mem)
    ensures GetLoop(l, g, space, page, frames, k, perm).value.h.mem == GetRange(l.h.mem, l.us, pick, space, page, frames, k, perm)
  {
    hide *;
    SoundMemory(l.h);
    GetLoopNext(l, g, space, page, frames, if k == 0 then 0 else k - 1, perm);
    if k == 0 {
      GetNone(l.h.mem, l.us, pick, space, page, frames, perm);
    } else {
      var j := k - 1;
      var t := GetLoop(l, g, space, page, frames, j, perm).value;
      var u := EnsureTable(t, g, Directory(page + j)).value;
      var r := GetLoop(l, g, space, page, frames, k, perm).value;
      MoreMemory(t, u, r);
      PickedLess(l.us, t, r, pick);
      CostStep(l.us, pick, page, j);
      GetLoopTables(l, g, space, page, frames, j, perm, pick);
      GetLoopMemory(l, g, space, page, frames, j, perm, pick);
      GetRangeNext(l.h.mem, l.us, pick, space, page, frames, j, perm);
      MoreFacts(l, t);
      EnsuredTable(t, g, Directory(page + j), l.us, pick);
    }
  }

  // ----- freeSharedObject -----

  /** The block is one page, on a slot of the set. */
  ghost predicate BlockOf(b: Block, slots: set<Slot>) {
    0 <= b.start && b == PageBlock(b.start / PAGE_SIZE) && KernelPage(b.start / PAGE_SIZE) in slots
  }

  lemma BlockOfPage(p: nat, slots: set<Slot>)
    ensures BlockOf(PageBlock(p), slots) <==> KernelPage(p) in slots
    ensures forall b :: BlockOf(b, {KernelPage(p)}) <==> b == PageBlock(p)
    ensures forall b, more: set<Slot> :: BlockOf(b, slots + more) <==> BlockOf(b, slots) || BlockOf(b, more)
  {
    PageIs(p);
  }

  /** The blocks on the slots are gone from the heap, and no others. */
  ghost predicate Shrunk(h0: K.State, t: K.State, slots: set<Slot>) {
    K.Inv(t) && forall b :: b in t.heap.taken <==> b in h0.heap.taken && !BlockOf(b, slots)
  }

  lemma ShrunkNone(h: K.State)
    requires K.Inv(h)
    ensures Shrunk(h, h, {})
  {
    hide K.Inv;
  }

  lemma ShrunkInv(h0: K.State, t: K.State, slots: set<Slot>)
    requires Shrunk(h0, t, slots)
    ensures K.Inv(t) && WellFormed(t.mem) && K.Sound(t)
  {
    KT.InvParts(t);
    KT.InvIsSound(t);
  }

  /** kfree of one more page. */
  lemma ShrinksMore(h0: K.State, t: K.State, slots: set<Slot>, g: K.Strategy, p: nat)
    requires Shrunk(h0, t, slots) && PageBlock(p) in h0.heap.taken && KernelPage(p) !in slots
    ensures K.Sound(t) && WellFormed(t.mem)
    ensures match DropBlock(t, g, Base(p)) {
      case Done(r) => Shrunk(h0, r, slots + {KernelPage(p)}) && r.mem == UnmapFrame(t.mem, KernelPage(p)) && r.heap.free != []
      case Stopped => t.heap.free == []
    }
    ensures t.heap.free == [] ==> DropBlock(t, g, Base(p)).Stopped?
  {
    ShrunkInv(h0, t, slots);
    BlockOfPage(p, slots);
    hide K.Inv, K.Sound, BlockOf, PageBlock, KernelPage, Base, DropBlock;
    DropPageIs(t, g, p);
  }

  /** Unmapping an environment's pages leaves the heap alone. */
  lemma {:induction false} UnmapUserKeeps(h: K.State, space: nat, page: nat, n: nat)
    requires K.Inv(h) && WellFormed(h.mem) && space != K.KERNEL
    ensures K.Inv(h.(mem := UnmapRange(h.mem, space, page, n)))
  {
    hide *;
    if n == 0 {
      UnmapNone(h.mem, space, page);
    } else {
      var k := n - 1;
      UnmapUserKeeps(h, space, page, k);
      UnmapRangeNext(h.mem, space, page, k);
      var t := h.(mem := UnmapRange(h.mem, space, page, k));
      var u := Slot(space, page + k);
      KT.InvParts(t);
      NotHeapSlot(u);
      NotBoot(t.mem, u);
      KT.UnmapElsewhereKeeps(t, u);
    }
  }

  lemma UnmapNone(m: Memory, space: nat, page: nat)
    requires WellFormed(m)
    ensures UnmapRange(m, space, page, 0) == m
  {
  }

  /** Every table is on a page of its own, which the heap has taken. */
  ghost predicate TablesTaken(h: K.State, ts: map<nat, nat>) {
    && (forall d: nat :: d in ts ==> PageBlock(ts[d]) in h.heap.taken)
    && (forall d: nat, c: nat :: d in ts && c in ts && d != c ==> ts[d] != ts[c])
  }

  lemma TrimLoopNext(h: K.State, g: K.Strategy, space: nat, ts: map<nat, nat>, lo: nat, k: nat)
    requires K.Sound(h)
    ensures TrimLoop(h, g, space, ts, lo, 0) == Done((h, ts))
    ensures TrimLoop(h, g, space, ts, lo, k + 1) ==
            match TrimLoop(h, g, space, ts, lo, k)
            case Stopped => Stopped
            case Done((t, us)) =>
              var d := Directory(lo + k);
              if d in us && F.TableEmpty(t.mem, space, d) then
                match DropBlock(t, g, Base(us[d]))
                case Stopped => Stopped
                case Done(u) => Done((u, us - {d}))
              else Done((t, us))
  {
    assert lo + (k + 1) - 1 == lo + k;
  }

  lemma DropEmptyNext(m: Memory, space: nat, ts: map<nat, nat>, lo: nat, k: nat)
    requires WellFormed(m)
    ensures F.DropEmptyTables(m, space, ts, lo, 0) == (m, ts)
    ensures var (t, us) := F.DropEmptyTables(m, space, ts, lo, k);
      var d := Directory(lo + k);
      F.DropEmptyTables(m, space, ts, lo, k + 1) ==
      if d in us && F.TableEmpty(t, space, d) then (UnmapFrame(t, KernelPage(us[d])), us - {d}) else (t, us)
  {
    assert lo + (k + 1) - 1 == lo + k;
  }

  /** The table of d goes from those that are left. */
  lemma TableGoes(ts: map<nat, nat>, us: map<nat, nat>, d: nat)
    requires d in us && (forall c: nat :: c in us ==> c in ts && us[c] == ts[c])
    requires forall c: nat, b: nat :: c in ts && b in ts && c != b ==> ts[c] != ts[b]
    ensures KernelPage(us[d]) !in TablePages(ts, us) && |us - {d}| == |us| - 1
    ensures TablePages(ts, us - {d}) == TablePages(ts, us) + {KernelPage(us[d])}
  {
    assert (us - {d}).Keys == us.Keys - {d} && |us.Keys| == |us| && |(us - {d}).Keys| == |us - {d}|;
    forall u: Slot
      ensures u in TablePages(ts, us - {d}) <==> u in TablePages(ts, us) + {KernelPage(us[d])}
    {
      if u in TablePages(ts, us) {
        var c: nat :| c in ts && c !in us && u == KernelPage(ts[c]);
        assert c !in us - {d};
      }
      assert d !in us - {d};
    }
  }

  /**
   The loop over the tables: those left empty go, blocks and frames, as
   SharesSpec has it.  It follows a null pointer exactly when there is one to
   free and no free block is left.
   */
  lemma {:induction false} TrimLoopShrinks(h: K.State, g: K.Strategy, space: nat, ts: map<nat, nat>, lo: nat, k: nat)
    requires K.Inv(h) && TablesTaken(h, ts)
    ensures K.Sound(h) && WellFormed(h.mem)
    ensures var (m, left) := F.DropEmptyTables(h.mem, space, ts, lo, k);
      && (forall d: nat :: d in left ==> d in ts && left[d] == ts[d]) && |left| <= |ts|
      && (TrimLoop(h, g, space, ts, lo, k).Stopped? <==> h.heap.free == [] && |left| < |ts|)
      && match TrimLoop(h, g, space, ts, lo, k) {
        case Done((t, us)) =>
          Shrunk(h, t, TablePages(ts, us)) && t.mem == m && us == left && (t.heap.free == [] <==> |us| == |ts| && h.heap.free == [])
        case Stopped => true
      }
  {
    hide *;
    ShrunkNone(h);
    ShrunkInv(h, h, {});
    if k == 0 {
      TrimLoopNext(h, g, space, ts, lo, 0);
      DropEmptyNext(h.mem, space, ts, lo, 0);
      NoTablesMade(h.mem, ts, ts, 0);
    } else {
      var j := k - 1;
      TrimLoopShrinks(h, g, space, ts, lo, j);
      TrimLoopNext(h, g, space, ts, lo, j);
      DropEmptyNext(h.mem, space, ts, lo, j);
      TablesDiffer(h, ts);
      var left := F.DropEmptyTables(h.mem, space, ts, lo, j).1;
      var d := Directory(lo + j);
      if d in left {
        TableGoes(ts, left, d);
        if TrimLoop(h, g, space, ts, lo, j).Done? {
          TrimTurn(h, TrimLoop(h, g, space, ts, lo, j).value.0, g, ts, left, d);
        }
      }
    }
  }

  lemma TablesDiffer(h: K.State, ts: map<nat, nat>)
    requires TablesTaken(h, ts)
    ensures forall c: nat, b: nat :: c in ts && b in ts && c != b ==> ts[c] != ts[b]
  {
  }

  lemma TableTaken(h: K.State, ts: map<nat, nat>, d: nat)
    requires TablesTaken(h, ts) && d in ts
    ensures PageBlock(ts[d]) in h.heap.taken
  {
  }

  lemma TrimTurn(h: K.State, t: K.State, g: K.Strategy, ts: map<nat, nat>, us: map<nat, nat>, d: nat)
    requires TablesTaken(h, ts) && d in us && Shrunk(h, t, TablePages(ts, us))
    requires forall c: nat :: c in us ==> c in ts && us[c] == ts[c]
    ensures K.Sound(t) && WellFormed(t.mem)
    ensures match DropBlock(t, g, Base(us[d])) {
      case Done(r) => Shrunk(h, r, TablePages(ts, us - {d})) && r.mem == UnmapFrame(t.mem, KernelPage(us[d])) && r.heap.free != []
      case Stopped => t.heap.free == []
    }
    ensures t.heap.free == [] ==> DropBlock(t, g, Base(us[d])).Stopped?
  {
    hide *;
    TablesDiffer(h, ts);
    TableGoes(ts, us, d);
    TableTaken(h, ts, d);
    ShrinksMore(h, t, TablePages(ts, us), g, us[d]);
  }

  /** The slots are on blocks the heap had taken, and are still there. */
  ghost predicate StillTaken(h0: K.State, slots: set<Slot>, gone: set<Slot>) {
    forall u: Slot :: u in slots ==> u.space == K.KERNEL && PageBlock(u.page) in h0.heap.taken && u !in gone
  }

  lemma StillTakenAt(h0: K.State, slots: set<Slot>, gone: set<Slot>, u: Slot)
    requires StillTaken(h0, slots, gone) && u in slots
    ensures u == KernelPage(u.page) && PageBlock(u.page) in h0.heap.taken && u !in gone
  {
  }

  lemma StillTakenPart(h0: K.State, slots: set<Slot>, part: set<Slot>, gone: set<Slot>)
    requires StillTaken(h0, slots, gone) && part <= slots
    ensures StillTaken(h0, part, gone)
  {
  }

  lemma ClearLoopNext(h: K.State, g: K.Strategy, tables: seq<nat>, k: nat)
    requires K.Sound(h) && AreFrames(h.mem, tables)
    ensures ClearLoop(h, g, tables, 0) == Done(h)
    ensures k < |tables| && ClearLoop(h, g, tables, k).Stopped? ==> ClearLoop(h, g, tables, k + 1).Stopped?
    ensures k < |tables| && ClearLoop(h, g, tables, k).Done? ==>
              var t := ClearLoop(h, g, tables, k).value;
              && K.Sound(t) && tables[k] < |t.mem.va|
              && ClearLoop(h, g, tables, k + 1) == DropBlock(t, g, t.mem.va[tables[k]])
  {
  }

  /** The address a store's table is freed at. */
  lemma RememberedPage(m: Memory, f: nat)
    requires f < |m.va| && OwnPage(m, f)
    ensures m.va[f] == Base(TableSlot(m, f).page) && TableSlot(m, f) == KernelPage(TableSlot(m, f).page)
  {
  }

  /** clear_frames_storage: the tables' pages go, blocks and frames, as SharesSpec has it. */
  lemma {:induction false} ClearLoopShrinks(h0: K.State, h: K.State, gone: set<Slot>, g: K.Strategy, tables: seq<nat>, k: nat)
    requires Shrunk(h0, h, gone) && k <= |tables| && RR.NoRepeats(tables) && OwnPages(h.mem, tables)
    requires WellFormed(h.mem) && AreFrames(h.mem, tables) && StillTaken(h0, TableSlots(h.mem, tables, k), gone)
    ensures K.Sound(h)
    ensures match ClearLoop(h, g, tables, k) {
      case Done(t) =>
        && Shrunk(h0, t, gone + TableSlots(h.mem, tables, k)) && t.mem == DropTables(h.mem, tables, k)
        && (t.heap.free == [] <==> k == 0 && h.heap.free == [])
      case Stopped => k > 0 && h.heap.free == []
    }
    ensures k > 0 && h.heap.free == [] ==> ClearLoop(h, g, tables, k).Stopped?
  {
    hide *;
    ShrunkInv(h0, h, gone);
    KT.InvParts(h);
    if k == 0 {
      ClearLoopNext(h, g, tables, 0);
      DropNone(h.mem, tables);
      assert gone + {} == gone;
    } else {
      var j := k - 1;
      TableSlotNew(h.mem, tables, j);
      var slots, u := TableSlots(h.mem, tables, j), TableSlot(h.mem, tables[j]);
      StillTakenPart(h0, TableSlots(h.mem, tables, k), slots, gone);
      StillTakenAt(h0, TableSlots(h.mem, tables, k), gone, u);
      ClearLoopShrinks(h0, h, gone, g, tables, j);
      ClearLoopNext(h, g, tables, j);
      if ClearLoop(h, g, tables, j).Done? {
        var t := ClearLoop(h, g, tables, j).value;
        DropTablesLoses(h.mem, tables, j);
        OwnPageStays(h.mem, t.mem, slots, tables[j]);
        DropTablesNext(h.mem, tables, j);
        RememberedPage(h.mem, tables[j]);
        ShrinksMore(h0, t, gone + slots, g, u.page);
        assert gone + slots + {u} == gone + TableSlots(h.mem, tables, k);
      }
    }
  }

  /** free_share_object: the whole store goes, blocks and frames. */
  lemma DropShareShrinks(h0: K.State, h: K.State, gone: set<Slot>, g: K.Strategy, sh: S.Share)
    requires Shrunk(h0, h, gone) && WellFormed(h.mem) && S.StoreOk(h.mem, sh) && AreFrames(h.mem, sh.tables)
    requires StillTaken(h0, S.StorePages(h.mem, sh), gone)
    ensures K.Sound(h)
    ensures match DropShare(h, g, sh) {
      case Done(t) => Shrunk(h0, t, gone + S.StorePages(h.mem, sh)) && t.mem == S.DropStore(h.mem, sh)
      case Stopped => h.heap.free == []
    }
    ensures h.heap.free == [] ==> DropShare(h, g, sh).Stopped?
  {
    hide *;
    ShrunkInv(h0, h, gone);
    SC.StoreFacts(h.mem, sh);
    var n, slots, dir := |sh.tables|, TableSlots(h.mem, sh.tables, |sh.tables|), KernelPage(sh.dir);
    StillTakenPart(h0, S.StorePages(h.mem, sh), slots, gone);
    StillTakenAt(h0, S.StorePages(h.mem, sh), gone, dir);
    PageIs(sh.dir);
    ClearLoopShrinks(h0, h, gone, g, sh.tables, n);
    DropShareIs(h, g, sh);
    if ClearLoop(h, g, sh.tables, n).Done? {
      ShrinksMore(h0, ClearLoop(h, g, sh.tables, n).value, gone + slots, g, sh.dir);
      assert gone + slots + {dir} == gone + S.StorePages(h.mem, sh);
    }
  }

  lemma DropShareIs(h: K.State, g: K.Strategy, sh: S.Share)
    requires K.Sound(h) && AreFrames(h.mem, sh.tables)
    ensures var clear := ClearLoop(h, g, sh.tables, |sh.tables|);
      if clear.Stopped? then DropShare(h, g, sh).Stopped? else K.Sound(clear.value) && DropShare(h, g, sh) == DropBlock(clear.value, g, Base(sh.dir))
  {
    hide ClearLoop, DropBlock;
  }

  // ----- when the loops succeed -----

  /** Pages of the heap that no taken block covers. */
  ghost function VacantPages(h: K.State): set<nat> {
    set p: nat | p < 0x10_0000 && K.HeapSlot(KernelPage(p)) && !Covered(h.heap.taken, Base(p))
  }

  lemma VacantPageIs(h: K.State, p: nat)
    ensures p in VacantPages(h) <==> K.HeapSlot(KernelPage(p)) && !Covered(h.heap.taken, Base(p))
  {
    assert K.HeapSlot(KernelPage(p)) ==> p < 0x10_0000;
  }

  /** kmalloc(PAGE_SIZE) finds a free block exactly when some page is vacant. */
  lemma NoVacantPage(h: K.State)
    requires K.Inv(h)
    ensures h.heap.free == [] <==> |VacantPages(h)| == 0
  {
    if h.heap.free != [] {
      var b := h.heap.free[0];
      KT.PlacedInHeap(h.heap, b);
      assert b.Has(b.start) && Covered(h.heap.free, b.start);
      FreeOrTaken(h.heap, K.KERNEL_HEAP_START, K.KERNEL_HEAP_MAX, b.start);
      var p := b.start / PAGE_SIZE;
      assert Base(p) == b.start && K.HeapSlot(KernelPage(p));
      VacantPageIs(h, p);
    } else {
      forall p: nat
        ensures p !in VacantPages(h)
      {
        VacantPageIs(h, p);
        FreeOrTaken(h.heap, K.KERNEL_HEAP_START, K.KERNEL_HEAP_MAX, Base(p));
        assert !Covered(h.heap.free, Base(p));
      }
      assert VacantPages(h) == {};
    }
  }

  lemma CoveredBy(bs: seq<Block>, x: int)
    ensures Covered(bs, x) <==> exists b :: b in bs && b.Has(x)
  {
    if b :| b in bs && b.Has(x) {
      var i :| 0 <= i < |bs| && bs[i] == b;
    }
  }

  lemma PageHas(p: nat, q: nat)
    ensures PageBlock(p).Has(Base(q)) <==> p == q
  {
  }

  lemma VacantAfter(h: K.State, t: K.State, p: nat)
    requires K.Inv(h) && TookPage(h, t, p)
    ensures |VacantPages(t)| == |VacantPages(h)| - 1 && t.heap.taken != []
  {
    assert !Covered(h.heap.taken, Base(p));
    VacantPageIs(h, p);
    forall q: nat
      ensures q in VacantPages(t) <==> q in VacantPages(h) && q != p
    {
      VacantPageIs(h, q);
      VacantPageIs(t, q);
      CoveredBy(h.heap.taken, Base(q));
      CoveredBy(t.heap.taken, Base(q));
      PageHas(p, q);
    }
    hide *;
    assert VacantPages(t) == VacantPages(h) - {p};
    assert PageBlock(p) in t.heap.taken by { TookFacts(h, t, p); }
  }

  /** One page: there is one exactly when a frame is free and a page vacant. */
  lemma PageDone(h: K.State, g: K.Strategy)
    requires K.Inv(h) && h.heap.taken != []
    ensures K.Sound(h)
    ensures TakePage(h, g).Done? <==> 1 <= |h.mem.free| && 1 <= |VacantPages(h)|
    ensures TakePage(h, g).Done? ==>
              var t := TakePage(h, g).value.0;
              && K.Inv(t) && t.heap.taken != []
              && |t.mem.free| == |h.mem.free| - 1 && |VacantPages(t)| == |VacantPages(h)| - 1
  {
    hide *;
    TakePageIs(h, g);
    NoVacantPage(h);
    TookIt(h, g);
    if TakePage(h, g).Done? {
      var (t, p) := TakePage(h, g).value;
      VacantAfter(h, t, p);
      TookInv(h, t, p);
    }
  }

  lemma TookInv(h: K.State, t: K.State, p: nat)
    requires TookPage(h, t, p)
    ensures K.Inv(t) && |t.mem.free| == |h.mem.free| - 1
  {
  }

  function TablesFor(us: map<nat, nat>, d: nat): nat {
    if d in us then 0 else 1
  }

  lemma EnsureTableDone(l: Loop, g: K.Strategy, d: nat)
    requires K.Inv(l.h) && l.h.heap.taken != []
    ensures K.Sound(l.h)
    ensures EnsureTable(l, g, d).Done? <==> TablesFor(l.us, d) <= |l.h.mem.free| && TablesFor(l.us, d) <= |VacantPages(l.h)|
    ensures EnsureTable(l, g, d).Done? ==>
              var r := EnsureTable(l, g, d).value;
              && K.Inv(r.h) && r.h.heap.taken != [] && r.us.Keys == l.us.Keys + {d}
              && |r.h.mem.free| == |l.h.mem.free| - TablesFor(l.us, d)
              && |VacantPages(r.h)| == |VacantPages(l.h)| - TablesFor(l.us, d)
  {
    PageDone(l.h, g);
    EnsureTableIs(l, g, d);
    hide K.Inv, TakePage, EnsureTable, VacantPages;
  }

  /** The page directory entries of n pages. */
  function Entries(page: nat, n: nat): set<nat> {
    if n == 0 then {} else Entries(page, n - 1) + {Directory(page + n - 1)}
  }

  /** How many page tables n pages lack. */
  function Lacking(ts: map<nat, nat>, page: nat, n: nat): nat {
    |Entries(page, n) - ts.Keys|
  }

  lemma LackingNext(ts: map<nat, nat>, us: map<nat, nat>, page: nat, k: nat)
    requires us.Keys == ts.Keys + Entries(page, k)
    ensures Lacking(ts, page, 0) == 0 && Entries(page, 0) == {}
    ensures Entries(page, k + 1) == Entries(page, k) + {Directory(page + k)}
    ensures Lacking(ts, page, k + 1) == Lacking(ts, page, k) + TablesFor(us, Directory(page + k))
  {
    EntriesNext(page, k);
    assert {} - ts.Keys == {};
    hide Directory, Entries;
    OneEntryMore(Entries(page, k), ts.Keys, Directory(page + k));
  }

  lemma EntriesNext(page: nat, k: nat)
    ensures Entries(page, 0) == {} && Entries(page, k + 1) == Entries(page, k) + {Directory(page + k)}
  {
    assert page + (k + 1) - 1 == page + k;
    hide Directory;
  }

  lemma OneEntryMore(a: set<nat>, b: set<nat>, d: nat)
    ensures |a + {d} - b| == |a - b| + if d in b + a then 0 else 1
  {
    if d in b + a {
      assert a + {d} - b == a - b;
    } else {
      assert a + {d} - b == (a - b) + {d};
    }
  }

  /** Pages kmalloc must give for the store and the tables of n pages, the store's directory aside. */
  function PagesFor(ts: map<nat, nat>, page: nat, n: nat): nat {
    TableCount(n) + Lacking(ts, page, n)
  }

  /** A turn of createSharedObject's loop: it ends well exactly when there are frames and vacant pages enough. */
  lemma StoreTurnDone(l: Loop, g: K.Strategy, space: nat, page: nat, k: nat)
    requires K.Inv(l.h) && l.h.heap.taken != [] && space != K.KERNEL && Empty(l.h.mem, Slot(space, page + k))
    ensures K.Sound(l.h)
    ensures var cost := TablesFor(l.us, Directory(page + k)) + TableCount(k + 1) - TableCount(k);
      && (StoreTurn(l, g, space, page, k).Done? <==> 1 + cost <= |l.h.mem.free| && cost <= |VacantPages(l.h)|)
      && (StoreTurn(l, g, space, page, k).Done? ==>
            var r := StoreTurn(l, g, space, page, k).value;
            && K.Inv(r.h) && r.h.heap.taken != [] && r.us.Keys == l.us.Keys + {Directory(page + k)}
            && |r.h.mem.free| == |l.h.mem.free| - 1 - cost && |VacantPages(r.h)| == |VacantPages(l.h)| - cost)
  {
    KT.InvIsSound(l.h);
    TableCountStep(k);
    if l.h.mem.free != [] {
      var u := Slot(space, page + k);
      NotHeapSlot(u);
      KT.InvParts(l.h);
      KT.MapNewElsewhereKeeps(l.h, u, Base(page + k), PERM_WRITEABLE + PERM_USER);
      MapNewKeeps(l.h.mem, u, Base(page + k), PERM_WRITEABLE + PERM_USER);
      var t := l.(h := l.h.(mem := MapNew(l.h.mem, u, Base(page + k), PERM_WRITEABLE + PERM_USER)));
      SameVacant(l.h, t.h);
      EnsureTableDone(t, g, Directory(page + k));
      if EnsureTable(t, g, Directory(page + k)).Done? {
        PageDone(EnsureTable(t, g, Directory(page + k)).value.h, g);
      }
    }
    hide K.Inv, K.Sound, EnsureTable, TakePage, VacantPages, MapNew, TableCount, Directory, Exact, WellFormed, Empty;
  }

  lemma SameVacant(h: K.State, t: K.State)
    requires t.heap == h.heap
    ensures VacantPages(t) == VacantPages(h)
  {
  }

  lemma {:induction false} StoreLoopDone(h0: K.State, ts: map<nat, nat>, l: Loop, g: K.Strategy, space: nat, page: nat, k: nat, n: nat)
    requires Grown(h0, ts, l, 0) && l.h.heap.taken != [] && space != K.KERNEL && k <= n && Ahead(l.h.mem, space, page, 0, n)
    ensures K.Sound(l.h)
    ensures StoreLoop(l, g, space, page, k).Done? <==>
              k + PagesFor(l.us, page, k) <= |l.h.mem.free| && PagesFor(l.us, page, k) <= |VacantPages(l.h)|
    ensures StoreLoop(l, g, space, page, k).Done? ==>
              var r := StoreLoop(l, g, space, page, k).value;
              && r.us.Keys == l.us.Keys + Entries(page, k) && r.h.heap.taken != []
              && |r.h.mem.free| == |l.h.mem.free| - k - PagesFor(l.us, page, k)
              && |VacantPages(r.h)| == |VacantPages(l.h)| - PagesFor(l.us, page, k)
  {
    hide *;
    GrownInv(h0, ts, l, 0);
    KT.InvIsSound(l.h);
    PagesForIs(l.us, page, k);
    StoreLoopNext(l, g, space, page, if k == 0 then 0 else k - 1);
    if k == 0 {
      NothingFor(l.us, page);
    } else {
      var j := k - 1;
      StoreLoopDone(h0, ts, l, g, space, page, j, n);
      PagesForIs(l.us, page, j);
      LackingGrows(l.us, page, j);
      if StoreLoop(l, g, space, page, j).Done? {
        StoreLoopGrows(h0, ts, l, g, space, page, j, n);
        var t := StoreLoop(l, g, space, page, j).value;
        LackingNext(l.us, t.us, page, j);
        GrownInv(h0, ts, t, j);
        AheadFirst(t.h.mem, space, page, j, n);
        StoreTurnDone(t, g, space, page, j);
        assert l.us.Keys + Entries(page, j) + {Directory(page + j)} == l.us.Keys + (Entries(page, j) + {Directory(page + j)});
      }
    }
  }

  lemma NothingFor(ts: map<nat, nat>, page: nat)
    ensures TableCount(0) == 0 && Lacking(ts, page, 0) == 0 && ts.Keys + Entries(page, 0) == ts.Keys
  {
    assert {} - ts.Keys == {};
  }

  lemma PagesForIs(ts: map<nat, nat>, page: nat, n: nat)
    ensures PagesFor(ts, page, n) == TableCount(n) + Lacking(ts, page, n)
    ensures n > 0 ==> TableCount(n - 1) <= TableCount(n)
  {
  }

  lemma LackingGrows(ts: map<nat, nat>, page: nat, k: nat)
    ensures Lacking(ts, page, k) <= Lacking(ts, page, k + 1)
  {
    EntriesNext(page, k);
    hide Directory, Entries;
    OneEntryMore(Entries(page, k), ts.Keys, Directory(page + k));
  }

  /** From l to r the loop made the tables of k pages, on c pages and as many frames. */
  ghost predicate Spent(l: Loop, r: Loop, page: nat, k: nat, c: nat) {
    && r.us.Keys == l.us.Keys + Entries(page, k) && r.h.heap.taken != []
    && |r.h.mem.free| + c == |l.h.mem.free| && |VacantPages(r.h)| + c == |VacantPages(l.h)|
  }

  lemma SpentNone(l: Loop, page: nat)
    requires l.h.heap.taken != []
    ensures Spent(l, l, page, 0, 0) && Lacking(l.us, page, 0) == 0
  {
    NothingFor(l.us, page);
    hide VacantPages;
  }

  lemma SpentNext(l: Loop, t: Loop, r: Loop, page: nat, k: nat, c: nat)
    requires Spent(l, t, page, k, c) && r.h.heap.taken != [] && r.us.Keys == t.us.Keys + {Directory(page + k)}
    requires var n := TablesFor(t.us, Directory(page + k));
      |r.h.mem.free| == |t.h.mem.free| - n && |VacantPages(r.h)| == |VacantPages(t.h)| - n
    ensures Spent(l, r, page, k + 1, c + TablesFor(t.us, Directory(page + k)))
  {
    EntriesNext(page, k);
    hide VacantPages, Directory, Entries, TablesFor;
  }

  lemma SpentFacts(l: Loop, r: Loop, page: nat, k: nat, c: nat)
    requires Spent(l, r, page, k, c)
    ensures r.h.heap.taken != [] && |r.h.mem.free| + c == |l.h.mem.free| && |VacantPages(r.h)| + c == |VacantPages(l.h)|
    ensures c == Lacking(l.us, page, k) ==>
              Lacking(l.us, page, k + 1) == c + TablesFor(r.us, Directory(page + k))
  {
    LackingNext(l.us, r.us, page, k);
  }

  /** The loop of getSharedObject ends well exactly when there are frames and vacant pages enough for new tables. */
  lemma {:induction false} GetLoopDone(h0: K.State, ts: map<nat, nat>, l: Loop, g: K.Strategy, space: nat, page: nat, frames: seq<nat>, k: nat, perm: nat)
    requires Grown(h0, ts, l, 0) && l.h.heap.taken != [] && space != K.KERNEL && k <= |frames| && Ahead(l.h.mem, space, page, 0, |frames|)
    requires RR.NoRepeats(frames) && AreFrames(l.h.mem, frames) && Waiting(l.h.mem, frames, 0)
    ensures K.Sound(l.h)
    ensures var c := Lacking(l.us, page, k);
      && (GetLoop(l, g, space, page, frames, k, perm).Done? <==> c <= |l.h.mem.free| && c <= |VacantPages(l.h)|)
      && (GetLoop(l, g, space, page, frames, k, perm).Done? ==> Spent(l, GetLoop(l, g, space, page, frames, k, perm).value, page, k, c))
  {
    hide *;
    GrownInv(h0, ts, l, 0);
    KT.InvIsSound(l.h);
    GetLoopNext(l, g, space, page, frames, if k == 0 then 0 else k - 1, perm);
    if k == 0 {
      SpentNone(l, page);
    } else {
      GetLoopDone(h0, ts, l, g, space, page, frames, k - 1, perm);
      LackingGrows(l.us, page, k - 1);
      if GetLoop(l, g, space, page, frames, k - 1, perm).Done? {
        GetTurnSpent(h0, ts, l, g, space, page, frames, k - 1, perm);
      }
    }
  }

  lemma GetTurnSpent(h0: K.State, ts: map<nat, nat>, l: Loop, g: K.Strategy, space: nat, page: nat, frames: seq<nat>, k: nat, perm: nat)
    requires Grown(h0, ts, l, 0) && space != K.KERNEL && k < |frames| && Ahead(l.h.mem, space, page, 0, |frames|)
    requires RR.NoRepeats(frames) && AreFrames(l.h.mem, frames) && Waiting(l.h.mem, frames, 0)
    requires K.Sound(l.h) && GetLoop(l, g, space, page, frames, k, perm).Done?
    requires Spent(l, GetLoop(l, g, space, page, frames, k, perm).value, page, k, Lacking(l.us, page, k))
    ensures var c := Lacking(l.us, page, k + 1);
      && (GetLoop(l, g, space, page, frames, k + 1, perm).Done? <==> c <= |l.h.mem.free| && c <= |VacantPages(l.h)|)
      && (GetLoop(l, g, space, page, frames, k + 1, perm).Done? ==>
            Spent(l, GetLoop(l, g, space, page, frames, k + 1, perm).value, page, k + 1, c))
  {
    hide *;
    var t := GetLoop(l, g, space, page, frames, k, perm).value;
    SpentFacts(l, t, page, k, Lacking(l.us, page, k));
    GetLoopGrows(h0, ts, l, g, space, page, frames, k, perm);
    GetTurnDone(h0, ts, t, g, space, page, frames, k, perm);
    GetLoopStops(l, g, space, page, frames, k, perm);
    GetLoopNext(l, g, space, page, frames, k, perm);
    if GetLoop(l, g, space, page, frames, k + 1, perm).Done? {
      SpentNext(l, t, GetLoop(l, g, space, page, frames, k + 1, perm).value, page, k, Lacking(l.us, page, k));
    }
  }

  lemma GetTurnDone(h0: K.State, ts: map<nat, nat>, l: Loop, g: K.Strategy, space: nat, page: nat, frames: seq<nat>, k: nat, perm: nat)
    requires Grown(h0, ts, l, 0) && l.h.heap.taken != [] && space != K.KERNEL && k < |frames| && Ahead(l.h.mem, space, page, k, |frames|)
    requires RR.NoRepeats(frames) && Waiting(l.h.mem, frames, k)
    ensures K.Sound(l.h)
    ensures var n := TablesFor(l.us, Directory(page + k));
      && (EnsureTable(l, g, Directory(page + k)).Done? <==> n <= |l.h.mem.free| && n <= |VacantPages(l.h)|)
      && (EnsureTable(l, g, Directory(page + k)).Done? ==>
            var u := EnsureTable(l, g, Directory(page + k)).value;
            && WellFormed(u.h.mem) && frames[k] < |u.h.mem.refs|
            && var h := u.h.(mem := MapFrame(u.h.mem, Slot(space, page + k), frames[k], Base(page + k), perm));
            && u.us.Keys == l.us.Keys + {Directory(page + k)} && h.heap.taken != []
            && |h.mem.free| == |l.h.mem.free| - n && |VacantPages(h)| == |VacantPages(l.h)| - n)
  {
    hide *;
    GrownInv(h0, ts, l, 0);
    EnsureTableDone(l, g, Directory(page + k));
    if EnsureTable(l, g, Directory(page + k)).Done? {
      GetTurnGrows(h0, ts, l, g, space, page, frames, k, perm);
      var u := EnsureTable(l, g, Directory(page + k)).value;
      SameVacant(u.h, u.h.(mem := MapFrame(u.h.mem, Slot(space, page + k), frames[k], Base(page + k), perm)));
    }
  }

  lemma GetLoopStops(l: Loop, g: K.Strategy, space: nat, page: nat, frames: seq<nat>, k: nat, perm: nat)
    requires K.Sound(l.h) && AreFrames(l.h.mem, frames) && k < |frames| && GetLoop(l, g, space, page, frames, k, perm).Done?
    ensures var t := GetLoop(l, g, space, page, frames, k, perm).value;
      K.Sound(t.h) && (GetLoop(l, g, space, page, frames, k + 1, perm).Done? <==> EnsureTable(t, g, Directory(page + k)).Done?)
  {
    hide MapFrame, EnsureTable;
  }

  // ----- the order of map_frame -----

  /** Which page kmalloc gives does not depend on memory, as long as a frame is free. */
  lemma SamePage(h: K.State, m: Memory, g: K.Strategy)
    requires K.Sound(h) && WellFormed(m) && h.mem.free != [] && m.free != []
    ensures K.Sound(h.(mem := m))
    ensures var a, b := TakePage(h, g), TakePage(h.(mem := m), g);
      && (a.Done? <==> b.Done?)
      && (a.Done? ==> a.value.1 == b.value.1 && b.value.0 == a.value.0.(mem := TakeKernelPage(m, a.value.1)))
  {
    SoundWith(h, m);
    hide *;
    PageTaken(h, g);
    PageTaken(h.(mem := m), g);
    PageSizeIs();
    KmallocSame(h, m, g, PAGE_SIZE);
    TakePageFrom(h, g);
    TakePageFrom(h.(mem := m), g);
  }

  lemma PageSizeIs()
    ensures 0 < PAGE_SIZE < WORD
  {
  }

  lemma TakePageFrom(h: K.State, g: K.Strategy)
    requires K.Sound(h) && h.mem.free != [] && 0 <= PAGE_SIZE < WORD && K.EnoughFrames(h, PAGE_SIZE) && 0 < PAGE_SIZE
    requires K.KmallocStep(h, g, PAGE_SIZE).1.Address? ==> 0 <= K.KmallocStep(h, g, PAGE_SIZE).1.va
    ensures var (t, r) := K.KmallocStep(h, g, PAGE_SIZE);
      TakePage(h, g) == if r.Address? then Done((t, r.va / PAGE_SIZE)) else Stopped
  {
    hide K.KmallocStep, K.Sound, K.EnoughFrames;
  }

  lemma KmallocSame(h: K.State, m: Memory, g: K.Strategy, size: int)
    requires K.Sound(h) && K.Sound(h.(mem := m)) && 0 <= size < WORD && K.EnoughFrames(h, size) && K.EnoughFrames(h.(mem := m), size)
    ensures var (a, b) := (K.KmallocStep(h, g, size), K.KmallocStep(h.(mem := m), g, size));
      b.1 == a.1 && b.0 == a.0.(mem := b.0.mem)
  {
    hide WellFormed, MapNewRange, RoundUp, K.Choose, SortedPosition, Carve, With;
  }

  /**
   map_frame makes a missing table while the new frame waits.  Mapping first, as
   StoreTurn does, comes to the same: the same table, heap and memory.
   */
  lemma TableBeforeOrAfter(l: Loop, g: K.Strategy, d: nat, s: Slot, va: nat, perm: nat)
    requires K.Inv(l.h) && 1 + TablesFor(l.us, d) <= |l.h.mem.free| && Empty(l.h.mem, s) && s.space != K.KERNEL
    ensures WellFormed(l.h.mem) && l.h.mem.free[0] < |l.h.mem.refs| == |l.h.mem.va|
    ensures K.Sound(l.h.(mem := AllocateFrame(l.h.mem))) && K.Sound(l.h.(mem := MapNew(l.h.mem, s, va, perm)))
    ensures var before := EnsureTable(l.(h := l.h.(mem := AllocateFrame(l.h.mem))), g, d);
      var after := EnsureTable(l.(h := l.h.(mem := MapNew(l.h.mem, s, va, perm))), g, d);
      && (before.Done? <==> after.Done?)
      && (before.Done? ==>
            var t := before.value;
            && WellFormed(t.h.mem) && l.h.mem.free[0] < |t.h.mem.refs|
            && after.value == t.(h := t.h.(mem := MapFrame(t.h.mem, s, l.h.mem.free[0], va, perm))))
  {
    hide *;
    var h, m := l.h, l.h.mem;
    KT.InvParts(h);
    KT.InvIsSound(h);
    NothingMissing(d);
    TableWhilePending(m, map[], map[], d, s, va, perm);
    MapNewKeeps(m, s, va, perm);
    var a, n := AllocateFrame(m), MapNew(m, s, va, perm);
    FreeAfter(m);
    SoundWith(h, a);
    SoundWith(h, n);
    EnsureTableIs(l.(h := h.(mem := a)), g, d);
    EnsureTableIs(l.(h := h.(mem := n)), g, d);
    if d in l.us {
      NoTableMade(a, d);
      NoTableMade(n, d);
    } else {
      TablesForOne(l.us, d);
      assert a.free != [] && n.free != [];
      SamePage(h, a, g);
      SamePage(h, n, g);
      TakePageIs(h, g);
      if TakePage(h, g).Done? {
        var p := TakePage(h, g).value.1;
        OneMissing(a, n, d, p);
        TableWhilePending(m, map[], map[d := p], d, s, va, perm);
      }
    }
  }

  lemma NothingMissing(d: nat)
    ensures !Missing(map[], map[], d) && TableCost(map[], map[], d) == 0
  {
  }

  lemma TablesForOne(us: map<nat, nat>, d: nat)
    requires d !in us
    ensures TablesFor(us, d) == 1
  {
  }

  lemma FreeAfter(m: Memory)
    requires WellFormed(m) && m.free != [] && m.free[0] < |m.refs|
    ensures AllocateFrame(m).free == m.free[1..]
  {
  }

  lemma SoundWith(h: K.State, m: Memory)
    requires K.Sound(h) && WellFormed(m)
    ensures K.Sound(h.(mem := m))
  {
  }

  lemma NoTableMade(m: Memory, d: nat)
    requires WellFormed(m)
    ensures TableCost(map[], map[], d) <= |m.free| && MakeTable(m, map[], map[], d) == m
  {
  }

  lemma OneMissing(a: Memory, n: Memory, d: nat, p: nat)
    requires WellFormed(a) && WellFormed(n) && a.free != [] && n.free != []
    ensures Missing(map[], map[d := p], d) && map[d := p][d] == p && TableCost(map[], map[d := p], d) == 1
    ensures MakeTable(a, map[], map[d := p], d) == TakeKernelPage(a, p) && MakeTable(n, map[], map[d := p], d) == TakeKernelPage(n, p)
  {
    hide TakeKernelPage, WellFormed;
  }
}
