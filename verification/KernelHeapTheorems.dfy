/**
 What the kernel heap keeps over every run of first fit, next fit and kfree,
 interleaved with mappings the rest of the kernel makes.
 */
module KernelHeapTheorems {
  import RR = RoundRobin
  import opened Blocks
  import opened Tiling
  import opened BlockLists
  import opened Frames
  import opened FrameRanges
  import opened FrameTable
  import opened KernelHeapSpec

  // ----- descriptors never run out -----

  ghost function Below(n: nat): (s: set<nat>)
    ensures |s| == n && forall x: nat :: x in s <==> x < n
  {
    if n == 0 then {} else Below(n - 1) + {n - 1}
  }

  lemma {:induction false} ElementCount(q: seq<nat>)
    requires RR.NoRepeats(q)
    ensures |set x: nat | x in q| == |q|
  {
    if q != [] {
      var k := |q| - 1;
      ElementCount(q[..k]);
      assert q == q[..k] + [q[k]];
      assert (set x: nat | x in q) == (set x: nat | x in q[..k]) + {q[k]};
    }
  }

  lemma SubsetSize(a: set<nat>, b: set<nat>)
    requires a <= b
    ensures |a| <= |b|
  {
    assert b == a + (b - a);
  }

  lemma Pigeonhole(q: seq<nat>, n: nat)
    requires RR.NoRepeats(q) && forall x :: x in q ==> x < n
    ensures |q| <= n
  {
    ElementCount(q);
    SubsetSize((set x: nat | x in q), Below(n));
  }

  ghost function PageIndex(b: Block): nat {
    if KERNEL_HEAP_START <= b.start then (b.start - KERNEL_HEAP_START) / PAGE_SIZE else 0
  }

  lemma PageIndexApart(b: Block, c: Block)
    requires Aligned(b.start) && Aligned(c.start) && Apart(b, c) && 0 < b.size && 0 < c.size
    requires KERNEL_HEAP_START <= b.start && KERNEL_HEAP_START <= c.start
    ensures PageIndex(b) != PageIndex(c)
  {
  }

  lemma PlacedInHeap(h: Heap, b: Block)
    requires Tiles(h, KERNEL_HEAP_START, KERNEL_HEAP_MAX) && (b in h.free || b in h.taken)
    ensures Aligned(b.start) && 0 < b.size && KERNEL_HEAP_START <= b.start && b.End() <= KERNEL_HEAP_MAX
    ensures PageIndex(b) < 40959
  {
    if b in h.free {
      var i :| 0 <= i < |h.free| && h.free[i] == b;
      assert b.Has(b.start) && b.Has(b.End() - 1);
      assert Covered(h.free, b.start) && Covered(h.free, b.End() - 1);
    } else {
      var i :| 0 <= i < |h.taken| && h.taken[i] == b;
      assert b.Has(b.start) && b.Has(b.End() - 1);
      assert Covered(h.taken, b.start) && Covered(h.taken, b.End() - 1);
    }
  }

  lemma FreeTakenApart(h: Heap, lo: int, hi: int, i: nat, j: nat)
    requires Tiles(h, lo, hi)
    ensures i < j < |h.free| ==> Apart(h.free[i], h.free[j])
    ensures i < j < |h.taken| ==> Apart(h.taken[i], h.taken[j])
    ensures i < |h.free| && j < |h.taken| ==> Apart(h.free[i], h.taken[j])
  {
    assert j < |h.taken| ==> ApartFromAll(h.free, h.taken[j]);
  }

  /** The heap has 40959 pages and a million descriptors, so k_allocate_block never panics. */
  lemma DescriptorsSuffice(h: Heap)
    requires Tiles(h, KERNEL_HEAP_START, KERNEL_HEAP_MAX)
    ensures |h.free| + |h.taken| <= 40959
  {
    var all := h.free + h.taken;
    var n := |h.free|;
    var q := seq(|all|, i requires 0 <= i < |all| => PageIndex(all[i]));
    forall i, j | 0 <= i < j < |q|
      ensures q[i] != q[j]
    {
      PlacedInHeap(h, all[i]);
      PlacedInHeap(h, all[j]);
      if j < n {
        FreeTakenApart(h, KERNEL_HEAP_START, KERNEL_HEAP_MAX, i, j);
      } else if i < n {
        FreeTakenApart(h, KERNEL_HEAP_START, KERNEL_HEAP_MAX, i, j - n);
      } else {
        FreeTakenApart(h, KERNEL_HEAP_START, KERNEL_HEAP_MAX, i - n, j - n);
      }
      hide Tiles;
      PageIndexApart(all[i], all[j]);
    }
    forall x | x in q
      ensures x < 40959
    {
      var i :| 0 <= i < |q| && q[i] == x;
      PlacedInHeap(h, all[i]);
    }
    hide Tiles;
    Pigeonhole(q, 40959);
  }

  // ----- pages and blocks -----

  /** The pages of an aligned block are a range of slots. */
  lemma PagesOfBlock(b: Block, t: Slot)
    requires Aligned(b.start) && Aligned(b.size) && 0 <= b.start && 0 <= b.size && t.space == KERNEL
    ensures InRange(t, KERNEL, b.start / PAGE_SIZE, b.size / PAGE_SIZE) <==> b.Has(Base(t.page))
  {
  }

  lemma InvIsSound(s: State)
    requires Inv(s)
    ensures Sound(s)
  {
    forall i | 0 <= i < |s.heap.free|
      ensures 0 <= s.heap.free[i].start
    {
      PlacedInHeap(s.heap, s.heap.free[i]);
    }
    forall i | 0 <= i < |s.heap.taken|
      ensures 0 <= s.heap.taken[i].start && 0 <= s.heap.taken[i].size
    {
      PlacedInHeap(s.heap, s.heap.taken[i]);
    }
  }

  /** The front of a free block lies in the heap and none of its addresses is taken. */
  lemma FrontIsFree(h: Heap, i: nat, n: int, x: int)
    requires Tiles(h, KERNEL_HEAP_START, KERNEL_HEAP_MAX) && i < |h.free| && 0 < n <= h.free[i].size
    requires h.free[i].start <= x < h.free[i].start + n
    ensures KERNEL_HEAP_START <= x < KERNEL_HEAP_MAX && !Covered(h.taken, x)
  {
    assert h.free[i].Has(x);
    FreeOrTaken(h, KERNEL_HEAP_START, KERNEL_HEAP_MAX, x);
  }

  lemma FrontIsUnmapped(s: State, i: nat, n: int)
    requires Inv(s) && i < |s.heap.free| && 0 < n <= s.heap.free[i].size && Aligned(n)
    ensures Aligned(s.heap.free[i].start) && KERNEL_HEAP_START <= s.heap.free[i].start
    ensures Unmapped(s.mem, KERNEL, s.heap.free[i].start / PAGE_SIZE, n / PAGE_SIZE)
  {
    var b := Block(s.heap.free[i].start, n);
    PlacedInHeap(s.heap, s.heap.free[i]);
    hide Tiles, Exact;
    forall t: Slot | InRange(t, KERNEL, b.start / PAGE_SIZE, n / PAGE_SIZE)
      ensures Empty(s.mem, t)
    {
      PagesOfBlock(b, t);
      FrontIsFree(s.heap, i, n, Base(t.page));
    }
  }

  /** New frames behind a new taken block keep the heap backed, page by page. */
  lemma BackedAfterMap(s: State, b: Block, taken: seq<Block>, r: Memory)
    requires Exact(s.mem, {}) && WellFormed(s.mem) && Backed(s) && OwnFrame(s.mem)
    requires Aligned(b.start) && Aligned(b.size) && 0 <= b.start && 0 < b.size
    requires b.size / PAGE_SIZE <= |s.mem.free| && WellFormed(r)
    requires MappedNew(s.mem, r, KERNEL, b.start / PAGE_SIZE, b.size / PAGE_SIZE, PERM_WRITEABLE)
    requires Unmapped(s.mem, KERNEL, b.start / PAGE_SIZE, b.size / PAGE_SIZE)
    requires forall x :: Covered(taken, x) <==> Covered(s.heap.taken, x) || b.Has(x)
    ensures Backed(s.(heap := s.heap.(taken := taken), mem := r)) && OwnFrame(r) && (Remembered(s.mem) ==> Remembered(r))
  {
    forall t: Slot | HeapSlot(t)
      ensures t in r.ptes <==> Covered(taken, Base(t.page))
    {
      PagesOfBlock(b, t);
    }
    OwnFrameAfterMap(s.mem, r, b.start / PAGE_SIZE, b.size / PAGE_SIZE);
  }

  /** The frame of a page after MapNewRange: a new one inside the range, the old one outside. */
  lemma FrameAfterMap(m: Memory, r: Memory, page: nat, n: nat, t: Slot)
    requires Exact(m, {}) && WellFormed(m) && WellFormed(r) && n <= |m.free| && MappedNew(m, r, KERNEL, page, n, PERM_WRITEABLE)
    requires t in r.ptes && Unmapped(m, KERNEL, page, n)
    ensures InRange(t, KERNEL, page, n) ==>
              r.ptes[t].frame == m.free[t.page - page] && r.va[r.ptes[t].frame] == Base(t.page)
    ensures !InRange(t, KERNEL, page, n) ==>
              t in m.ptes && r.ptes[t] == m.ptes[t] && m.ptes[t].frame !in m.free
              && r.va[m.ptes[t].frame] == m.va[m.ptes[t].frame]
  {
    if InRange(t, KERNEL, page, n) {
      var i: nat := t.page - page;
      assert t == Slot(KERNEL, page + i);
      assert m.free[i] in m.free;
    } else {
      assert t in m.ptes;
      var f := m.ptes[t].frame;
      assert t in Mapping(m, f);
      assert f !in m.free;
      assert forall x: nat :: x in m.free[..n] ==> x in m.free;
    }
  }

  lemma OwnFrameAfterMap(m: Memory, r: Memory, page: nat, n: nat)
    requires Exact(m, {}) && WellFormed(m) && WellFormed(r) && n <= |m.free| && MappedNew(m, r, KERNEL, page, n, PERM_WRITEABLE)
    requires Unmapped(m, KERNEL, page, n) && OwnFrame(m)
    ensures OwnFrame(r) && (Remembered(m) ==> Remembered(r))
  {
    forall t: Slot | HeapSlot(t) && t in r.ptes && Remembered(m)
      ensures Remembers(r, t)
    {
      FrameAfterMap(m, r, page, n, t);
    }
    assert RR.NoRepeats(m.free);
    forall t: Slot, u: Slot | HeapSlot(t) && HeapSlot(u) && t in r.ptes && u in r.ptes && t != u
      ensures r.ptes[t].frame != r.ptes[u].frame
    {
      FrameAfterMap(m, r, page, n, t);
      FrameAfterMap(m, r, page, n, u);
      hide MappedNew, Exact, Unmapped;
      if InRange(t, KERNEL, page, n) && InRange(u, KERNEL, page, n) {
        assert t.page != u.page;
      }
    }
  }

  // ----- kmalloc -----

  lemma ChosenFits(strategy: Strategy, h: Heap, n: int, last: int)
    requires Tiles(h, KERNEL_HEAP_START, KERNEL_HEAP_MAX) && 0 < n
    ensures var i := Choose(strategy, h.free, n, last);
      if i == |h.free| then forall a :: !Vacant(h.taken, KERNEL_HEAP_START, KERNEL_HEAP_MAX, a, n)
      else n <= h.free[i].size && Placed(strategy, h.taken, n, last, h.free[i].start)
  {
    FirstFitIsLowest(h, KERNEL_HEAP_START, KERNEL_HEAP_MAX, n);
    NextFitIsNext(h, KERNEL_HEAP_START, KERNEL_HEAP_MAX, n, last);
    hide Tiles, FirstFit, FitFrom;
  }

  /** Where each strategy must put a block of n bytes, said in terms of addresses only. */
  ghost predicate Placed(strategy: Strategy, taken: seq<Block>, n: int, last: int, a: int) {
    if strategy.NextFitStrategy? &&
       exists b :: last <= b && RunStart(taken, KERNEL_HEAP_START, KERNEL_HEAP_MAX, b, n)
    then
      && last <= a && RunStart(taken, KERNEL_HEAP_START, KERNEL_HEAP_MAX, a, n)
      && forall b :: last <= b && RunStart(taken, KERNEL_HEAP_START, KERNEL_HEAP_MAX, b, n) ==> a <= b
    else LowestVacant(taken, KERNEL_HEAP_START, KERNEL_HEAP_MAX, a, n)
  }

  lemma AllocateInv(s: State, i: nat, n: int, k: nat, last: int)
    requires Inv(s) && i < |s.heap.free| && k <= |s.heap.taken| && 0 < n <= s.heap.free[i].size && Aligned(n)
    requires n / PAGE_SIZE <= |s.mem.free|
    requires 0 < s.spare + if s.heap.free[i].size == n then 1 else 0
    ensures WellFormed(s.mem) && 0 <= s.heap.free[i].start
    ensures Inv(State(Allocate(s.heap, i, n, k), s.spare - 1 + if s.heap.free[i].size == n then 1 else 0,
                      MapNewRange(s.mem, KERNEL, s.heap.free[i].start / PAGE_SIZE, n / PAGE_SIZE, PERM_WRITEABLE), last))
    ensures |MapNewRange(s.mem, KERNEL, s.heap.free[i].start / PAGE_SIZE, n / PAGE_SIZE, PERM_WRITEABLE).free|
            == |s.mem.free| - n / PAGE_SIZE
  {
    var b := Block(s.heap.free[i].start, n);
    var page, pages := b.start / PAGE_SIZE, n / PAGE_SIZE;
    var taken := With(s.heap.taken, k, b);
    FrontIsUnmapped(s, i, n);
    CarveLength(s.heap.free, i, n);
    assert Allocate(s.heap, i, n, k) == Heap(Carve(s.heap.free, i, n), taken) && 0 <= b.start;
    InvParts(s);
    hide *;
    AllocateTiles(s.heap, KERNEL_HEAP_START, KERNEL_HEAP_MAX, i, n, k);
    MapNewRangeKeeps(s.mem, KERNEL, page, pages, PERM_WRITEABLE);
    var r := MapNewRange(s.mem, KERNEL, page, pages, PERM_WRITEABLE);
    MappedNewFree(s.mem, r, KERNEL, page, pages, PERM_WRITEABLE);
    forall x
      ensures Covered(taken, x) <==> Covered(s.heap.taken, x) || b.Has(x)
    {
      WithCover(s.heap.taken, k, b, x);
    }
    BackedAfterMap(s, b, taken, r);
    BackedSame(s, taken, r, Allocate(s.heap, i, n, k), last);
    InvFrom(State(Allocate(s.heap, i, n, k), s.spare - 1 + if s.heap.free[i].size == n then 1 else 0, r, last));
  }

  lemma InvParts(s: State)
    requires Inv(s)
    ensures Tiles(s.heap, KERNEL_HEAP_START, KERNEL_HEAP_MAX)
    ensures |s.heap.free| + |s.heap.taken| + s.spare == MAX_NUMBER_OF_BLOCKS
    ensures Exact(s.mem, {}) && WellFormed(s.mem) && Backed(s) && OwnFrame(s.mem) && Clear(s.mem)
  {
  }

  lemma InvFrom(s: State)
    requires Tiles(s.heap, KERNEL_HEAP_START, KERNEL_HEAP_MAX)
    requires |s.heap.free| + |s.heap.taken| + s.spare == MAX_NUMBER_OF_BLOCKS
    requires Exact(s.mem, {}) && WellFormed(s.mem) && Backed(s) && OwnFrame(s.mem) && Clear(s.mem)
    ensures Inv(s)
  {
  }

  lemma CarveLength(bs: seq<Block>, i: nat, n: int)
    requires i < |bs|
    ensures |Carve(bs, i, n)| == |bs| - if bs[i].size == n then 1 else 0
  {
  }

  lemma MappedNewFree(m: Memory, r: Memory, space: nat, page: nat, n: nat, perm: nat)
    requires WellFormed(m) && WellFormed(r) && n <= |m.free| && MappedNew(m, r, space, page, n, perm)
    ensures r.free == m.free[n..]
  {
  }

  lemma BackedSame(s: State, taken: seq<Block>, r: Memory, h: Heap, last: int)
    requires Backed(s.(heap := s.heap.(taken := taken), mem := r)) && h.taken == taken
    ensures forall spare :: Backed(State(h, spare, r, last))
  {
  }

  /**
   kmalloc under either strategy: an address is where the strategy must place
   the block, one frame goes behind each page, and the invariant survives; null
   means nothing fits.  The descriptor pool never runs out, and the call faults
   exactly when first fit would serve a heap with nothing taken.
   */
  lemma KmallocKeeps(s: State, strategy: Strategy, size: int)
    requires Inv(s) && 0 < size <= WORD - PAGE_SIZE && EnoughFrames(s, size)
    ensures Sound(s)
    ensures var (t, r) := KmallocStep(s, strategy, size);
      var n := RoundUp(size);
      match r {
        case Address(a) =>
          && Inv(t) && Aligned(a) && Placed(strategy, s.heap.taken, n, s.last, a)
          && multiset(t.heap.taken) == multiset(s.heap.taken) + multiset{Block(a, n)}
          && |t.mem.free| == |s.mem.free| - n / PAGE_SIZE
        case Null => t == s && forall a :: !Vacant(s.heap.taken, 0xF600_0000, 0xFFFF_F000, a, n)
        case NoDescriptor => false
        case Fault => true
      }
    ensures KmallocStep(s, strategy, size).1.Fault? <==>
              strategy.FirstFitStrategy? && s.heap.taken == [] &&
              exists a :: Vacant(s.heap.taken, 0xF600_0000, 0xFFFF_F000, a, RoundUp(size))
  {
    InvIsSound(s);
    var n := RoundUp(size);
    var i := Choose(strategy, s.heap.free, n, s.last);
    DescriptorsSuffice(s.heap);
    ChosenFits(strategy, s.heap, n, s.last);
    if i < |s.heap.free| {
      assert s.spare > 0;
      var b := s.heap.free[i];
      FrontIsUnmapped(s, i, n);
      if strategy.NextFitStrategy? || s.heap.taken != [] {
        var k := if strategy.FirstFitStrategy? then SortedPosition(s.heap.taken, b.start) else 0;
        var last := if strategy.FirstFitStrategy? then (s.last + n) % WORD else b.start;
        hide Inv, Tiles, Exact, Backed, Choose, Placed, SortedPosition, MapNewRange, RoundUp;
        AllocateInv(s, i, n, k, last);
        WithMultiset(s.heap.taken, k, Block(b.start, n));
      }
    }
  }

  lemma WithMultiset<T>(s: seq<T>, k: nat, x: T)
    requires k <= |s|
    ensures multiset(With(s, k, x)) == multiset(s) + multiset{x}
  {
    assert s == s[..k] + s[k..];
  }

  // ----- kfree -----

  lemma TakenIsMapped(s: State, j: nat)
    requires Inv(s) && j < |s.heap.taken|
    ensures var b := s.heap.taken[j];
      && Aligned(b.start) && Aligned(b.size) && 0 <= b.start && 0 < b.size
      && OwnFrames(s.mem, KERNEL, b.start / PAGE_SIZE, b.size / PAGE_SIZE)
      && forall t: Slot :: InRange(t, KERNEL, b.start / PAGE_SIZE, b.size / PAGE_SIZE) ==> HeapSlot(t)
  {
    var b := s.heap.taken[j];
    PlacedInHeap(s.heap, b);
    assert Aligned(b.size);
    hide Tiles, Exact;
    forall t: Slot | InRange(t, KERNEL, b.start / PAGE_SIZE, b.size / PAGE_SIZE)
      ensures HeapSlot(t) && t in s.mem.ptes
    {
      PagesOfBlock(b, t);
      assert s.heap.taken[j].Has(Base(t.page));
      assert Covered(s.heap.taken, Base(t.page));
    }
  }

  lemma OwnFrameAfterUnmap(m: Memory, r: Memory, page: nat, n: nat)
    requires WellFormed(m) && WellFormed(r) && Released(m, r, KERNEL, page, n) && OwnFrame(m)
    ensures OwnFrame(r)
  {
    hide WellFormed, InRange, HeapSlot;
  }

  lemma BackedAfterUnmap(s: State, r: Memory, j: nat)
    requires Inv(s) && j < |s.heap.taken| && WellFormed(r)
    requires var b := s.heap.taken[j];
      0 <= b.start && 0 <= b.size && Released(s.mem, r, KERNEL, b.start / PAGE_SIZE, b.size / PAGE_SIZE)
    ensures forall t: Slot :: HeapSlot(t) ==>
              (t in r.ptes <==> Covered(Without(s.heap.taken, j), Base(t.page)))
  {
    var b := s.heap.taken[j];
    TakenIsMapped(s, j);
    assert PairwiseApart(s.heap.taken);
    hide Tiles, Exact;
    forall t: Slot | HeapSlot(t)
      ensures t in r.ptes <==> Covered(Without(s.heap.taken, j), Base(t.page))
    {
      PagesOfBlock(b, t);
      TakenCoverWithout(s.heap.taken, j, Base(t.page));
    }
  }

  lemma ReleaseInv(s: State, j: nat, last: int)
    requires Inv(s) && j < |s.heap.taken| && |s.heap.free| > 0
    ensures var b := s.heap.taken[j];
      var h := Release(s.heap, j);
      && 0 <= b.start && 0 < b.size && WellFormed(s.mem)
      && var mem := UnmapRange(s.mem, KERNEL, b.start / PAGE_SIZE, b.size / PAGE_SIZE);
      && 0 <= s.spare + 1 + |s.heap.free| - |h.free|
      && Inv(State(h, s.spare + 1 + |s.heap.free| - |h.free|, mem, last))
      && Released(s.mem, mem, KERNEL, b.start / PAGE_SIZE, b.size / PAGE_SIZE)
  {
    InvParts(s);
    TakenIsMapped(s, j);
    hide *;
    var b := s.heap.taken[j];
    UnmapRangeKeeps(s.mem, KERNEL, b.start / PAGE_SIZE, b.size / PAGE_SIZE);
    var mem := UnmapRange(s.mem, KERNEL, b.start / PAGE_SIZE, b.size / PAGE_SIZE);
    ReleaseTiles(s.heap, KERNEL_HEAP_START, KERNEL_HEAP_MAX, j);
    ReleaseLengths(s.heap, j);
    OwnFrameAfterUnmap(s.mem, mem, b.start / PAGE_SIZE, b.size / PAGE_SIZE);
    ReleasedIsClear(s.mem, mem, b.start / PAGE_SIZE, b.size / PAGE_SIZE);
    BackedAfterUnmap(s, mem, j);
    var h := Release(s.heap, j);
    var r := State(h, s.spare + 1 + |s.heap.free| - |h.free|, mem, last);
    BackedBy(r);
    InvFrom(r);
  }

  lemma BackedBy(s: State)
    requires forall t: Slot :: HeapSlot(t) ==> (t in s.mem.ptes <==> Covered(s.heap.taken, Base(t.page)))
    ensures Backed(s)
  {
  }

  lemma ReleasedIsClear(m: Memory, r: Memory, page: nat, n: nat)
    requires WellFormed(m) && WellFormed(r) && Released(m, r, KERNEL, page, n) && Clear(m)
    ensures Clear(r)
  {
    hide WellFormed, InRange, HeapSlot, Names, Singles;
  }

  lemma ReleaseLengths(h: Heap, j: nat)
    requires j < |h.taken|
    ensures |Release(h, j).free| <= |h.free| + 1 && |Release(h, j).taken| == |h.taken| - 1
    ensures Release(h, j).taken == Without(h.taken, j)
  {
    MergeLength(h.free, h.taken[j]);
    hide Merge;
  }

  lemma MergeLength(bs: seq<Block>, b: Block)
    ensures |Merge(bs, b)| <= |bs| + 1
  {
  }

  /** No page of the block is mapped anywhere else, but for entries from booting. */
  ghost predicate Unshared(s: State, b: Block)
    requires WellFormed(s.mem)
  {
    forall t: Slot :: HeapSlot(t) && t in s.mem.ptes && b.Has(Base(t.page)) ==> s.mem.refs[s.mem.ptes[t].frame] == 1
  }

  /**
   kfree keeps the invariant under either strategy, and gives back all
   size / PAGE_SIZE frames exactly when map_frame mapped no page of the
   block elsewhere as well.  It faults exactly when the address is taken and the free list is empty.
   */
  lemma KfreeKeeps(s: State, strategy: Strategy, va: int)
    requires Inv(s)
    ensures Sound(s)
    ensures var (t, r) := KfreeStep(s, strategy, va);
      && (r == NotFound <==> forall i :: 0 <= i < |s.heap.taken| ==> s.heap.taken[i].start != va)
      && (r.Fault? <==> r != NotFound && s.heap.free == [])
      && (!r.Fault? ==> Inv(t))
      && (r.Freed? ==>
            && multiset(s.heap.taken) == multiset(t.heap.taken) + multiset{Block(va, r.size)}
            && |s.mem.free| <= |t.mem.free| <= |s.mem.free| + r.size / PAGE_SIZE
            && (|t.mem.free| == |s.mem.free| + r.size / PAGE_SIZE <==> Unshared(s, Block(va, r.size))))
  {
    InvIsSound(s);
    var j := TakenAt(s.heap.taken, va);
    if j < |s.heap.taken| && |s.heap.free| > 0 {
      var b := s.heap.taken[j];
      var page, n := b.start / PAGE_SIZE, b.size / PAGE_SIZE;
      ReleaseInv(s, j, CursorAfterFree(strategy, s.heap.free, b, s.last));
      WithoutMultiset(s.heap.taken, j);
      TakenIsMapped(s, j);
      UnsharedRange(s, j);
      AllSingles(s.mem, KERNEL, page, n);
      hide Inv, Tiles, UnmapRange, Merge, OwnFrames;
    }
  }

  lemma UnsharedRange(s: State, j: nat)
    requires Inv(s) && j < |s.heap.taken|
    ensures var b := s.heap.taken[j];
      && 0 <= b.start && 0 <= b.size
      && (forall t: Slot :: InRange(t, KERNEL, b.start / PAGE_SIZE, b.size / PAGE_SIZE) ==> t in s.mem.ptes)
      && (Unshared(s, b) <==>
            forall t: Slot :: InRange(t, KERNEL, b.start / PAGE_SIZE, b.size / PAGE_SIZE) ==>
              t in s.mem.ptes && s.mem.refs[s.mem.ptes[t].frame] == 1)
  {
    TakenIsMapped(s, j);
    var b := s.heap.taken[j];
    forall t: Slot | t.space == KERNEL
      ensures InRange(t, KERNEL, b.start / PAGE_SIZE, b.size / PAGE_SIZE) <==> b.Has(Base(t.page))
    {
      PagesOfBlock(b, t);
    }
    hide InRange, Tiles, Exact, Backed;
  }

  // ----- mappings made by the rest of the kernel -----

  /** f is behind a page of the kernel heap. */
  ghost predicate HeapFrame(m: Memory, f: nat) {
    exists t: Slot :: HeapSlot(t) && t in m.ptes && m.ptes[t].frame == f
  }

  /** The two memories agree on the heap's page-table entries. */
  ghost predicate SameHeapEntries(m: Memory, r: Memory) {
    && r.boot == m.boot
    && (forall t: Slot :: HeapSlot(t) ==> (t in r.ptes <==> t in m.ptes))
    && (forall t: Slot :: HeapSlot(t) && t in m.ptes && t in r.ptes ==> r.ptes[t] == m.ptes[t])
  }

  /** The heap's entries are the same, and their frames remember the same. */
  ghost predicate SameHeapPages(m: Memory, r: Memory)
    requires WellFormed(m) && WellFormed(r)
  {
    && SameHeapEntries(m, r) && |r.va| == |m.va|
    && (forall t: Slot :: HeapSlot(t) && t in m.ptes ==> r.va[m.ptes[t].frame] == m.va[m.ptes[t].frame])
  }

  lemma SameHeapEntriesKeep(s: State, r: Memory)
    requires Inv(s) && WellFormed(r) && Exact(r, {}) && SameHeapEntries(s.mem, r)
    ensures Inv(s.(mem := r))
  {
    hide Tiles, Exact, HeapSlot;
  }

  lemma SameHeapPagesFacts(m: Memory, r: Memory)
    requires WellFormed(m) && WellFormed(r) && SameHeapPages(m, r)
    ensures SameHeapEntries(m, r)
  {
  }

  lemma UnmapSamePages(m: Memory, u: Slot)
    requires Exact(m, {}) && WellFormed(m) && !HeapSlot(u) && u !in m.boot
    ensures SameHeapPages(m, UnmapFrame(m, u))
  {
    var r := UnmapFrame(m, u);
    if u in m.ptes {
      UnmapIs(m, u);
      hide HeapSlot, UnmapFrame;
      forall t: Slot | HeapSlot(t) && t in m.ptes
        ensures t in r.ptes && r.ptes[t] == m.ptes[t] && r.va[m.ptes[t].frame] == m.va[m.ptes[t].frame]
      {
        MappedCounts(r, t);
      }
    }
  }

  /** Unmapping any page outside the heap leaves the heap intact. */
  lemma UnmapElsewhereKeeps(s: State, u: Slot)
    requires Inv(s) && !HeapSlot(u) && u !in s.mem.boot
    ensures SameHeapPages(s.mem, UnmapFrame(s.mem, u)) && Inv(s.(mem := UnmapFrame(s.mem, u)))
  {
    InvParts(s);
    hide *;
    UnmapKeeps(s.mem, {}, u);
    UnmapSamePages(s.mem, u);
    SameHeapPagesFacts(s.mem, UnmapFrame(s.mem, u));
    SameHeapEntriesKeep(s, UnmapFrame(s.mem, u));
  }

  lemma EnterElsewhere(m: Memory, u: Slot, f: nat, va: nat, perm: nat)
    requires WellFormed(m) && f < |m.refs| && !HeapSlot(u) && u !in m.boot
    ensures WellFormed(Enter(m, u, f, va, perm)) && SameHeapEntries(m, Enter(m, u, f, va, perm))
    ensures forall g: nat :: g < |m.va| ==> Enter(m, u, f, va, perm).va[g] == if g == f then va else m.va[g]
    ensures !HeapFrame(m, f) ==> SameHeapPages(m, Enter(m, u, f, va, perm))
  {
  }

  lemma UnmapRefs(m: Memory, u: Slot, f: nat)
    requires Exact(m, {}) && WellFormed(m) && f < |m.refs| && u !in m.boot
    ensures var n := UnmapFrame(m, u);
      && |n.refs| == |m.refs| && |n.va| == |m.va|
      && (!EntryNames(m, u, f) ==> n.refs[f] == m.refs[f])
  {
    if u in m.ptes {
      UnmapIs(m, u);
      hide Exact, UnmapFrame, WellFormed;
    }
  }

  lemma MapFrameIs(m: Memory, u: Slot, f: nat, va: nat, perm: nat)
    requires Exact(m, {}) && WellFormed(m) && f < |m.refs| && m.refs[f] + 1 < COUNT_LIMIT && u !in m.boot
    ensures var n := UnmapFrame(m, u);
      && |n.refs| == |m.refs| && |n.va| == |m.va|
      && MapFrame(m, u, f, va, perm) == if Enters(m, u, f) then Enter(n, u, f, va, perm) else m
    ensures var r := MapFrame(m, u, f, va, perm);
      && |r.refs| == |m.refs| && u in r.ptes && r.ptes[u].frame == f
      && r.refs[f] == m.refs[f] + if Enters(m, u, f) then 1 else 0
  {
    UnmapRefs(m, u, f);
    hide Exact, UnmapFrame, WellFormed;
  }

  lemma SameEntries(m: Memory)
    ensures SameHeapEntries(m, m)
  {
  }

  lemma SameLengths(m: Memory, r: Memory)
    requires WellFormed(m) && WellFormed(r) && |r.refs| == |m.refs|
    ensures |r.va| == |m.va|
  {
  }

  lemma FrameExists(m: Memory, t: Slot)
    requires WellFormed(m) && t in m.ptes
    ensures m.ptes[t].frame < |m.refs| == |m.va|
  {
  }

  lemma EntriesTransitive(m: Memory, a: Memory, r: Memory)
    requires SameHeapEntries(m, a) && SameHeapEntries(a, r)
    ensures SameHeapEntries(m, r)
  {
    hide HeapSlot;
  }

  lemma SameVa(m: Memory, r: Memory, t: Slot)
    requires WellFormed(m) && WellFormed(r) && SameHeapPages(m, r) && HeapSlot(t) && t in m.ptes
    ensures m.ptes[t].frame < |m.va| == |r.va| && r.va[m.ptes[t].frame] == m.va[m.ptes[t].frame]
  {
  }

  /** map_frame does something, unless the slot already has the frame. */
  predicate Enters(m: Memory, u: Slot, f: nat) {
    !EntryNames(m, u, f)
  }

  /**
   Mapping any frame in use outside the heap, a heap frame too, leaves the
   heap's entries intact; the frame, if the heap has it, remembers the new
   place from now on.
   */
  lemma MapElsewhereKeeps(s: State, u: Slot, f: nat, va: nat, perm: nat)
    requires Inv(s) && !HeapSlot(u) && u !in s.mem.boot && Allocatable(s.mem, f) && 0 < s.mem.refs[f] < COUNT_LIMIT - 1
    ensures WellFormed(s.mem)
    ensures var r := MapFrame(s.mem, u, f, va, perm);
      && Inv(s.(mem := r)) && SameHeapEntries(s.mem, r) && |r.va| == |s.mem.va|
      && forall t: Slot :: HeapSlot(t) && t in s.mem.ptes ==>
           var g := s.mem.ptes[t].frame;
           r.va[g] == if g == f && Enters(s.mem, u, f) then va else s.mem.va[g]
  {
    assert {} - {f} == {} && f < |s.mem.refs|;
    InvParts(s);
    hide *;
    var r := MapFrame(s.mem, u, f, va, perm);
    MapKeepsIff(s.mem, {}, u, f, va, perm);
    MapFrameIs(s.mem, u, f, va, perm);
    var m := UnmapFrame(s.mem, u);
    SameEntries(s.mem);
    if Enters(s.mem, u, f) {
      UnmapSamePages(s.mem, u);
      UnmapKeeps(s.mem, {}, u);
      SameHeapPagesFacts(s.mem, m);
      EnterElsewhere(m, u, f, va, perm);
      EntriesTransitive(s.mem, m, r);
    }
    forall t: Slot | HeapSlot(t) && t in s.mem.ptes
      ensures s.mem.ptes[t].frame < |s.mem.va| == |r.va|
      ensures r.va[s.mem.ptes[t].frame] ==
                if s.mem.ptes[t].frame == f && Enters(s.mem, u, f) then va else s.mem.va[s.mem.ptes[t].frame]
    {
      FrameExists(s.mem, t);
      if Enters(s.mem, u, f) {
        SameVa(s.mem, m, t);
      }
    }
    SameLengths(s.mem, r);
    SameHeapEntriesKeep(s, r);
  }

  lemma FreeIsNotHeap(m: Memory)
    requires Exact(m, {}) && m.free != []
    ensures !HeapFrame(m, m.free[0])
  {
    assert m.free[0] in m.free;
    assert forall t: Slot :: t in m.ptes && m.ptes[t].frame == m.free[0] ==> t in Mapping(m, m.free[0]);
  }

  lemma AllocateSameHeapPages(m: Memory)
    requires Exact(m, {}) && WellFormed(m) && m.free != [] && m.free[0] < |m.refs|
    ensures WellFormed(AllocateFrame(m)) && SameHeapPages(m, AllocateFrame(m)) && !HeapFrame(AllocateFrame(m), m.free[0])
  {
    FreeIsNotHeap(m);
    assert forall t: Slot :: HeapSlot(t) && t in m.ptes ==> m.ptes[t].frame != m.free[0];
    assert forall f :: f in m.free[1..] ==> f in m.free;
  }

  lemma SameHeapPagesTransitive(m: Memory, a: Memory, r: Memory)
    requires WellFormed(m) && WellFormed(a) && WellFormed(r) && SameHeapPages(m, a) && SameHeapPages(a, r)
    ensures SameHeapPages(m, r)
  {
    hide WellFormed, HeapSlot;
  }

  /** A new frame mapped outside the heap leaves the heap intact. */
  lemma MapNewElsewhereKeeps(s: State, u: Slot, va: nat, perm: nat)
    requires Inv(s) && !HeapSlot(u) && s.mem.free != [] && Empty(s.mem, u)
    ensures WellFormed(s.mem) && Inv(s.(mem := MapNew(s.mem, u, va, perm)))
    ensures SameHeapPages(s.mem, MapNew(s.mem, u, va, perm))
  {
    var f := s.mem.free[0];
    MapNewKeeps(s.mem, u, va, perm);
    AllocateSameHeapPages(s.mem);
    var a := AllocateFrame(s.mem);
    EnterElsewhere(a, u, f, va, perm);
    assert MapNew(s.mem, u, va, perm) == Enter(a, u, f, va, perm);
    SameHeapPagesTransitive(s.mem, a, Enter(a, u, f, va, perm));
    hide *;
    SameHeapPagesFacts(s.mem, Enter(a, u, f, va, perm));
    SameHeapEntriesKeep(s, Enter(a, u, f, va, perm));
  }

  lemma FrameAllocatable(m: Memory, t: Slot)
    requires Exact(m, {}) && t in m.ptes
    ensures Allocatable(m, m.ptes[t].frame) && m.ptes[t].frame < |m.refs|
  {
  }

  /** The only slot of a frame is not another one. */
  lemma NewEnters(m: Memory, u: Slot, t: Slot)
    requires Exact(m, {}) && t in m.ptes && m.ptes[t].frame < |m.refs| && m.refs[m.ptes[t].frame] == 1
    requires HeapSlot(t) && !HeapSlot(u) && u !in m.boot
    ensures Enters(m, u, m.ptes[t].frame)
  {
    if u in m.ptes && m.ptes[u].frame == m.ptes[t].frame {
      TwoSlots(m, t, u);
    }
  }

  lemma SameEntriesAt(m: Memory, r: Memory, t: Slot)
    requires SameHeapEntries(m, r) && HeapSlot(t) && t in m.ptes
    ensures t in r.ptes && r.ptes[t] == m.ptes[t]
  {
  }

  // ----- translation -----

  /** kheap_physical_address of a mapped address. */
  function PhysicalAddress(m: Memory, va: nat): nat
    requires Slot(KERNEL, va / PAGE_SIZE) in m.ptes
  {
    m.ptes[Slot(KERNEL, va / PAGE_SIZE)].frame * PAGE_SIZE + va % PAGE_SIZE
  }

  /** kheap_virtual_address: the page the frame last was mapped at. */
  function VirtualAddress(m: Memory, pa: nat): nat
    requires pa / PAGE_SIZE < |m.va|
  {
    m.va[pa / PAGE_SIZE] + pa % PAGE_SIZE
  }

  /** The page offset cancels: what matters is the page the frame remembers. */
  lemma TranslatesBack(m: Memory, va: nat)
    requires WellFormed(m) && Slot(KERNEL, va / PAGE_SIZE) in m.ptes
    ensures PhysicalAddress(m, va) / PAGE_SIZE == m.ptes[Slot(KERNEL, va / PAGE_SIZE)].frame < |m.va|
    ensures VirtualAddress(m, PhysicalAddress(m, va)) ==
            m.va[m.ptes[Slot(KERNEL, va / PAGE_SIZE)].frame] + va % PAGE_SIZE
    ensures va == Base(va / PAGE_SIZE) + va % PAGE_SIZE
  {
    var f := m.ptes[Slot(KERNEL, va / PAGE_SIZE)].frame;
    assert PhysicalAddress(m, va) / PAGE_SIZE == f && PhysicalAddress(m, va) % PAGE_SIZE == va % PAGE_SIZE;
  }

  lemma TakenByteIsMapped(s: State, va: nat)
    requires Inv(s) && Covered(s.heap.taken, va)
    ensures HeapSlot(Slot(KERNEL, va / PAGE_SIZE)) && Slot(KERNEL, va / PAGE_SIZE) in s.mem.ptes
  {
    var t := Slot(KERNEL, va / PAGE_SIZE);
    var i :| 0 <= i < |s.heap.taken| && s.heap.taken[i].Has(va);
    var b := s.heap.taken[i];
    PlacedInHeap(s.heap, b);
    assert Aligned(b.size);
    PageHasByte(b, va);
    assert b.Has(Base(t.page));
  }

  lemma PageHasByte(b: Block, va: nat)
    requires Aligned(b.start) && Aligned(b.size) && b.Has(va)
    ensures b.Has(Base(va / PAGE_SIZE))
  {
  }

  /** Every byte of a taken block has a physical address of its own. */
  lemma PhysicalApart(s: State, va: nat, vb: nat)
    requires Inv(s) && Covered(s.heap.taken, va) && Covered(s.heap.taken, vb)
    ensures Slot(KERNEL, va / PAGE_SIZE) in s.mem.ptes && Slot(KERNEL, vb / PAGE_SIZE) in s.mem.ptes
    ensures PhysicalAddress(s.mem, va) == PhysicalAddress(s.mem, vb) <==> va == vb
  {
    TakenByteIsMapped(s, va);
    TakenByteIsMapped(s, vb);
    InvParts(s);
    hide Inv, Tiles, Exact, Backed, HeapSlot;
    TranslatesBack(s.mem, va);
    TranslatesBack(s.mem, vb);
  }

  /** Below USER_TOP an address has a slot of its own in each space; from there on all share the kernel's. */
  const USER_TOP: nat := 0xEEC0_0000

  function SlotAt(space: nat, va: nat): Slot {
    Slot(if va < USER_TOP then space else KERNEL, va / PAGE_SIZE)
  }

  predicate Elsewhere(va: nat) {
    !(KERNEL_HEAP_START <= va < KERNEL_HEAP_MAX)
  }

  lemma ElsewhereSlot(space: nat, va: nat)
    requires Elsewhere(va)
    ensures !HeapSlot(SlotAt(space, va)) && forall t: Slot :: HeapSlot(t) ==> Base(t.page) != va
  {
  }

  lemma HeapByte(va: nat)
    requires HeapSlot(Slot(KERNEL, va / PAGE_SIZE))
    ensures USER_PAGES_WS_START + va % PAGE_SIZE != va
  {
  }

  const USER_PAGES_WS_START: nat := 0xC000_0000

  /**
   initialize_environment maps the frame of a page it got from kmalloc at
   USER_PAGES_WS_START as well.  From then on kheap_virtual_address answers
   with that address, and still does when the second mapping is gone.
   */
  lemma WorkingSetIsMoved(s: State, va: nat, space: nat)
    requires Inv(s) && Covered(s.heap.taken, va)
    requires Slot(KERNEL, va / PAGE_SIZE) in s.mem.ptes
    requires s.mem.ptes[Slot(KERNEL, va / PAGE_SIZE)].frame < |s.mem.refs|
    requires s.mem.refs[s.mem.ptes[Slot(KERNEL, va / PAGE_SIZE)].frame] == 1
    requires SlotAt(space, USER_PAGES_WS_START) !in s.mem.boot
    ensures var u := SlotAt(space, USER_PAGES_WS_START);
      var f := s.mem.ptes[Slot(KERNEL, va / PAGE_SIZE)].frame;
      var m := MapFrame(s.mem, u, f, USER_PAGES_WS_START, PERM_USER);
      var r := UnmapFrame(m, u);
      && Slot(KERNEL, va / PAGE_SIZE) in m.ptes && PhysicalAddress(m, va) / PAGE_SIZE < |m.va|
      && VirtualAddress(m, PhysicalAddress(m, va)) == USER_PAGES_WS_START + va % PAGE_SIZE != va
      && Slot(KERNEL, va / PAGE_SIZE) in r.ptes && PhysicalAddress(r, va) / PAGE_SIZE < |r.va|
      && f < |r.refs| && r.refs[f] == 1
      && VirtualAddress(r, PhysicalAddress(r, va)) == USER_PAGES_WS_START + va % PAGE_SIZE
  {
    var t := Slot(KERNEL, va / PAGE_SIZE);
    var u := SlotAt(space, USER_PAGES_WS_START);
    var f := s.mem.ptes[t].frame;
    var m := MapFrame(s.mem, u, f, USER_PAGES_WS_START, PERM_USER);
    assert COUNT_LIMIT > 3;
    TakenByteIsMapped(s, va);
    InvParts(s);
    FrameAllocatable(s.mem, t);
    ElsewhereSlot(space, USER_PAGES_WS_START);
    hide *;
    NewEnters(s.mem, u, t);
    MapElsewhereKeeps(s, u, f, USER_PAGES_WS_START, PERM_USER);
    MapFrameIs(s.mem, u, f, USER_PAGES_WS_START, PERM_USER);
    var q := s.(mem := m);
    InvParts(q);
    UnmapElsewhereKeeps(q, u);
    var r := UnmapFrame(m, u);
    SameHeapPagesFacts(m, r);
    SameEntriesAt(s.mem, m, t);
    SameEntriesAt(m, r, t);
    SameVa(m, r, t);
    UnmapIs(m, u);
    TranslatesBack(m, va);
    TranslatesBack(r, va);
    HeapByte(va);
  }

  // ----- boot -----

  /** One continuous allocation at the cursor, over pages not yet mapped. */
  lemma ContMaps(s: State, size: int)
    requires 0 < size <= WORD - PAGE_SIZE && Exact(s.mem, {}) && WellFormed(s.mem) && EnoughFrames(s, size)
    requires Backed(s) && OwnFrame(s.mem) && Clear(s.mem) && Remembered(s.mem) && Aligned(s.last) && KERNEL_HEAP_START <= s.last && s.spare > 0
    requires RoundUp(size) <= KERNEL_HEAP_MAX - s.last
    requires forall x :: s.last <= x < s.last + RoundUp(size) ==> !Covered(s.heap.taken, x)
    ensures var t := ContAllocate(s, size);
      && t.heap == Heap(s.heap.free, With(s.heap.taken, 0, Block(s.last, RoundUp(size))))
      && t.spare == s.spare - 1 && t.last == s.last + RoundUp(size)
      && Exact(t.mem, {}) && WellFormed(t.mem) && Backed(t) && OwnFrame(t.mem) && Clear(t.mem) && Remembered(t.mem)
      && |t.mem.free| == |s.mem.free| - RoundUp(size) / PAGE_SIZE
  {
    var n := RoundUp(size);
    var b := Block(s.last, n);
    var page, pages := s.last / PAGE_SIZE, n / PAGE_SIZE;
    hide Exact, RoundUp, KERNEL_HEAP_MAX;
    forall t: Slot | InRange(t, KERNEL, page, pages)
      ensures Empty(s.mem, t)
    {
      PagesOfBlock(b, t);
    }
    MapNewRangeKeeps(s.mem, KERNEL, page, pages, PERM_WRITEABLE);
    var r := MapNewRange(s.mem, KERNEL, page, pages, PERM_WRITEABLE);
    assert r.free == s.mem.free[pages..];
    forall x
      ensures Covered(With(s.heap.taken, 0, b), x) <==> Covered(s.heap.taken, x) || b.Has(x)
    {
      WithCover(s.heap.taken, 0, b, x);
    }
    BackedAfterMap(s, b, With(s.heap.taken, 0, b), r);
  }

  lemma NothingMapped(m: Memory)
    requires WellFormed(m) && forall t: Slot :: HeapSlot(t) ==> Empty(m, t)
    ensures Backed(Initial(m)) && OwnFrame(m) && Clear(m) && Remembered(m)
  {
  }

  lemma BootFirst(m: Memory, a: int)
    requires Exact(m, {}) && WellFormed(m) && (forall t: Slot :: HeapSlot(t) ==> Empty(m, t))
    requires 0 < a <= 0x100_0000 && 0x1000 <= |m.free|
    ensures EnoughFrames(Initial(m), a)
    ensures var t := ContAllocate(Initial(m), a);
      && t.heap == Heap(Initial(m).heap.free, [Block(KERNEL_HEAP_START, RoundUp(a))])
      && t.spare == MAX_NUMBER_OF_BLOCKS - 2 && t.last == KERNEL_HEAP_START + RoundUp(a)
      && Exact(t.mem, {}) && WellFormed(t.mem) && Backed(t) && OwnFrame(t.mem) && Clear(t.mem) && Remembered(t.mem)
      && |t.mem.free| == |m.free| - RoundUp(a) / PAGE_SIZE
  {
    RoundedSize(a);
    hide Exact, WellFormed, OwnFrame, Clear, Remembered, Backed, RoundUp, MapNewRange, ContAllocate;
    NothingMapped(m);
    ContMaps(Initial(m), a);
    WithFront([], Block(KERNEL_HEAP_START, RoundUp(a)));
  }

  lemma BootSecond(t: State, p: int, b: int)
    requires 0 < p <= 0x100_0000 && Aligned(p) && 0 < b <= 0x100_0000 && 0x1000 <= |t.mem.free|
    requires t.heap.taken == [Block(KERNEL_HEAP_START, p)] && t.last == KERNEL_HEAP_START + p && 0 < t.spare
    requires Exact(t.mem, {}) && WellFormed(t.mem) && Backed(t) && OwnFrame(t.mem) && Clear(t.mem) && Remembered(t.mem)
    ensures EnoughFrames(t, b)
    ensures var u := ContAllocate(t, b);
      && u.heap == Heap(t.heap.free, [Block(KERNEL_HEAP_START + p, RoundUp(b)), Block(KERNEL_HEAP_START, p)])
      && u.spare == t.spare - 1 && Exact(u.mem, {}) && WellFormed(u.mem) && Backed(u) && OwnFrame(u.mem) && Clear(u.mem) && Remembered(u.mem)
  {
    RoundedSize(b);
    hide Exact, WellFormed, OwnFrame, Clear, Remembered, Backed, RoundUp, MapNewRange, ContAllocate, With;
    ContMaps(t, b);
    WithFront(t.heap.taken, Block(t.last, RoundUp(b)));
  }

  /** The kernel starts with no heap slot filled, as long as its image ends below the heap. */
  lemma BootedIsClear(count: nat, end: nat, fixed: map<Slot, nat>)
    requires EXTENDED_FRAME <= end <= count && Fixtures(fixed, end) && 0xF000_0000 + end * 4096 <= 0xF600_0000
    ensures var m := Booted(count, end, fixed);
      Exact(m, {}) && WellFormed(m) && forall t: Slot :: HeapSlot(t) ==> Empty(m, t)
  {
    BootedIsExact(count, end, fixed);
    hide Exact, WellFormed, InUse, BootFree;
  }

  /** Two boot allocations: the state afterwards, field by field. */
  lemma BootMaps(m: Memory, a: int, b: int)
    requires Exact(m, {}) && WellFormed(m) && (forall t: Slot :: HeapSlot(t) ==> Empty(m, t))
    requires 0 < a <= 0x100_0000 && 0 < b <= 0x100_0000 && 0x2000 <= |m.free|
    ensures var s := Initial(m);
      && EnoughFrames(s, a) && var t := ContAllocate(s, a);
      && 0 <= t.last && WellFormed(t.mem) && EnoughFrames(t, b) && var u := ContAllocate(t, b);
      && u.heap == Heap(Initial(u.mem).heap.free, [Block(KERNEL_HEAP_START + RoundUp(a), RoundUp(b)), Block(KERNEL_HEAP_START, RoundUp(a))])
      && u.spare == MAX_NUMBER_OF_BLOCKS - 3
      && Exact(u.mem, {}) && WellFormed(u.mem) && Backed(u) && OwnFrame(u.mem) && Clear(u.mem) && Remembered(u.mem)
  {
    BootFirst(m, a);
    RoundedSize(a);
    BootSecond(ContAllocate(Initial(m), a), RoundUp(a), b);
    hide *;
  }

  lemma WithFront(bs: seq<Block>, b: Block)
    ensures With(bs, 0, b) == [b] + bs
  {
  }

  /**
   The boot state meets the invariant exactly when the allocations made under
   the continuous strategy fill the four pages left out of the free list.
   */
  lemma BootInvIff(m: Memory, a: int, b: int)
    requires Exact(m, {}) && WellFormed(m) && (forall t: Slot :: HeapSlot(t) ==> Empty(m, t))
    requires 0 < a <= 0x100_0000 && 0 < b <= 0x100_0000 && 0x2000 <= |m.free|
    ensures EnoughFrames(Initial(m), a)
    ensures var t := ContAllocate(Initial(m), a); 0 <= t.last && WellFormed(t.mem) && EnoughFrames(t, b)
    ensures var u := ContAllocate(ContAllocate(Initial(m), a), b);
      WellFormed(u.mem) && Remembered(u.mem) && (Inv(u) <==> RoundUp(a) + RoundUp(b) == 0x4000)
  {
    BootMaps(m, a, b);
    RoundedSize(a);
    RoundedSize(b);
    hide *;
    BootInv(ContAllocate(ContAllocate(Initial(m), a), b), RoundUp(a), RoundUp(b));
  }

  lemma RoundedSize(a: int)
    requires 0 < a <= 0x100_0000
    ensures 0 < RoundUp(a) <= 0x100_0000 && Aligned(RoundUp(a))
  {
  }

  lemma BootInv(u: State, p: int, q: int)
    requires 0 < p <= 0x100_0000 && 0 < q <= 0x100_0000 && Aligned(p) && Aligned(q)
    requires u.heap == Heap(Initial(u.mem).heap.free, [Block(KERNEL_HEAP_START + p, q), Block(KERNEL_HEAP_START, p)])
    requires u.spare == MAX_NUMBER_OF_BLOCKS - 3
    requires Exact(u.mem, {}) && WellFormed(u.mem) && Backed(u) && OwnFrame(u.mem) && Clear(u.mem) && Remembered(u.mem)
    ensures Inv(u) <==> p + q == 0x4000
  {
    hide Exact, Backed, OwnFrame, Clear, Remembered, WellFormed, Tiles;
    BootTiles(u.heap, p, q);
  }

  lemma BootTiles(h: Heap, p: int, q: int)
    requires 0 < p <= 0x100_0000 && 0 < q <= 0x100_0000 && Aligned(p) && Aligned(q)
    requires h.free == [Block(KERNEL_HEAP_START + RESERVED, KERNEL_HEAP_MAX - (KERNEL_HEAP_START + RESERVED))]
    requires h.taken == [Block(KERNEL_HEAP_START + p, q), Block(KERNEL_HEAP_START, p)]
    ensures Tiles(h, KERNEL_HEAP_START, KERNEL_HEAP_MAX) <==> p + q == RESERVED
  {
    forall x
      ensures Covered(h.free, x) <==> h.free[0].Has(x)
      ensures Covered(h.taken, x) <==> h.taken[0].Has(x) || h.taken[1].Has(x)
    {
    }
    var x := KERNEL_HEAP_START + if p + q < RESERVED then p + q else RESERVED;
    if p + q == RESERVED {
      assert Tiles(h, KERNEL_HEAP_START, KERNEL_HEAP_MAX);
    } else if Tiles(h, KERNEL_HEAP_START, KERNEL_HEAP_MAX) {
      FreeOrTaken(h, KERNEL_HEAP_START, KERNEL_HEAP_MAX, x);
      assert false;
    }
  }

  // ----- runs -----

  /** What the kernel does with its heap, and with frames at addresses outside the heap. */
  datatype Op =
    | Kmalloc(strategy: Strategy, size: int)
    | Kfree(strategy: Strategy, block: int)
    | MapFresh(space: nat, va: nat, perm: nat)
    | MapShared(space: nat, va: nat, frame: nat, perm: nat)
    | Unmap(space: nat, va: nat)

  datatype Outcome = Running(s: State) | Stopped

  /**
   The requests an allocator can meet, and mappings outside the heap of any frame
   in use, heap frames included; entries from booting stay.
   */
  ghost predicate Allowed(s: State, op: Op) {
    match op
    case Kmalloc(_, size) => 0 < size <= WORD - PAGE_SIZE && EnoughFrames(s, size)
    case Kfree(_, _) => true
    case MapFresh(e, va, _) => Elsewhere(va) && s.mem.free != [] && Empty(s.mem, SlotAt(e, va))
    case MapShared(e, va, f, _) => Elsewhere(va) && SlotAt(e, va) !in s.mem.boot && Allocatable(s.mem, f) && 0 < s.mem.refs[f] < COUNT_LIMIT - 1
    case Unmap(e, va) => Elsewhere(va) && SlotAt(e, va) !in s.mem.boot
  }

  ghost function Perform(s: State, op: Op): Outcome
    requires Sound(s) && Allowed(s, op)
  {
    match op
    case Kmalloc(strategy, size) =>
      var (t, r) := KmallocStep(s, strategy, size);
      if r.NoDescriptor? || r.Fault? then Stopped else Running(t)
    case Kfree(strategy, va) =>
      var (t, r) := KfreeStep(s, strategy, va);
      if r.Fault? then Stopped else Running(t)
    case MapFresh(e, va, perm) => Running(s.(mem := MapNew(s.mem, SlotAt(e, va), va, perm)))
    case MapShared(e, va, f, perm) => Running(s.(mem := MapFrame(s.mem, SlotAt(e, va), f, va, perm)))
    case Unmap(e, va) => Running(s.(mem := UnmapFrame(s.mem, SlotAt(e, va))))
  }

  /** A run stops at a fault, and at a request outside Allowed. */
  ghost function Run(s: State, ops: seq<Op>): Outcome {
    if ops == [] then Running(s)
    else
      var o := Run(s, ops[..|ops| - 1]);
      if o.Running? && Sound(o.s) && Allowed(o.s, ops[|ops| - 1]) then Perform(o.s, ops[|ops| - 1]) else Stopped
  }

  /** The page belongs to the block this kmalloc hands out. */
  ghost predicate HandsOut(s: State, strategy: Strategy, size: int, t: Slot)
    requires 0 <= size < WORD && Sound(s) && EnoughFrames(s, size)
  {
    var r := KmallocStep(s, strategy, size).1;
    r.Address? && Block(r.va, RoundUp(size)).Has(Base(t.page))
  }

  /** Since the page was last handed out, its frame has been entered at an address outside the heap. */
  ghost predicate Moved(s: State, ops: seq<Op>, t: Slot) {
    if ops == [] then false
    else
      var o := Run(s, ops[..|ops| - 1]);
      var before := Moved(s, ops[..|ops| - 1], t);
      if o.Running? && Sound(o.s) && Allowed(o.s, ops[|ops| - 1]) then MovedBy(o.s, ops[|ops| - 1], t, before) else before
  }

  ghost predicate MovedBy(s: State, op: Op, t: Slot, before: bool)
    requires Sound(s) && Allowed(s, op)
  {
    match op
    case Kmalloc(strategy, size) => before && !HandsOut(s, strategy, size, t)
    case MapShared(e, va, f, _) =>
      before || (t in s.mem.ptes && s.mem.ptes[t].frame == f && Enters(s.mem, SlotAt(e, va), f))
    case _ => before
  }

  /**
   Over any mix of first fit, next fit, kfree and mappings elsewhere, those of
   heap frames included: the tiling, the counts, and one frame of its own
   behind each page of a taken block.
   */
  lemma {:induction false} RunInv(s: State, ops: seq<Op>)
    requires Inv(s)
    ensures Run(s, ops).Running? ==> Inv(Run(s, ops).s)
  {
    if ops != [] {
      RunInv(s, ops[..|ops| - 1]);
      var o := Run(s, ops[..|ops| - 1]);
      if o.Running? && Sound(o.s) && Allowed(o.s, ops[|ops| - 1]) {
        PerformKeeps(o.s, ops[|ops| - 1]);
      }
    }
  }

  lemma PerformKeeps(s: State, op: Op)
    requires Inv(s) && Sound(s) && Allowed(s, op)
    ensures Perform(s, op).Running? ==> Inv(Perform(s, op).s)
  {
    hide Inv, Sound, KmallocStep, KfreeStep, RoundUp, HeapSlot, SlotAt, Elsewhere;
    match op
    case Kmalloc(strategy, size) =>
      KmallocKeeps(s, strategy, size);
      var (t, r) := KmallocStep(s, strategy, size);
      assert r.Address? || r.Null? ==> Inv(t);
    case Kfree(strategy, va) => KfreeKeeps(s, strategy, va);
    case MapFresh(e, va, perm) =>
      ElsewhereSlot(e, va);
      MapNewElsewhereKeeps(s, SlotAt(e, va), va, perm);
    case MapShared(e, va, f, perm) =>
      ElsewhereSlot(e, va);
      MapElsewhereKeeps(s, SlotAt(e, va), f, va, perm);
    case Unmap(e, va) =>
      ElsewhereSlot(e, va);
      UnmapElsewhereKeeps(s, SlotAt(e, va));
  }

  // ----- what frames remember, over runs -----

  lemma KmallocRemembers(s: State, strategy: Strategy, size: int, t: Slot)
    requires Inv(s) && Sound(s) && 0 < size <= WORD - PAGE_SIZE && EnoughFrames(s, size) && HeapSlot(t)
    ensures var (u, r) := KmallocStep(s, strategy, size);
      r.Address? && WellFormed(u.mem) && t in u.mem.ptes ==>
        if HandsOut(s, strategy, size, t) then Remembers(u.mem, t)
        else t in s.mem.ptes && (Remembers(u.mem, t) <==> Remembers(s.mem, t))
  {
    var n := RoundUp(size);
    var i := Choose(strategy, s.heap.free, n, s.last);
    var (u, r) := KmallocStep(s, strategy, size);
    if r.Address? && WellFormed(u.mem) && t in u.mem.ptes {
      var b := Block(s.heap.free[i].start, n);
      FrontIsUnmapped(s, i, n);
      MapNewRangeKeeps(s.mem, KERNEL, b.start / PAGE_SIZE, n / PAGE_SIZE, PERM_WRITEABLE);
      PagesOfBlock(b, t);
      FrameAfterMap(s.mem, u.mem, b.start / PAGE_SIZE, n / PAGE_SIZE, t);
      hide Inv, KmallocStep, MappedNew, Unmapped, InRange;
    }
  }

  lemma KfreeRemembers(s: State, strategy: Strategy, va: int, t: Slot)
    requires Inv(s) && Sound(s) && HeapSlot(t)
    ensures var (u, r) := KfreeStep(s, strategy, va);
      !r.Fault? && WellFormed(u.mem) && t in u.mem.ptes ==>
        t in s.mem.ptes && (Remembers(u.mem, t) <==> Remembers(s.mem, t))
  {
    KfreeKeeps(s, strategy, va);
    var j := TakenAt(s.heap.taken, va);
    var (u, r) := KfreeStep(s, strategy, va);
    if r.Freed? && t in u.mem.ptes {
      ReleaseInv(s, j, u.last);
      InvParts(u);
      MappedCounts(u.mem, t);
      hide Inv, KfreeStep, UnmapRange, Exact, Tiles;
    }
  }

  lemma MapElsewhereRemembers(s: State, e: nat, va: nat, f: nat, perm: nat, t: Slot)
    requires Inv(s) && WellFormed(s.mem) && Allowed(s, MapShared(e, va, f, perm)) && HeapSlot(t)
    ensures var r := MapFrame(s.mem, SlotAt(e, va), f, va, perm);
      t in r.ptes ==>
        t in s.mem.ptes &&
        (Remembers(r, t) <==> Remembers(s.mem, t) && !(s.mem.ptes[t].frame == f && Enters(s.mem, SlotAt(e, va), f)))
  {
    ElsewhereSlot(e, va);
    MapElsewhereKeeps(s, SlotAt(e, va), f, va, perm);
    hide Inv, MapFrame, Enters, Exact, WellFormed, HeapSlot, SlotAt;
  }

  lemma SamePagesRemember(m: Memory, r: Memory, t: Slot)
    requires WellFormed(m) && WellFormed(r) && SameHeapPages(m, r) && HeapSlot(t) && t in r.ptes
    ensures t in m.ptes && (Remembers(r, t) <==> Remembers(m, t))
  {
  }

  /** One operation: a page is remembered after it exactly when it was not moved. */
  lemma PerformRemembers(s: State, op: Op, t: Slot, before: bool)
    requires Inv(s) && Sound(s) && Allowed(s, op) && HeapSlot(t) && Perform(s, op).Running?
    requires t in s.mem.ptes ==> (Remembers(s.mem, t) <==> !before)
    ensures var r := Perform(s, op).s.mem;
      && WellFormed(r) && (t in r.ptes ==> (Remembers(r, t) <==> !MovedBy(s, op, t, before)))
  {
    PerformKeeps(s, op);
    InvParts(s);
    InvParts(Perform(s, op).s);
    hide Inv, Sound, KmallocStep, KfreeStep, RoundUp, HeapSlot, SlotAt, Elsewhere, HandsOut, Remembers, Enters;
    hide WellFormed, Exact, Backed, OwnFrame, Tiles, MapFrame, UnmapFrame, MapNew;
    match op
    case Kmalloc(strategy, size) =>
      KmallocRemembers(s, strategy, size, t);
      KmallocNull(s, strategy, size, t);
    case Kfree(strategy, va) => KfreeRemembers(s, strategy, va, t);
    case MapFresh(e, va, perm) =>
      ElsewhereSlot(e, va);
      MapNewElsewhereKeeps(s, SlotAt(e, va), va, perm);
      if t in Perform(s, op).s.mem.ptes {
        SamePagesRemember(s.mem, Perform(s, op).s.mem, t);
      }
    case MapShared(e, va, f, perm) => MapElsewhereRemembers(s, e, va, f, perm, t);
    case Unmap(e, va) =>
      ElsewhereSlot(e, va);
      UnmapElsewhereKeeps(s, SlotAt(e, va));
      if t in Perform(s, op).s.mem.ptes {
        SamePagesRemember(s.mem, Perform(s, op).s.mem, t);
      }
  }

  lemma KmallocNull(s: State, strategy: Strategy, size: int, t: Slot)
    requires Inv(s) && Sound(s) && 0 < size <= WORD - PAGE_SIZE && EnoughFrames(s, size)
    ensures var (u, r) := KmallocStep(s, strategy, size);
      r.Null? ==> u == s && !HandsOut(s, strategy, size, t)
  {
    KmallocKeeps(s, strategy, size);
    hide Inv, KmallocStep;
  }

  /** The frames remember exactly the pages that were not moved. */
  lemma {:induction false} RunRemembers(s: State, ops: seq<Op>, t: Slot)
    requires Inv(s) && Remembered(s.mem) && HeapSlot(t)
    ensures Run(s, ops).Running? ==>
              && Inv(Run(s, ops).s)
              && (t in Run(s, ops).s.mem.ptes ==> (Remembers(Run(s, ops).s.mem, t) <==> !Moved(s, ops, t)))
  {
    RunInv(s, ops);
    if ops != [] {
      RunRemembers(s, ops[..|ops| - 1], t);
      var o := Run(s, ops[..|ops| - 1]);
      if o.Running? && Sound(o.s) && Allowed(o.s, ops[|ops| - 1]) && Run(s, ops).Running? {
        PerformRemembers(o.s, ops[|ops| - 1], t, Moved(s, ops[..|ops| - 1], t));
      }
    }
  }

  /**
   After any run, for every byte of a taken block: kheap_virtual_address undoes
   kheap_physical_address if and only if the frame behind the byte has not been
   entered anywhere else since kmalloc handed the page out.
   */
  lemma RoundTripIff(s: State, ops: seq<Op>, va: nat)
    requires Inv(s) && Remembered(s.mem) && Run(s, ops).Running? && Covered(Run(s, ops).s.heap.taken, va)
    ensures var m := Run(s, ops).s.mem;
      && Slot(KERNEL, va / PAGE_SIZE) in m.ptes && PhysicalAddress(m, va) / PAGE_SIZE < |m.va|
      && (VirtualAddress(m, PhysicalAddress(m, va)) == va <==> !Moved(s, ops, Slot(KERNEL, va / PAGE_SIZE)))
  {
    var t := Slot(KERNEL, va / PAGE_SIZE);
    RunInv(s, ops);
    var r := Run(s, ops).s;
    TakenByteIsMapped(r, va);
    RunRemembers(s, ops, t);
    InvParts(r);
    hide Inv, Run, Moved, Tiles, Exact;
    TranslatesBack(r.mem, va);
  }
}
