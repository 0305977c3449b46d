/**
 What kmalloc and kfree do to the next-fit cursor and to page-table entries, and
 where a byte of the kernel heap is in memory, said in addresses.
 */
module KernelHeapCalls {
  import opened Blocks
  import opened Tiling
  import opened BlockLists
  import opened Frames
  import opened FrameRanges
  import opened FrameTable
  import opened KernelHeapSpec
  import opened KernelHeapTheorems

  /**
   After a success next fit leaves its cursor at the address returned, and first
   fit moves it up by the rounded size, as a 32-bit number; a failure leaves
   everything as it was.
   */
  lemma KmallocCursor(s: State, strategy: Strategy, size: int)
    requires Inv(s) && 0 < size <= WORD - PAGE_SIZE && EnoughFrames(s, size)
    ensures Sound(s)
    ensures var (t, r) := KmallocStep(s, strategy, size);
      && (!r.Address? ==> t == s)
      && (r.Address? && strategy.NextFitStrategy? ==> t.last == r.va)
      && (r.Address? && strategy.FirstFitStrategy? ==> t.last == (s.last + RoundUp(size)) % 0x1_0000_0000)
  {
    InvIsSound(s);
    hide Inv, Choose, Carve, With, SortedPosition, MapNewRange, RoundUp, WellFormed;
  }

  /** The byte belongs to no block: it is in the heap and free. */
  ghost predicate FreeByte(taken: seq<Block>, a: int) {
    0xF600_0000 <= a < 0xFFFF_F000 && forall i :: 0 <= i < |taken| ==> !taken[i].Has(a)
  }

  /**
   kfree pulls the cursor of next fit back to the block exactly when the cursor
   was above it and the bytes before and behind the block are not free.
   */
  lemma KfreeCursor(s: State, strategy: Strategy, va: int)
    requires Inv(s)
    ensures Sound(s)
    ensures var (t, r) := KfreeStep(s, strategy, va);
      && (!r.Freed? ==> t == s)
      && (r.Freed? ==>
            t.last == if strategy.NextFitStrategy? && va < s.last && !FreeByte(s.heap.taken, va - 1) && !FreeByte(s.heap.taken, va + r.size)
                      then va else s.last)
  {
    InvIsSound(s);
    var j := TakenAt(s.heap.taken, va);
    if j < |s.heap.taken| && s.heap.free != [] {
      var b := s.heap.taken[j];
      InvParts(s);
      PlacedInHeap(s.heap, b);
      TakenApart(s.heap, j);
      FreeByteIs(s.heap, va - 1);
      FreeByteIs(s.heap, va + b.size);
      TouchesIs(s.heap.free, b);
    }
    hide Inv, Tiles, FreeByte, TouchesLeft, TouchesRight, UnmapRange, Merge, WellFormed, Covered;
  }

  lemma FreeByteIs(h: Heap, a: int)
    requires Tiles(h, KERNEL_HEAP_START, KERNEL_HEAP_MAX)
    ensures FreeByte(h.taken, a) <==> Covered(h.free, a)
  {
    FreeOrTaken(h, KERNEL_HEAP_START, KERNEL_HEAP_MAX, a);
    hide Tiles;
  }

  lemma TakenApart(h: Heap, j: nat)
    requires Tiles(h, KERNEL_HEAP_START, KERNEL_HEAP_MAX) && j < |h.taken|
    ensures Canonical(h.free) && ApartFromAll(h.free, h.taken[j]) && 0 < h.taken[j].size
  {
  }

  /** A free block ends where b begins exactly when the byte before b is free; and likewise behind it. */
  lemma TouchesIs(bs: seq<Block>, b: Block)
    requires Canonical(bs) && ApartFromAll(bs, b) && 0 < b.size
    ensures TouchesLeft(bs, b) <==> Covered(bs, b.start - 1)
    ensures TouchesRight(bs, b) <==> Covered(bs, b.End())
  {
    var k := Position(bs, b.start);
    Neighbours(bs, b);
    if TouchesLeft(bs, b) {
      assert bs[k - 1].Has(b.start - 1);
    }
    if TouchesRight(bs, b) {
      assert bs[k].Has(b.End());
    }
    forall i | 0 <= i < |bs|
      ensures bs[i].Has(b.start - 1) ==> i == k - 1 && bs[i].End() == b.start
      ensures bs[i].Has(b.End()) ==> i == k && bs[i].start == b.End()
    {
      assert Apart(bs[i], b);
    }
  }

  lemma MappedAt(m: Memory, r: Memory, page: nat, n: nat, p: nat)
    requires n <= |m.free| && WellFormed(m) && WellFormed(r) && MappedNew(m, r, KERNEL, page, n, PERM_WRITEABLE)
    requires page <= p < page + n
    ensures Slot(KERNEL, p) in r.ptes && r.ptes[Slot(KERNEL, p)].frame == m.free[p - page] && r.ptes[Slot(KERNEL, p)].perm == 2
  {
    assert InRange(Slot(KERNEL, p), KERNEL, page, n);
    assert p == page + (p - page);
  }

  lemma KmallocMaps(s: State, strategy: Strategy, size: int)
    requires Inv(s) && Sound(s) && 0 < size <= WORD - PAGE_SIZE && EnoughFrames(s, size)
    ensures var (t, r) := KmallocStep(s, strategy, size); var n := RoundUp(size);
      r.Address? ==>
        && 0 < n && 0 <= r.va && Aligned(n) && Aligned(r.va) && WellFormed(s.mem) && n / PAGE_SIZE <= |s.mem.free|
        && Unmapped(s.mem, KERNEL, r.va / PAGE_SIZE, n / PAGE_SIZE)
        && t.mem == MapNewRange(s.mem, KERNEL, r.va / PAGE_SIZE, n / PAGE_SIZE, PERM_WRITEABLE)
  {
    var n := RoundUp(size);
    var i := Choose(strategy, s.heap.free, n, s.last);
    InvParts(s);
    if i < |s.heap.free| {
      FrontIsUnmapped(s, i, n);
    }
    hide Inv, Tiles, Exact, Backed, Choose, Carve, With, SortedPosition, MapNewRange, RoundUp, WellFormed, Unmapped;
  }

  /** Every page kmalloc hands out is mapped writable, for the kernel only, in order of the free frames. */
  lemma KmallocPages(s: State, strategy: Strategy, size: int, p: nat)
    requires Inv(s) && 0 < size <= WORD - PAGE_SIZE && EnoughFrames(s, size)
    ensures Sound(s)
    ensures var (t, r) := KmallocStep(s, strategy, size);
      r.Address? && r.va <= p * 4096 < r.va + size ==>
        && 0 <= p - r.va / 4096 < |s.mem.free|
        && Slot(KERNEL, p) in t.mem.ptes && t.mem.ptes[Slot(KERNEL, p)] == Pte(s.mem.free[p - r.va / 4096], 2)
  {
    hide *;
    InvIsSound(s);
    InvParts(s);
    KmallocMaps(s, strategy, size);
    var (t, r) := KmallocStep(s, strategy, size);
    var n := RoundUp(size);
    if r.Address? && r.va <= p * 4096 < r.va + size {
      PageInBlock(r.va, size, p);
      MapNewRangeKeeps(s.mem, KERNEL, r.va / PAGE_SIZE, n / PAGE_SIZE, PERM_WRITEABLE);
      MappedAt(s.mem, t.mem, r.va / PAGE_SIZE, n / PAGE_SIZE, p);
      PteIs(t.mem.ptes[Slot(KERNEL, p)]);
    }
  }

  lemma PteIs(e: Pte)
    ensures e == Pte(e.frame, e.perm)
  {
  }

  lemma PageInBlock(a: int, size: int, p: nat)
    requires Aligned(a) && 0 < size <= WORD - PAGE_SIZE && a <= p * 4096 < a + size
    ensures PAGE_SIZE == 4096 && a / PAGE_SIZE <= p < a / PAGE_SIZE + RoundUp(size) / PAGE_SIZE
  {
  }

  /** kheap_physical_address: the byte's place in the frame behind its page. */
  lemma PhysicalIs(s: State, va: nat)
    requires Inv(s) && Covered(s.heap.taken, va)
    ensures Slot(KERNEL, va / 4096) in s.mem.ptes && Slot(KERNEL, va / PAGE_SIZE) in s.mem.ptes
    ensures PhysicalAddress(s.mem, va) / 4096 == s.mem.ptes[Slot(KERNEL, va / 4096)].frame
    ensures PhysicalAddress(s.mem, va) % 4096 == va % 4096
  {
    TakenByteIsMapped(s, va);
    hide Inv, Covered;
  }

  ghost predicate Ascending(bs: seq<Block>) {
    forall i, j :: 0 <= i < j < |bs| ==> bs[i].start < bs[j].start
  }

  lemma WithAscending(bs: seq<Block>, k: nat, b: Block)
    requires Ascending(bs) && k <= |bs| && (forall i :: 0 <= i < k ==> bs[i].start < b.start)
    requires forall i :: k <= i < |bs| ==> b.start < bs[i].start
    ensures Ascending(With(bs, k, b))
  {
    var r := With(bs, k, b);
    forall i, j | 0 <= i < j < |r|
      ensures r[i].start < r[j].start
    {
      assert r[i] == if i < k then bs[i] else if i == k then b else bs[i - 1];
      assert r[j] == if j < k then bs[j] else if j == k then b else bs[j - 1];
    }
  }

  lemma SortedPlace(bs: seq<Block>, b: Block)
    requires Ascending(bs) && bs != [] && (forall i :: 0 <= i < |bs| ==> bs[i].start != b.start)
    ensures Ascending(With(bs, SortedPosition(bs, b.start), b))
  {
    var k := SortedPosition(bs, b.start);
    assert forall i :: 0 <= i < |bs| ==> bs[0].start <= bs[i].start <= bs[|bs| - 1].start;
    forall i | k <= i < |bs|
      ensures b.start < bs[i].start
    {
      assert bs[k].start <= bs[i].start;
    }
    hide With;
    WithAscending(bs, k, b);
  }

  lemma StartIsNew(taken: seq<Block>, lo: int, hi: int, a: int, n: int)
    requires Vacant(taken, lo, hi, a, n) && 0 < n && forall i :: 0 <= i < |taken| ==> 0 < taken[i].size
    ensures forall i :: 0 <= i < |taken| ==> taken[i].start != a
  {
    forall i | 0 <= i < |taken|
      ensures taken[i].start != a
    {
      assert Apart(taken[i], Block(a, n));
    }
  }

  /**
   Where the new block goes on the taken list: next fit puts it first, first fit
   keeps a list that is in order of addresses in that order.
   */
  lemma TakenOrder(s: State, strategy: Strategy, size: int)
    requires Inv(s) && 0 < size <= WORD - PAGE_SIZE && EnoughFrames(s, size)
    ensures Sound(s)
    ensures var (t, r) := KmallocStep(s, strategy, size);
      && (r.Address? && strategy.NextFitStrategy? ==> t.heap.taken == [Block(r.va, RoundUp(size))] + s.heap.taken)
      && (r.Address? && strategy.FirstFitStrategy? && Ascending(s.heap.taken) ==> Ascending(t.heap.taken))
  {
    hide *;
    InvIsSound(s);
    InvParts(s);
    KmallocKeeps(s, strategy, size);
    var (t, r) := KmallocStep(s, strategy, size);
    if r.Address? {
      TakenAfter(s, strategy, size);
      PlacedIsVacant(s, strategy, RoundUp(size), r.va);
      SizeIsPositive(size);
      Sizes(s.heap);
      StartIsNew(s.heap.taken, KERNEL_HEAP_START, KERNEL_HEAP_MAX, r.va, RoundUp(size));
      if strategy.FirstFitStrategy? && Ascending(s.heap.taken) {
        SortedPlace(s.heap.taken, Block(r.va, RoundUp(size)));
      }
    }
  }

  lemma Sizes(h: Heap)
    requires Tiles(h, KERNEL_HEAP_START, KERNEL_HEAP_MAX)
    ensures forall i :: 0 <= i < |h.taken| ==> 0 < h.taken[i].size
  {
  }

  lemma SizeIsPositive(size: int)
    requires 0 < size <= WORD - PAGE_SIZE
    ensures 0 < RoundUp(size)
  {
  }

  lemma PlacedIsVacant(s: State, strategy: Strategy, n: int, a: int)
    requires Placed(strategy, s.heap.taken, n, s.last, a)
    ensures Vacant(s.heap.taken, KERNEL_HEAP_START, KERNEL_HEAP_MAX, a, n)
  {
    hide Vacant;
  }

  lemma TakenAfter(s: State, strategy: Strategy, size: int)
    requires Sound(s) && 0 < size <= WORD - PAGE_SIZE && EnoughFrames(s, size) && KmallocStep(s, strategy, size).1.Address?
    ensures var (t, r) := KmallocStep(s, strategy, size); var b := Block(r.va, RoundUp(size));
      && b.start == r.va
      && (strategy.NextFitStrategy? ==> t.heap.taken == [b] + s.heap.taken)
      && (strategy.FirstFitStrategy? ==> s.heap.taken != [] && t.heap.taken == With(s.heap.taken, SortedPosition(s.heap.taken, b.start), b))
  {
    assert forall b :: With(s.heap.taken, 0, b) == [b] + s.heap.taken;
    hide Choose, Carve, SortedPosition, MapNewRange, RoundUp, WellFormed, With;
  }

  /**
   cont_allocation hands out consecutive addresses: the block is placed at the
   cursor, which moves behind it, exactly when it ends within the heap and a
   descriptor is left; otherwise nothing changes.
   */
  lemma ContIsConsecutive(s: State, size: int)
    requires 0 < size <= WORD - PAGE_SIZE && WellFormed(s.mem) && EnoughFrames(s, size) && 0 <= s.last
    ensures var t := ContAllocate(s, size);
      if s.last + RoundUp(size) <= 0xFFFF_F000 && 0 < s.spare then
        && t.heap.taken == [Block(s.last, RoundUp(size))] + s.heap.taken && t.heap.free == s.heap.free
        && s.last + size <= t.last < s.last + size + 4096 && t.spare == s.spare - 1
        && (Aligned(s.last) ==> Aligned(t.last))
      else t == s
  {
    assert forall b :: With(s.heap.taken, 0, b) == [b] + s.heap.taken;
    hide With, MapNewRange, WellFormed;
  }
}
