/**
 The kernel heap of kern/kheap.c: what kmalloc and kfree do to the block lists,
 to the frames behind them and to the next-fit cursor, and what that preserves.
 */
module KernelHeapSpec {
  import opened Blocks
  import opened Tiling
  import opened BlockLists
  import opened Frames
  import opened FrameRanges
  import opened FrameTable

  const KERNEL_HEAP_START: int := 0xF600_0000
  const KERNEL_HEAP_MAX: int := 0xFFFF_F000
  const MAX_NUMBER_OF_BLOCKS: nat := 1000000

  /** The kernel's page tables are one address space, shared by all directories. */
  const KERNEL: nat := SHARED_SPACE

  datatype Strategy = FirstFitStrategy | NextFitStrategy

  datatype State = State(heap: Heap, spare: nat, mem: Memory, last: int)

  /** Fault: insert_sorted or Coalescing_heap met an empty list and followed a null pointer. */
  datatype KmallocResult = Address(va: int) | Null | NoDescriptor | Fault

  datatype KfreeResult = Freed(size: int) | NotFound | Fault

  // ----- next fit -----

  /** The block next fit carves: the first fitting one from the cursor on, else the first fitting one. */
  function NextFit(bs: seq<Block>, n: int, a: int): (k: nat)
    ensures k <= |bs| && (k < |bs| ==> n <= bs[k].size)
  {
    var k := FitFrom(bs, n, a, 0);
    if k < |bs| then k else FirstFit(bs, n)
  }

  function Choose(strategy: Strategy, bs: seq<Block>, n: int, last: int): (k: nat)
    ensures k <= |bs| && (k < |bs| ==> n <= bs[k].size)
  {
    match strategy
    case FirstFitStrategy => FirstFit(bs, n)
    case NextFitStrategy => NextFit(bs, n, last)
  }

  /** A vacant run of n bytes that begins where a free run begins. */
  ghost predicate RunStart(taken: seq<Block>, lo: int, hi: int, a: int, n: int) {
    Vacant(taken, lo, hi, a, n) && !Vacant(taken, lo, hi, a - 1, 1)
  }

  lemma BlockStartsRun(h: Heap, lo: int, hi: int, i: nat, n: int)
    requires Tiles(h, lo, hi) && i < |h.free| && 0 < n <= h.free[i].size
    ensures RunStart(h.taken, lo, hi, h.free[i].start, n)
  {
    var a := h.free[i].start;
    BlockIsVacant(h, lo, hi, i, n);
    VacantIsFree(h, lo, hi, a - 1, 1);
    assert AllCovered(h.free, a - 1, 1) ==> Covered(h.free, a - 1);
    assert forall j :: 0 <= j < |h.free| ==> !h.free[j].Has(a - 1);
  }

  lemma RunStartsBlock(h: Heap, lo: int, hi: int, a: int, n: int) returns (i: nat)
    requires Tiles(h, lo, hi) && 0 < n && RunStart(h.taken, lo, hi, a, n)
    ensures i < |h.free| && h.free[i].start == a && n <= h.free[i].size
  {
    VacantIsFree(h, lo, hi, a, n);
    i := IntervalInOneBlock(h.free, a, n);
    VacantIsFree(h, lo, hi, a - 1, 1);
    assert h.free[i].Has(a - 1) ==> Covered(h.free, a - 1);
  }

  /**
   Next fit is what it is called: the lowest free run from the cursor on that is
   long enough, else the lowest vacant place of all, else nothing fits anywhere.
   */
  lemma NextFitIsNext(h: Heap, lo: int, hi: int, n: int, last: int)
    requires Tiles(h, lo, hi) && 0 < n
    ensures var k := NextFit(h.free, n, last);
      if k == |h.free| then forall a :: !Vacant(h.taken, lo, hi, a, n)
      else
        var a := h.free[k].start;
        if exists b :: last <= b && RunStart(h.taken, lo, hi, b, n) then
          last <= a && RunStart(h.taken, lo, hi, a, n) && forall b :: last <= b && RunStart(h.taken, lo, hi, b, n) ==> a <= b
        else LowestVacant(h.taken, lo, hi, a, n)
  {
    var j := FitFrom(h.free, n, last, 0);
    FirstFitIsLowest(h, lo, hi, n);
    if j < |h.free| {
      BlockStartsRun(h, lo, hi, j, n);
    }
    forall b | last <= b && RunStart(h.taken, lo, hi, b, n)
      ensures j < |h.free| && h.free[j].start <= b
    {
      var i := RunStartsBlock(h, lo, hi, b, n);
      assert j <= i;
    }
  }

  // ----- the calls -----

  /** Addresses are unsigned and page-table entries name frames. */
  ghost predicate Sound(s: State) {
    && WellFormed(s.mem)
    && (forall i :: 0 <= i < |s.heap.free| ==> 0 <= s.heap.free[i].start)
    && (forall i :: 0 <= i < |s.heap.taken| ==> 0 <= s.heap.taken[i].start && 0 <= s.heap.taken[i].size)
  }

  predicate EnoughFrames(s: State, size: int)
    requires 0 <= size < WORD
  {
    RoundUp(size) / PAGE_SIZE <= |s.mem.free|
  }

  /** One call of kmalloc; a panic or a fault ends the run. */
  ghost function KmallocStep(s: State, strategy: Strategy, size: int): (r: (State, KmallocResult))
    requires 0 <= size < WORD && Sound(s) && EnoughFrames(s, size)
  {
    var n := RoundUp(size);
    var i := Choose(strategy, s.heap.free, n, s.last);
    if i == |s.heap.free| then (s, Null)
    else
      var b := s.heap.free[i];
      var spare := s.spare + if b.size == n then 1 else 0;
      if spare == 0 then (s, NoDescriptor)
      else if strategy.FirstFitStrategy? && |s.heap.taken| == 0 then (s, KmallocResult.Fault)
      else
        var k := if strategy.FirstFitStrategy? then SortedPosition(s.heap.taken, b.start) else 0;
        var last := if strategy.FirstFitStrategy? then (s.last + n) % WORD else b.start;
        var mem := MapNewRange(s.mem, KERNEL, b.start / PAGE_SIZE, n / PAGE_SIZE, PERM_WRITEABLE);
        (State(Allocate(s.heap, i, n, k), spare - 1, mem, last), Address(b.start))
  }

  /** Coalescing_heap pulls the cursor back when the block stays on its own. */
  function CursorAfterFree(strategy: Strategy, free: seq<Block>, b: Block, last: int): int {
    if strategy.NextFitStrategy? && !TouchesLeft(free, b) && !TouchesRight(free, b) && b.start < last then b.start
    else last
  }

  /** One call of kfree. */
  ghost function KfreeStep(s: State, strategy: Strategy, va: int): (r: (State, KfreeResult))
    requires Sound(s)
  {
    var j := TakenAt(s.heap.taken, va);
    if j == |s.heap.taken| then (s, NotFound)
    else if |s.heap.free| == 0 then (s, KfreeResult.Fault)
    else
      var b := s.heap.taken[j];
      var h := Release(s.heap, j);
      (State(h, s.spare + 1 + |s.heap.free| - |h.free|,
             UnmapRange(s.mem, KERNEL, b.start / PAGE_SIZE, b.size / PAGE_SIZE),
             CursorAfterFree(strategy, s.heap.free, b, s.last)),
       Freed(b.size))
  }

  /** cont_allocation, the strategy the kernel boots with: it never looks at the free list. */
  ghost function ContAllocate(s: State, size: int): State
    requires 0 <= size < WORD && WellFormed(s.mem) && EnoughFrames(s, size) && 0 <= s.last
  {
    var n := RoundUp(size);
    if n <= KERNEL_HEAP_MAX - s.last && s.spare > 0 then
      State(Heap(s.heap.free, With(s.heap.taken, 0, Block(s.last, n))), s.spare - 1,
            MapNewRange(s.mem, KERNEL, s.last / PAGE_SIZE, n / PAGE_SIZE, PERM_WRITEABLE), s.last + n)
    else s
  }

  const RESERVED: int := 0x4000

  /** What initialize_paging sets up: the free list starts four pages into the heap. */
  function Initial(m: Memory): State {
    State(Heap([Block(KERNEL_HEAP_START + RESERVED, KERNEL_HEAP_MAX - (KERNEL_HEAP_START + RESERVED))], []),
          MAX_NUMBER_OF_BLOCKS - 1, m, KERNEL_HEAP_START)
  }

  // ----- invariant -----

  ghost predicate HeapSlot(s: Slot) {
    s.space == KERNEL && KERNEL_HEAP_START <= Base(s.page) < KERNEL_HEAP_MAX
  }

  /** The mapped heap pages are exactly the pages of taken blocks. */
  ghost predicate Backed(s: State) {
    forall t: Slot :: HeapSlot(t) ==> (t in s.mem.ptes <==> Covered(s.heap.taken, Base(t.page)))
  }

  /** Heap pages have a frame each, whoever else maps it. */
  ghost predicate OwnFrame(m: Memory) {
    forall t: Slot, u: Slot :: HeapSlot(t) && HeapSlot(u) && t in m.ptes && u in m.ptes && t != u ==>
      m.ptes[t].frame != m.ptes[u].frame
  }

  /** The address the page's frame was last mapped at is the page's own. */
  ghost predicate Remembers(m: Memory, t: Slot)
    requires WellFormed(m) && t in m.ptes
  {
    m.va[m.ptes[t].frame] == Base(t.page)
  }

  ghost predicate Remembered(m: Memory)
    requires WellFormed(m)
  {
    forall t: Slot :: HeapSlot(t) && t in m.ptes ==> Remembers(m, t)
  }

  /** Booting filled no slot of the heap. */
  ghost predicate Clear(m: Memory) {
    forall t: Slot :: t in m.boot ==> !HeapSlot(t)
  }

  ghost predicate Inv(s: State) {
    && Tiles(s.heap, KERNEL_HEAP_START, KERNEL_HEAP_MAX)
    && |s.heap.free| + |s.heap.taken| + s.spare == MAX_NUMBER_OF_BLOCKS
    && Exact(s.mem, {})
    && WellFormed(s.mem) && Backed(s) && OwnFrame(s.mem) && Clear(s.mem)
  }
}
