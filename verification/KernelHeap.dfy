/**
 kmalloc and kfree of kern/kheap.c as they run, over the linked lists of
 BlockLists, the frames of FrameTable and the cursor last_va_in_kheap.  Each
 call is proved to perform its step of KernelHeapSpec.
 */
module KernelHeap {
  import opened Queue
  import opened Blocks
  import opened Tiling
  import opened BlockLists
  import opened Frames
  import opened FrameRanges
  import opened FrameTable
  import opened KernelHeapSpec

  lemma InvFacts(s: State)
    requires Inv(s)
    ensures Canonical(s.heap.free) && Tiles(s.heap, KERNEL_HEAP_START, KERNEL_HEAP_MAX)
    ensures forall i :: 0 <= i < |s.heap.free| ==> Aligned(s.heap.free[i].start)
    ensures forall i :: 0 <= i < |s.heap.taken| ==> Aligned(s.heap.taken[i].start)
  {
  }

  lemma ChooseIs(bs: seq<Block>, n: int, last: int)
    ensures Choose(FirstFitStrategy, bs, n, last) == FirstFit(bs, n)
    ensures var i := FitFrom(bs, n, last, 0);
      Choose(NextFitStrategy, bs, n, last) == if i < |bs| then i else FirstFit(bs, n)
  {
  }

  lemma KmallocMisses(s: State, strategy: Strategy, size: int)
    requires 0 <= size < WORD && Sound(s) && EnoughFrames(s, size)
    requires Choose(strategy, s.heap.free, RoundUp(size), s.last) == |s.heap.free|
    ensures KmallocStep(s, strategy, size) == (s, Null)
  {
  }

  lemma KmallocFinds(s: State, strategy: Strategy, size: int, i: nat)
    requires 0 <= size < WORD && Sound(s) && EnoughFrames(s, size)
    requires i < |s.heap.free| && i == Choose(strategy, s.heap.free, RoundUp(size), s.last)
    ensures var n := RoundUp(size);
      var b := s.heap.free[i];
      var spare := s.spare + if b.size == n then 1 else 0;
      && n / PAGE_SIZE <= |s.mem.free| && 0 <= b.start
      && (spare == 0 ==> KmallocStep(s, strategy, size).1 == NoDescriptor)
      && (spare > 0 && strategy.FirstFitStrategy? && |s.heap.taken| == 0 ==>
            KmallocStep(s, strategy, size).1 == KmallocResult.Fault)
      && (spare > 0 && (strategy.FirstFitStrategy? ==> |s.heap.taken| > 0) ==>
            var k := if strategy.FirstFitStrategy? then SortedPosition(s.heap.taken, b.start) else 0;
            KmallocStep(s, strategy, size) ==
            (State(Heap(Carve(s.heap.free, i, n), With(s.heap.taken, k, Block(b.start, n))), spare - 1,
                   MapNewRange(s.mem, KERNEL, b.start / PAGE_SIZE, n / PAGE_SIZE, PERM_WRITEABLE),
                   if strategy.FirstFitStrategy? then (s.last + n) % WORD else b.start), Address(b.start)))
  {
    hide WellFormed, MapNewRange, Carve, With, SortedPosition, RoundUp, Choose;
  }

  /** The heap part of initialize_paging. */
  method NewLists() returns (l: BlockLists)
    ensures fresh(l.Frame()) && l.ValidBut({})
    ensures l.View() == Heap([Block(KERNEL_HEAP_START + RESERVED, KERNEL_HEAP_MAX - (KERNEL_HEAP_START + RESERVED))], [])
    ensures l.Spare() == MAX_NUMBER_OF_BLOCKS - 1
  {
    l := new BlockLists(MAX_NUMBER_OF_BLOCKS);
    var ptr := l.AllocateBlock({});
    var start := KERNEL_HEAP_START + RESERVED;
    l.Write(ptr, Block(start, KERNEL_HEAP_MAX - start), {} + {ptr});
    l.LinkFree(ptr, {} + {ptr});
    assert {} + {ptr} - {ptr} == {};
  }

  lemma KfreeMisses(s: State, strategy: Strategy, va: int)
    requires Sound(s) && TakenAt(s.heap.taken, va) == |s.heap.taken|
    ensures KfreeStep(s, strategy, va) == (s, NotFound)
  {
  }

  lemma KfreeFinds(s: State, strategy: Strategy, va: int, j: nat)
    requires Sound(s) && j < |s.heap.taken| && j == TakenAt(s.heap.taken, va)
    ensures var b := s.heap.taken[j];
      var merged := Merge(s.heap.free, b);
      && 0 <= b.start && 0 <= b.size
      && if |s.heap.free| == 0 then KfreeStep(s, strategy, va).1 == KfreeResult.Fault
         else
           KfreeStep(s, strategy, va) ==
           (State(Heap(merged, Without(s.heap.taken, j)), s.spare + 1 + |s.heap.free| - |merged|,
                  UnmapRange(s.mem, KERNEL, b.start / PAGE_SIZE, b.size / PAGE_SIZE),
                  if strategy.NextFitStrategy? && !TouchesLeft(s.heap.free, b) && !TouchesRight(s.heap.free, b)
                     && b.start < s.last then b.start else s.last), Freed(b.size))
  {
  }

  class KernelHeap {
    const lists: BlockLists
    const frames: FrameTable
    var last: int            // last_va_in_kheap

    ghost predicate Valid()
      reads this, frames, frames.refs, frames.va
      reads lists.free, lists.taken, lists.pool, lists.free.nodes, lists.taken.nodes, lists.pool.nodes
    {
      lists.ValidBut({}) && frames.refs != frames.va && WellFormed(frames.View())
    }

    ghost function Abs(): State
      reads this, frames, frames.refs, frames.va
      reads lists.free, lists.taken, lists.pool, lists.free.nodes, lists.taken.nodes
    {
      State(lists.View(), lists.Spare(), frames.View(), last)
    }

    lemma Opened()
      ensures Abs() == State(lists.View(), lists.Spare(), frames.View(), last)
      ensures Valid() <==> lists.ValidBut({}) && frames.refs != frames.va && WellFormed(frames.View())
      ensures frames.View().free == frames.free
    {
    }

    /** initialize_kernel_VM and initialize_paging: the heap is free from its fifth page on. */
    constructor (count: nat, end: nat, fixed: map<Slot, nat>)
      requires EXTENDED_FRAME <= end <= count && Fixtures(fixed, end)
      ensures Valid() && Abs() == Initial(Booted(count, end, fixed)) && Exact(frames.View(), {})
      ensures fresh(lists.Frame()) && fresh(frames.Repr())
    {
      var l := NewLists();
      var f := new FrameTable(count, end, fixed);
      lists, frames, last := l, f, KERNEL_HEAP_START;
      new;
      hide BlockLists.ValidBut, BlockLists.View, BlockLists.Spare, Contents, Exact, WellFormed;
      ExactIsWellFormed(frames.View(), {});
    }

    /** The part of both allocators that touches frames only. */
    method MapBlock(tmp: nat, n: nat)
      requires Valid() && Aligned(tmp) && n / PAGE_SIZE <= |frames.View().free|
      modifies frames.Repr()
      ensures Valid() && lists.View() == old(lists.View()) && lists.Spare() == old(lists.Spare())
      ensures last == old(last) && forall i :: lists.free.At(i) == old(lists.free.At(i))
      ensures frames.View() == MapNewRange(old(frames.View()), KERNEL, tmp / PAGE_SIZE, n / PAGE_SIZE, PERM_WRITEABLE)
    {
      hide MapNewRange, Contents;
      frames.MapPages(KERNEL, tmp, n / PAGE_SIZE, PERM_WRITEABLE);
    }

    /** The part of kfree that touches frames only. */
    method UnmapBlock(tmp: nat, n: nat)
      requires Valid() && Aligned(tmp)
      modifies frames.Repr()
      ensures Valid() && lists.View() == old(lists.View()) && lists.Spare() == old(lists.Spare())
      ensures last == old(last) && forall i :: lists.taken.At(i) == old(lists.taken.At(i))
      ensures frames.View() == UnmapRange(old(frames.View()), KERNEL, tmp / PAGE_SIZE, n / PAGE_SIZE)
    {
      hide UnmapRange, Contents;
      frames.UnmapPages(KERNEL, tmp, n / PAGE_SIZE);
    }

    /** Record a block in the taken list, in a descriptor from the pool. */
    method Record(b: Block, strategy: Strategy) returns (r: KmallocResult)
      requires lists.ValidBut({})
      modifies lists.Frame()
      ensures var h := old(lists.View());
        if old(lists.Spare()) == 0 then r == NoDescriptor
        else if strategy.FirstFitStrategy? && |h.taken| == 0 then r == KmallocResult.Fault
        else
          var k := if strategy.FirstFitStrategy? then SortedPosition(h.taken, b.start) else 0;
          && r == Address(b.start) && lists.ValidBut({}) && lists.Spare() == old(lists.Spare()) - 1
          && lists.View() == Heap(h.free, With(h.taken, k, b))
    {
      hide BlockLists.ValidBut, BlockLists.View, BlockLists.Spare, Contents, SortedPosition, With;
      var ptr := lists.AllocateBlock({});
      if ptr == null {
        return NoDescriptor;
      }
      lists.Write(ptr, b, {} + {ptr});
      assert {} + {ptr} - {ptr} == {};
      if strategy.FirstFitStrategy? {
        var none := lists.NoTaken({} + {ptr});
        if none {
          return KmallocResult.Fault;
        }
        lists.LinkTakenSorted(ptr);
      } else {
        lists.LinkTaken(ptr, {} + {ptr});
      }
      r := Address(b.start);
    }

    /** The part of both allocators that touches block lists only. */
    method CarveBlock(found: Node<Block>, n: int, ghost i: nat, strategy: Strategy) returns (r: KmallocResult)
      requires lists.ValidBut({}) && i < |lists.View().free| && found == lists.free.At(i)
      modifies lists.Frame()
      ensures var h := old(lists.View());
        var b := h.free[i];
        var spare := old(lists.Spare()) + if b.size == n then 1 else 0;
        if spare == 0 then r == NoDescriptor
        else if strategy.FirstFitStrategy? && |h.taken| == 0 then r == KmallocResult.Fault
        else
          var k := if strategy.FirstFitStrategy? then SortedPosition(h.taken, b.start) else 0;
          && r == Address(b.start) && lists.ValidBut({}) && lists.Spare() == spare - 1
          && lists.View() == Heap(Carve(h.free, i, n), With(h.taken, k, Block(b.start, n)))
    {
      FreeAt(found, i);
      hide *;
      var tmp := found.data.start;
      lists.CarveFront(found, n, i);
      r := Record(Block(tmp, n), strategy);
    }

    lemma ItemIsNull(i: nat)
      requires lists.ValidBut({}) && i <= |lists.View().free| && lists.free.At(i) == null
      ensures i == |lists.View().free|
    {
    }

    lemma FreeAt(found: Node<Block>, i: nat)
      requires i < |lists.View().free| && found == lists.free.At(i)
      ensures found.data == lists.View().free[i]
    {
    }

    method CarveValid(found: Node<Block>, n: int, ghost i: nat, strategy: Strategy) returns (r: KmallocResult)
      requires Valid() && i < |lists.View().free| && found == lists.free.At(i)
      modifies lists.Frame()
      ensures var h := old(lists.View());
        var b := h.free[i];
        var spare := old(lists.Spare()) + if b.size == n then 1 else 0;
        if spare == 0 then r == NoDescriptor
        else if strategy.FirstFitStrategy? && |h.taken| == 0 then r == KmallocResult.Fault
        else
          var k := if strategy.FirstFitStrategy? then SortedPosition(h.taken, b.start) else 0;
          && r == Address(b.start) && Valid() && lists.Spare() == spare - 1
          && lists.View() == Heap(Carve(h.free, i, n), With(h.taken, k, Block(b.start, n)))
      ensures frames.View() == old(frames.View()) && last == old(last)
    {
      hide BlockLists.ValidBut, BlockLists.View, BlockLists.Spare, Contents, Carve, With, SortedPosition;
      r := CarveBlock(found, n, i, strategy);
    }

    /** first_fit_allocation */
    method FirstFitAllocation(size: int) returns (r: KmallocResult)
      requires Valid() && 0 <= size < WORD && Inv(Abs()) && Sound(Abs()) && EnoughFrames(Abs(), size)
      modifies this, lists.Frame(), frames.Repr()
      ensures r == KmallocStep(old(Abs()), FirstFitStrategy, size).1
      ensures r.Address? || r.Null? ==> Valid() && Abs() == KmallocStep(old(Abs()), FirstFitStrategy, size).0
    {
      hide *;
      Opened();
      InvFacts(Abs());
      ghost var s := Abs();
      var n := RoundUp(size);
      var found;
      ghost var i;
      found, i := lists.Search(n);
      ChooseIs(s.heap.free, n, s.last);
      if found == null {
        KmallocMisses(s, FirstFitStrategy, size);
        return Null;
      }
      KmallocFinds(s, FirstFitStrategy, size, i);
      MapBlock(found.data.start, n);
      r := CarveValid(found, n, i, FirstFitStrategy);
      Opened();
      last := (last + n) % WORD;
      Opened();
    }

    /** next_fit_allocation */
    method NextFitAllocation(size: int) returns (r: KmallocResult)
      requires Valid() && 0 <= size < WORD && Inv(Abs()) && Sound(Abs()) && EnoughFrames(Abs(), size)
      modifies this, lists.Frame(), frames.Repr()
      ensures r == KmallocStep(old(Abs()), NextFitStrategy, size).1
      ensures r.Address? || r.Null? ==> Valid() && Abs() == KmallocStep(old(Abs()), NextFitStrategy, size).0
    {
      hide *;
      Opened();
      InvFacts(Abs());
      ghost var s := Abs();
      var n := RoundUp(size);
      var after, before;
      ghost var i, k;
      after, before, i, k := lists.SearchNext(n, last);
      ghost var c := if after != null then i else k;
      ChooseIs(s.heap.free, n, s.last);
      if after == null && before == null {
        ItemIsNull(k);
        KmallocMisses(s, NextFitStrategy, size);
        return Null;
      }
      var found := if after != null then after else before;
      KmallocFinds(s, NextFitStrategy, size, c);
      var tmp := found.data.start;
      MapBlock(tmp, n);
      r := CarveValid(found, n, c, NextFitStrategy);
      Opened();
      last := tmp;
      Opened();
    }

    /** kmalloc, with the strategy the kernel is set to */
    method Kmalloc(strategy: Strategy, size: int) returns (r: KmallocResult)
      requires Valid() && 0 <= size < WORD && Inv(Abs()) && Sound(Abs()) && EnoughFrames(Abs(), size)
      modifies this, lists.Frame(), frames.Repr()
      ensures r == KmallocStep(old(Abs()), strategy, size).1
      ensures r.Address? || r.Null? ==> Valid() && Abs() == KmallocStep(old(Abs()), strategy, size).0
    {
      hide *;
      if strategy.FirstFitStrategy? {
        r := FirstFitAllocation(size);
      } else {
        r := NextFitAllocation(size);
      }
    }

    /** cont_allocation: the strategy the kernel boots with. */
    method ContAllocation(size: int) returns (r: KmallocResult)
      requires Valid() && 0 <= size < WORD && 0 <= last && Aligned(last) && EnoughFrames(Abs(), size)
      modifies this, lists.Frame(), frames.Repr()
      ensures r == Null <==> KERNEL_HEAP_MAX - old(last) < RoundUp(size)
      ensures r == Null ==> Valid() && Abs() == old(Abs()) == ContAllocate(old(Abs()), size)
      ensures r == NoDescriptor <==> r != Null && old(Abs()).spare == 0
      ensures r.Address? ==> r.va == old(last) && Valid() && Abs() == ContAllocate(old(Abs()), size)
      ensures !r.Fault?
    {
      hide BlockLists.ValidBut, BlockLists.View, BlockLists.Spare, Contents, With, WellFormed, MapNewRange, RoundUp;
      hide Valid, Abs;
      Opened();
      var n := RoundUp(size);
      if KERNEL_HEAP_MAX - last < n {
        return Null;
      }
      MapBlock(last, n);
      var tmp := last;
      r := RecordValid(Block(tmp, n));
      Opened();
      last := tmp + n;
      Opened();
    }

    /** LIST_INSERT_HEAD of a new block on the taken list. */
    method RecordValid(b: Block) returns (r: KmallocResult)
      requires Valid()
      modifies lists.Frame()
      ensures r == if old(lists.Spare()) == 0 then NoDescriptor else Address(b.start)
      ensures r.Address? ==> Valid() && lists.Spare() == old(lists.Spare()) - 1
      ensures r.Address? ==> lists.View() == Heap(old(lists.View()).free, With(old(lists.View()).taken, 0, b))
      ensures frames.View() == old(frames.View())
    {
      hide BlockLists.ValidBut, BlockLists.View, BlockLists.Spare, Contents, With;
      r := Record(b, NextFitStrategy);
    }

    /** Coalescing_heap, without the cursor; `alone` says that the block touched no other. */
    method CoalescingHeap(take: Node<Block>) returns (alone: bool)
      requires lists.ValidBut({} + {take}) && |lists.View().free| > 0
      requires Canonical(lists.View().free) && 0 < take.data.size && ApartFromAll(lists.View().free, take.data)
      modifies lists.Frame()
      ensures lists.ValidBut({}) && lists.View() == old(Heap(Merge(lists.View().free, take.data), lists.View().taken))
      ensures lists.Spare() == old(lists.Spare() + 1 + |lists.View().free|) - |lists.View().free|
      ensures alone <==> old(!TouchesLeft(lists.View().free, take.data) && !TouchesRight(lists.View().free, take.data))
    {
      hide *;
      var b := take.data;
      ghost var f := lists.View().free;
      ghost var k;
      var pre, nex;
      SortedPositionIsPosition(f, b);
      pre, nex, k := lists.SidesAbove(b.start, {} + {take});
      MergeCases(f, b, k);
      assert {} + {take} - {take} == {};
      alone := false;
      if nex != null && pre != null && b.End() == nex.data.start && pre.data.End() == b.start {
        lists.JoinNeighbours(take, pre, nex, Block(pre.data.start, pre.data.size + b.size + nex.data.size), k);
      } else if nex != null && b.End() == nex.data.start {
        lists.Absorb(nex, Block(b.start, nex.data.size + b.size), take, k, {} + {take});
      } else if pre != null && pre.data.End() == b.start {
        lists.Absorb(pre, Block(pre.data.start, pre.data.size + b.size), take, k - 1, {} + {take});
      } else {
        alone := true;
        lists.LinkFreeSorted(take);
      }
    }

    /** Unlink a taken block and give it back; not ok when there is no free block to compare it with. */
    method Release(bi: Node<Block>, ghost j: nat) returns (ok: bool, alone: bool)
      requires lists.ValidBut({}) && bi == lists.taken.At(j) && j < |lists.View().taken|
      requires Canonical(lists.View().free)
      requires var b := lists.View().taken[j]; 0 < b.size && ApartFromAll(lists.View().free, b)
      modifies lists.Frame()
      ensures ok <==> |old(lists.View()).free| > 0
      ensures ok ==> var h := old(lists.View());
                var b := h.taken[j];
                && lists.ValidBut({}) && lists.View() == Heap(Merge(h.free, b), Without(h.taken, j))
                && lists.Spare() == old(lists.Spare()) + 1 + |h.free| - |lists.View().free|
                && (alone <==> !TouchesLeft(h.free, b) && !TouchesRight(h.free, b))
    {
      hide *;
      lists.UnlinkTaken(bi, j);
      var empty := lists.NoFree({} + {bi});
      ok, alone := !empty, false;
      if ok {
        alone := CoalescingHeap(bi);
      }
    }

    method ReleaseValid(bi: Node<Block>, ghost j: nat) returns (ok: bool, alone: bool)
      requires Valid() && bi == lists.taken.At(j) && j < |lists.View().taken|
      requires Canonical(lists.View().free)
      requires var b := lists.View().taken[j]; 0 < b.size && ApartFromAll(lists.View().free, b)
      modifies lists.Frame()
      ensures ok <==> |old(lists.View()).free| > 0
      ensures ok ==> var h := old(lists.View());
                var b := h.taken[j];
                && Valid() && lists.View() == Heap(Merge(h.free, b), Without(h.taken, j))
                && lists.Spare() == old(lists.Spare()) + 1 + |h.free| - |lists.View().free|
                && (alone <==> !TouchesLeft(h.free, b) && !TouchesRight(h.free, b))
      ensures frames.View() == old(frames.View()) && last == old(last)
    {
      hide BlockLists.ValidBut, BlockLists.View, BlockLists.Spare, Contents, Merge, Without, Canonical, ApartFromAll;
      hide TouchesLeft, TouchesRight;
      ok, alone := Release(bi, j);
    }

    /** kfree */
    method Kfree(strategy: Strategy, va: int) returns (r: KfreeResult)
      requires Valid() && Inv(Abs()) && Sound(Abs())
      modifies this, lists.Frame(), frames.Repr()
      ensures r == KfreeStep(old(Abs()), strategy, va).1
      ensures !r.Fault? ==> Valid() && Abs() == KfreeStep(old(Abs()), strategy, va).0
    {
      hide *;
      Opened();
      InvFacts(Abs());
      ghost var s := Abs();
      var bi;
      ghost var j;
      bi, j := lists.FindTaken(va);
      if bi == null {
        KfreeMisses(s, strategy, va);
        return NotFound;
      }
      KfreeFinds(s, strategy, va, j);
      TakenFacts(s.heap, KERNEL_HEAP_START, KERNEL_HEAP_MAX, j);
      var tmp, size := bi.data.start, bi.data.size;
      UnmapBlock(tmp, size);
      var ok, alone := ReleaseValid(bi, j);
      if !ok {
        return KfreeResult.Fault;
      }
      Opened();
      if strategy.NextFitStrategy? && alone && tmp < last {
        last := tmp;
        Opened();
      }
      r := Freed(size);
    }
  }
}
