/**
 malloc and free of lib/uheap.c, over the linked lists of BlockLists.

 The state is three linked lists of descriptors.  Each method is tied to a step
 of the abstract heap of Tiling; what the allocator promises is then proved
 about those steps and about every history of them.
 */
module UserHeap {
  import opened Queue
  import opened Blocks
  import opened Tiling
  import opened BlockLists

  const USER_HEAP_START: int := 0x8000_0000
  const USER_HEAP_MAX: int := 0xC000_0000
  const MAX_NUMBER_OF_BLOCKS_USER: nat := 100000

  /** Address, NULL, or the panic of allocate_block when no descriptor is left. */
  datatype MallocResult = Address(va: int) | Null | NoDescriptor

  /** Fault: the free list was empty, so Coalescing_heap_user followed a null pointer. */
  datatype FreeResult = Freed(size: int) | NotFound | Fault

  /** The heap together with the number of spare descriptors. */
  datatype State = State(heap: Heap, spare: nat)

  ghost predicate Inv(s: State) {
    && Tiles(s.heap, USER_HEAP_START, USER_HEAP_MAX)
    && |s.heap.free| + |s.heap.taken| + s.spare == MAX_NUMBER_OF_BLOCKS_USER
  }

  const INITIAL: State :=
    State(Heap([Block(USER_HEAP_START, USER_HEAP_MAX - USER_HEAP_START)], []), MAX_NUMBER_OF_BLOCKS_USER - 1)

  /** One call of malloc on the abstract heap. */
  function MallocStep(s: State, size: int): (r: (State, MallocResult))
    requires 0 <= size < WORD
  {
    var n := RoundUp(size);
    var i := FirstFit(s.heap.free, n);
    if i == |s.heap.free| then (s, Null)
    else
      var b := s.heap.free[i];
      var spare := s.spare + (if b.size == n then 1 else 0);
      if spare == 0 then (State(s.heap.(free := Carve(s.heap.free, i, n)), 0), NoDescriptor)
      else (State(Allocate(s.heap, i, n, 0), spare - 1), Address(b.start))
  }

  lemma MallocStepRounds(s: State, size: int)
    requires 0 <= size < WORD
    ensures MallocStep(s, RoundUp(size)) == MallocStep(s, size)
  {
    RoundUpTwice(size);
  }

  /** One call of free on the abstract heap. */
  function FreeStep(s: State, va: int): (r: (State, FreeResult)) {
    var j := TakenAt(s.heap.taken, va);
    if j == |s.heap.taken| then (s, NotFound)
    else if |s.heap.free| == 0 then (State(s.heap.(taken := Without(s.heap.taken, j)), s.spare), Fault)
    else
      var h := Release(s.heap, j);
      (State(h, s.spare + 1 + |s.heap.free| - |h.free|), Freed(s.heap.taken[j].size))
  }

  lemma FreeStepMisses(s: State, va: int)
    requires TakenAt(s.heap.taken, va) == |s.heap.taken|
    ensures FreeStep(s, va) == (s, NotFound)
  {
  }

  lemma FreeStepFinds(s: State, va: int)
    requires TakenAt(s.heap.taken, va) < |s.heap.taken|
    ensures var j := TakenAt(s.heap.taken, va);
      var b := s.heap.taken[j];
      var rest := Without(s.heap.taken, j);
      var merged := Merge(s.heap.free, b);
      FreeStep(s, va) ==
        if |s.heap.free| == 0 then (State(Heap(s.heap.free, rest), s.spare), Fault)
        else (State(Heap(merged, rest), s.spare + 1 + |s.heap.free| - |merged|), Freed(b.size))
  {
  }

  class UserHeap {
    const lists: BlockLists

    ghost predicate Valid()
      reads lists.free, lists.taken, lists.pool, lists.free.nodes, lists.taken.nodes, lists.pool.nodes
    {
      lists.ValidBut({})
    }

    ghost function Abs(): State
      reads lists.free, lists.taken, lists.pool, lists.free.nodes, lists.taken.nodes
    {
      State(lists.View(), lists.Spare())
    }

    /** The initialisation first_fit_user performs on its first call. */
    constructor ()
      ensures Valid() && Abs() == INITIAL && fresh(lists.Frame())
    {
      var l := new BlockLists(MAX_NUMBER_OF_BLOCKS_USER);
      var ptr := l.AllocateBlock({});
      l.Write(ptr, Block(USER_HEAP_START, USER_HEAP_MAX - USER_HEAP_START), {} + {ptr});
      l.LinkFree(ptr, {} + {ptr});
      lists := l;
      assert {} + {ptr} - {ptr} == {};
    }

    method FirstFitUser(size: int) returns (r: MallocResult)
      requires Valid() && 0 <= size < WORD
      modifies lists.Frame()
      ensures Valid() && (Abs(), r) == MallocStep(old(Abs()), size)
    {
      hide BlockLists.ValidBut, BlockLists.View, BlockLists.Spare, Contents, Carve;
      var n := RoundUp(size);
      var found;
      ghost var i;
      found, i := lists.Search(n);
      if found == null {
        return Null;
      }
      var tmp := found.data.start;
      lists.CarveFront(found, n, i);
      var ptr := lists.AllocateBlock({});
      if ptr == null {
        return NoDescriptor;
      }
      lists.Write(ptr, Block(tmp, n), {} + {ptr});
      lists.LinkTaken(ptr, {} + {ptr});
      assert {} + {ptr} - {ptr} == {};
      r := Address(tmp);
    }

    method Malloc(size: int) returns (r: MallocResult)
      requires Valid() && 0 <= size < WORD
      modifies lists.Frame()
      ensures Valid() && (Abs(), r) == MallocStep(old(Abs()), size)
    {
      var n := RoundUp(size);
      MallocStepRounds(Abs(), size);
      hide *;
      r := FirstFitUser(n);
    }

    method CoalescingHeapUser(take: Node<Block>)
      requires lists.ValidBut({} + {take}) && |lists.View().free| > 0
      requires Canonical(lists.View().free) && 0 < take.data.size && ApartFromAll(lists.View().free, take.data)
      modifies lists.Frame()
      ensures lists.ValidBut({}) && lists.View() == old(Heap(Merge(lists.View().free, take.data), lists.View().taken))
      ensures lists.Spare() == old(lists.Spare() + 1 + |lists.View().free|) - |lists.View().free|
    {
      hide *;
      var b := take.data;
      var str, end := lists.Ends({} + {take});
      ghost var f := lists.View().free;
      assert {} + {take} - {take} == {};
      if b.start <= str.data.start && b.End() == str.data.start {
        MergeFront(f, b);
        lists.Absorb(str, Block(b.start, str.data.size + b.size), take, 0, {} + {take});
      } else if end.data.start <= b.start {
        BackPosition(f, b);
        MergeBack(f, b);
        if end.data.End() == b.start {
          lists.Absorb(end, Block(end.data.start, end.data.size + b.size), take, |f| - 1, {} + {take});
        } else {
          lists.LinkFreeSorted(take);
        }
      } else {
        CoalesceBetween(take);
      }
    }

    method CoalesceBetween(take: Node<Block>)
      requires lists.ValidBut({} + {take}) && |lists.View().free| > 0
      requires Canonical(lists.View().free) && 0 < take.data.size && ApartFromAll(lists.View().free, take.data)
      modifies lists.Frame()
      ensures lists.ValidBut({}) && lists.View() == old(Heap(Merge(lists.View().free, take.data), lists.View().taken))
      ensures lists.Spare() == old(lists.Spare() + 1 + |lists.View().free|) - |lists.View().free|
    {
      hide *;
      var b := take.data;
      ghost var f := lists.View().free;
      ghost var k;
      var pre, nex;
      pre, nex, k := lists.Sides(b.start, {} + {take});
      MergeCases(f, b, k);
      assert {} + {take} - {take} == {};
      if nex != null && pre != null && b.End() == nex.data.start && pre.data.End() == b.start {
        lists.JoinNeighbours(take, pre, nex, Block(pre.data.start, pre.data.size + b.size + nex.data.size), k);
      } else if nex != null && b.End() == nex.data.start {
        lists.Absorb(nex, Block(b.start, nex.data.size + b.size), take, k, {} + {take});
      } else if pre != null && pre.data.End() == b.start {
        lists.Absorb(pre, Block(pre.data.start, pre.data.size + b.size), take, k - 1, {} + {take});
      } else {
        lists.LinkFreeSorted(take);
      }
    }

    /** Unlink a taken block and give it back; false when there was no free block to compare it with. */
    method Release(bi: Node<Block>, ghost j: nat) returns (ok: bool)
      requires lists.ValidBut({}) && bi == lists.taken.At(j) && j < |lists.View().taken|
      requires Canonical(lists.View().free)
      requires var b := lists.View().taken[j]; 0 < b.size && ApartFromAll(lists.View().free, b)
      modifies lists.Frame()
      ensures ok <==> |old(lists.View()).free| > 0
      ensures var h := old(lists.View());
        lists.View() == Heap(if ok then Merge(h.free, h.taken[j]) else h.free, Without(h.taken, j))
      ensures lists.Spare() == old(lists.Spare()) + if ok then 1 + |old(lists.View()).free| - |lists.View().free| else 0
      ensures ok ==> lists.ValidBut({})
    {
      hide *;
      lists.UnlinkTaken(bi, j);
      var empty := lists.NoFree({} + {bi});
      ok := !empty;
      if ok {
        CoalescingHeapUser(bi);
      }
    }

    method Free(va: int) returns (r: FreeResult)
      requires Valid() && Tiles(Abs().heap, USER_HEAP_START, USER_HEAP_MAX)
      modifies lists.Frame()
      ensures (Abs(), r) == FreeStep(old(Abs()), va)
      ensures r != Fault ==> Valid()
    {
      hide *;
      Opened();
      var bi;
      ghost var j;
      bi, j := lists.FindTaken(va);
      if bi == null {
        FreeStepMisses(Abs(), va);
        return NotFound;
      }
      TakenFacts(lists.View(), USER_HEAP_START, USER_HEAP_MAX, j);
      FreeStepFinds(Abs(), va);
      var size := bi.data.size;
      var ok := Release(bi, j);
      Opened();
      r := if ok then Freed(size) else Fault;
    }

    lemma Opened()
      ensures Valid() == lists.ValidBut({}) && Abs() == State(lists.View(), lists.Spare())
    {
    }
  }

  // ----- what the calls promise, over every history -----

  lemma InitialInv()
    ensures Inv(INITIAL)
  {
    var h := INITIAL.heap;
    assert forall x :: Covered(h.free, x) <==> h.free[0].Has(x);
  }

  /**
   malloc keeps the invariant and finds the lowest address whose whole range
   misses every taken block; NULL means there is none.  It panics exactly when
   no descriptor is spare and the block it found is too long to be used up.
   */
  lemma MallocIsLowest(s: State, size: int)
    requires Inv(s) && 0 < size <= WORD - PAGE_SIZE
    ensures var (t, r) := MallocStep(s, size);
      var n := RoundUp(size);
      match r {
        case Address(a) => Inv(t) && LowestVacant(s.heap.taken, 0x8000_0000, 0xC000_0000, a, n)
          && Aligned(a) && t.heap.taken == [Block(a, n)] + s.heap.taken
        case Null => t == s && forall a :: !Vacant(s.heap.taken, 0x8000_0000, 0xC000_0000, a, n)
        case NoDescriptor => |s.heap.free| + |s.heap.taken| == 100000
      }
    ensures MallocStep(s, size).1 == NoDescriptor <==> s.spare == 0 && LowestIsLonger(s.heap.taken, RoundUp(size))
  {
    var n := RoundUp(size);
    var i := FirstFit(s.heap.free, n);
    FirstFitIsLowest(s.heap, USER_HEAP_START, USER_HEAP_MAX, n);
    if i < |s.heap.free| {
      AllocateTiles(s.heap, USER_HEAP_START, USER_HEAP_MAX, i, n, 0);
      LongerBlock(s.heap, i, n);
    }
    hide Tiles, FirstFit;
  }

  /** The vacant run malloc would carve n bytes from goes on after them, so that a descriptor has to stay. */
  ghost predicate LowestIsLonger(taken: seq<Block>, n: int) {
    exists a :: LowestVacant(taken, 0x8000_0000, 0xC000_0000, a, n) && Vacant(taken, 0x8000_0000, 0xC000_0000, a, n + 1)
  }

  lemma LongerBlock(h: Heap, i: nat, n: int)
    requires Tiles(h, USER_HEAP_START, USER_HEAP_MAX) && i < |h.free| && 0 < n <= h.free[i].size
    requires LowestVacant(h.taken, USER_HEAP_START, USER_HEAP_MAX, h.free[i].start, n)
    ensures LowestIsLonger(h.taken, n) <==> h.free[i].size != n
  {
    var a := h.free[i].start;
    if h.free[i].size != n {
      BlockIsVacant(h, USER_HEAP_START, USER_HEAP_MAX, i, n + 1);
      assert Vacant(h.taken, USER_HEAP_START, USER_HEAP_MAX, a, n + 1);
    } else {
      BlockEnds(h, i, n);
      forall b | LowestVacant(h.taken, USER_HEAP_START, USER_HEAP_MAX, b, n)
        ensures !Vacant(h.taken, USER_HEAP_START, USER_HEAP_MAX, b, n + 1)
      {
        assert b == a;
      }
      assert !LowestIsLonger(h.taken, n);
    }
    hide Tiles;
  }

  /** Nothing longer than a whole free block is vacant where it starts. */
  lemma BlockEnds(h: Heap, i: nat, n: int)
    requires Tiles(h, USER_HEAP_START, USER_HEAP_MAX) && i < |h.free| && 0 < n == h.free[i].size
    ensures !Vacant(h.taken, USER_HEAP_START, USER_HEAP_MAX, h.free[i].start, n + 1)
  {
    var a := h.free[i].start;
    VacantIsFree(h, USER_HEAP_START, USER_HEAP_MAX, a, n + 1);
    if AllCovered(h.free, a, n + 1) {
      var j := IntervalInOneBlock(h.free, a, n + 1);
      SameBlock(h.free, i, j, a);
    }
  }

  lemma SameBlock(bs: seq<Block>, i: nat, j: nat, x: int)
    requires Canonical(bs) && i < |bs| && j < |bs| && bs[i].Has(x) && bs[j].Has(x)
    ensures i == j
  {
  }

  /**
   A request that rounds to zero (size 0, or so large that ROUNDUP wraps) breaks
   the invariant exactly when it is given an address, which it is whenever a
   free block and a descriptor are left.
   */
  lemma ZeroRequestBreaksInv(s: State, size: int)
    requires Inv(s) && 0 <= size < WORD
    ensures var (t, r) := MallocStep(s, size);
      && (r.Address? ==> (Inv(t) <==> RoundUp(size) != 0))
      && (RoundUp(size) == 0 ==> (Inv(t) <==> !r.Address?) && (r.Address? <==> |s.heap.free| > 0 && s.spare > 0))
  {
    if RoundUp(size) == 0 {
      var (t, r) := MallocStep(s, size);
      if |s.heap.free| > 0 && s.spare > 0 {
        assert t.heap.taken[0].size == 0;
      } else if |s.heap.free| > 0 {
        var i := FirstFit(s.heap.free, 0);
        assert Carve(s.heap.free, i, 0) == s.heap.free;
        assert t == s;
      }
    } else {
      MallocIsLowest(s, size);
    }
  }

  /** One request for the whole heap leaves no free block: freeing it follows a null pointer instead of undoing it. */
  lemma WholeHeapCannotBeFreed()
    ensures var o := Run(INITIAL, [CallMalloc(0x4000_0000)]);
      && o.Running? && o.s.heap.free == [] && o.s.heap.taken == [Block(0x8000_0000, 0x4000_0000)]
      && FreeStep(o.s, 0x8000_0000).1 == Fault
    ensures Run(INITIAL, [CallMalloc(0x4000_0000), CallFree(0x8000_0000)]) == Stopped
  {
    var whole := [CallMalloc(0x4000_0000)];
    var both := whole + [CallFree(USER_HEAP_START)];
    assert whole[..0] == [] && both[..1] == whole;
    assert Run(INITIAL, whole[..0]) == Running(INITIAL);
    assert Run(INITIAL, whole) == Perform(INITIAL, whole[0]);
  }

  /** free faults exactly when the address is taken and no free block is left. */
  lemma FreeKeepsInv(s: State, va: int)
    requires Inv(s)
    ensures var (t, r) := FreeStep(s, va);
      var j := TakenAt(s.heap.taken, va);
      && (r == NotFound <==> forall i :: 0 <= i < |s.heap.taken| ==> s.heap.taken[i].start != va)
      && (r == Fault <==> j < |s.heap.taken| && |s.heap.free| == 0)
      && (r != Fault ==> Inv(t))
      && (r.Freed? ==> multiset(s.heap.taken) == multiset(t.heap.taken) + multiset{Block(va, r.size)})
  {
    var j := TakenAt(s.heap.taken, va);
    if j < |s.heap.taken| && |s.heap.free| > 0 {
      ReleaseTiles(s.heap, USER_HEAP_START, USER_HEAP_MAX, j);
      WithoutMultiset(s.heap.taken, j);
    }
  }

  datatype Call = CallMalloc(size: int) | CallFree(va: int)

  /** The state after a history of calls; None once a call panicked or faulted. */
  datatype Outcome = Running(s: State) | Stopped

  predicate LegalCall(c: Call) {
    c.CallMalloc? ==> 0 < c.size <= WORD - PAGE_SIZE
  }

  function Perform(s: State, c: Call): (o: Outcome)
    requires LegalCall(c)
  {
    match c {
      case CallMalloc(size) =>
        var (t, r) := MallocStep(s, size);
        if r == NoDescriptor then Stopped else Running(t)
      case CallFree(va) =>
        var (t, r) := FreeStep(s, va);
        if r == Fault then Stopped else Running(t)
    }
  }

  function Run(s: State, calls: seq<Call>): (o: Outcome)
    requires forall i :: 0 <= i < |calls| ==> LegalCall(calls[i])
  {
    if calls == [] then Running(s)
    else match Run(s, calls[..|calls| - 1])
      case Stopped => Stopped
      case Running(t) => Perform(t, calls[|calls| - 1])
  }

  lemma {:induction false} RunInv(calls: seq<Call>)
    requires forall i :: 0 <= i < |calls| ==> LegalCall(calls[i])
    ensures var o := Run(INITIAL, calls); o.Running? ==> Inv(o.s)
  {
    if calls == [] {
      InitialInv();
    } else {
      var before := calls[..|calls| - 1];
      RunInv(before);
      var o := Run(INITIAL, before);
      if o.Running? {
        match calls[|calls| - 1] {
          case CallMalloc(size) => MallocIsLowest(o.s, size);
          case CallFree(va) => FreeKeepsInv(o.s, va);
        }
      }
    }
  }

  /** Two histories that leave the same blocks taken leave the same free list, whatever their order. */
  lemma HistoriesAgree(c1: seq<Call>, c2: seq<Call>)
    requires forall i :: 0 <= i < |c1| ==> LegalCall(c1[i])
    requires forall i :: 0 <= i < |c2| ==> LegalCall(c2[i])
    requires var o1, o2 := Run(INITIAL, c1), Run(INITIAL, c2);
      o1.Running? && o2.Running? && multiset(o1.s.heap.taken) == multiset(o2.s.heap.taken)
    ensures Run(INITIAL, c1).s.heap.free == Run(INITIAL, c2).s.heap.free
    ensures Run(INITIAL, c1).s.spare == Run(INITIAL, c2).s.spare
  {
    var h1, h2 := Run(INITIAL, c1).s.heap, Run(INITIAL, c2).s.heap;
    RunInv(c1);
    RunInv(c2);
    SameBlocksSameCover(h1.taken, h2.taken);
    FreeListIsDetermined(h1, h2, USER_HEAP_START, USER_HEAP_MAX);
    assert |h1.taken| == |multiset(h1.taken)| == |multiset(h2.taken)| == |h2.taken|;
  }

  /** Freeing the block malloc just returned gives the old state back, unless that block was the last free one. */
  lemma FreeUndoesMalloc(s: State, size: int)
    requires Inv(s) && 0 < size <= WORD - PAGE_SIZE
    ensures var (t, r) := MallocStep(s, size);
      r.Address? ==>
        (FreeStep(t, r.va) == (s, Freed(RoundUp(size))) <==> |t.heap.free| > 0)
  {
    var n := RoundUp(size);
    var i := FirstFit(s.heap.free, n);
    if i < |s.heap.free| {
      ReleaseUndoesAllocate(s.heap, USER_HEAP_START, USER_HEAP_MAX, i, n, 0);
    }
  }
}
