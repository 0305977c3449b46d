/**
 What both heap allocators keep: the free list and the taken list tile the heap.

 From the tiling follow the two facts the allocators are for: the free list is
 a function of the set of taken addresses alone, and a search of the list finds
 what a search of the address space would.
 */
module Tiling {
  import opened Blocks

  datatype Heap = Heap(free: seq<Block>, taken: seq<Block>)

  ghost predicate AllAligned(bs: seq<Block>) {
    forall i :: 0 <= i < |bs| ==> Aligned(bs[i].start) && Aligned(bs[i].size)
  }

  ghost predicate PairwiseApart(bs: seq<Block>) {
    && (forall i :: 0 <= i < |bs| ==> 0 < bs[i].size)
    && (forall i, j :: 0 <= i < j < |bs| ==> Apart(bs[i], bs[j]))
  }

  ghost predicate Separate(free: seq<Block>, taken: seq<Block>) {
    forall j :: 0 <= j < |taken| ==> ApartFromAll(free, taken[j])
  }

  ghost predicate CoverExactly(h: Heap, lo: int, hi: int) {
    forall x :: Covered(h.free, x) || Covered(h.taken, x) <==> lo <= x < hi
  }

  ghost predicate Tiles(h: Heap, lo: int, hi: int) {
    && Canonical(h.free) && AllAligned(h.free)
    && PairwiseApart(h.taken) && AllAligned(h.taken)
    && Separate(h.free, h.taken)
    && CoverExactly(h, lo, hi)
  }

  // ----- free and taken are complements -----

  lemma FreeOrTaken(h: Heap, lo: int, hi: int, x: int)
    requires Tiles(h, lo, hi)
    ensures Covered(h.free, x) <==> lo <= x < hi && !Covered(h.taken, x)
  {
    forall i, j | 0 <= i < |h.free| && 0 <= j < |h.taken| && h.free[i].Has(x)
      ensures !h.taken[j].Has(x)
    {
      assert ApartFromAll(h.free, h.taken[j]);
      assert Apart(h.free[i], h.taken[j]);
    }
  }

  /** The free list depends only on which addresses are taken. */
  lemma FreeListIsDetermined(h: Heap, g: Heap, lo: int, hi: int)
    requires Tiles(h, lo, hi) && Tiles(g, lo, hi) && SameCover(h.taken, g.taken)
    ensures h.free == g.free
  {
    forall x
      ensures Covered(h.free, x) <==> Covered(g.free, x)
    {
      FreeOrTaken(h, lo, hi, x);
      FreeOrTaken(g, lo, hi, x);
    }
    CanonicalUnique(h.free, g.free);
  }

  lemma TakenFacts(h: Heap, lo: int, hi: int, j: nat)
    requires Tiles(h, lo, hi) && j < |h.taken|
    ensures Canonical(h.free) && 0 < h.taken[j].size && ApartFromAll(h.free, h.taken[j])
  {
  }

  lemma SameTakenSameHeap(h: Heap, g: Heap, lo: int, hi: int)
    requires Tiles(h, lo, hi) && Tiles(g, lo, hi) && h.taken == g.taken
    ensures h == g
  {
    FreeListIsDetermined(h, g, lo, hi);
  }

  lemma SameBlocksSameCover(ps: seq<Block>, qs: seq<Block>)
    requires multiset(ps) == multiset(qs)
    ensures SameCover(ps, qs)
  {
    forall x
      ensures Covered(ps, x) <==> Covered(qs, x)
    {
      assert forall b :: b in ps <==> b in multiset(ps);
      assert forall b :: b in qs <==> b in multiset(qs);
      assert Covered(ps, x) <==> exists b :: b in ps && b.Has(x);
      assert Covered(qs, x) <==> exists b :: b in qs && b.Has(x);
    }
  }

  // ----- searching the list is searching the address space -----

  /** [a, a + n) lies in the heap and misses every taken block. */
  ghost predicate Vacant(taken: seq<Block>, lo: int, hi: int, a: int, n: int) {
    lo <= a && a + n <= hi && ApartFromAll(taken, Block(a, n))
  }

  lemma VacantIsFree(h: Heap, lo: int, hi: int, a: int, n: int)
    requires Tiles(h, lo, hi) && 0 < n
    ensures Vacant(h.taken, lo, hi, a, n) <==> AllCovered(h.free, a, n)
  {
    if Vacant(h.taken, lo, hi, a, n) {
      forall x | a <= x < a + n
        ensures Covered(h.free, x)
      {
        FreeOrTaken(h, lo, hi, x);
        assert forall j :: 0 <= j < |h.taken| ==> Apart(h.taken[j], Block(a, n));
      }
    }
    if AllCovered(h.free, a, n) {
      FreeOrTaken(h, lo, hi, a);
      FreeOrTaken(h, lo, hi, a + n - 1);
      assert Covered(h.free, a) && Covered(h.free, a + n - 1);
      forall j | 0 <= j < |h.taken|
        ensures Apart(h.taken[j], Block(a, n))
      {
        var t := h.taken[j];
        var x := if t.start <= a then a else t.start;
        FreeOrTaken(h, lo, hi, x);
        assert a <= x < a + n ==> Covered(h.free, x);
        assert t.Has(x) ==> Covered(h.taken, x);
      }
    }
  }

  /** Index of the first block of at least n bytes: the search loop of first fit. */
  function FirstFit(bs: seq<Block>, n: int): (k: nat)
    ensures k <= |bs|
    ensures forall i :: 0 <= i < k ==> bs[i].size < n
    ensures k < |bs| ==> n <= bs[k].size
  {
    FirstFitFrom(bs, n, 0)
  }

  function FirstFitFrom(bs: seq<Block>, n: int, i: nat): (k: nat)
    requires i <= |bs|
    ensures i <= k <= |bs|
    ensures forall j :: i <= j < k ==> bs[j].size < n
    ensures k < |bs| ==> n <= bs[k].size
    decreases |bs| - i
  {
    if i == |bs| || n <= bs[i].size then i else FirstFitFrom(bs, n, i + 1)
  }

  ghost predicate LowestVacant(taken: seq<Block>, lo: int, hi: int, a: int, n: int) {
    Vacant(taken, lo, hi, a, n) && forall b :: Vacant(taken, lo, hi, b, n) ==> a <= b
  }

  /** A vacant place exists only inside a free block that is large enough. */
  lemma VacantInBlock(h: Heap, lo: int, hi: int, a: int, n: int) returns (i: nat)
    requires Tiles(h, lo, hi) && 0 < n && Vacant(h.taken, lo, hi, a, n)
    ensures i < |h.free| && n <= h.free[i].size && h.free[i].start <= a
  {
    VacantIsFree(h, lo, hi, a, n);
    i := IntervalInOneBlock(h.free, a, n);
  }

  lemma BlockIsVacant(h: Heap, lo: int, hi: int, i: nat, n: int)
    requires Tiles(h, lo, hi) && i < |h.free| && 0 < n <= h.free[i].size
    ensures Vacant(h.taken, lo, hi, h.free[i].start, n)
  {
    BlockCovered(h.free, i);
    assert AllCovered(h.free, h.free[i].start, n);
    VacantIsFree(h, lo, hi, h.free[i].start, n);
  }

  /** First fit over the list is lowest fit over all addresses, and fails only when nothing fits. */
  lemma FirstFitIsLowest(h: Heap, lo: int, hi: int, n: int)
    requires Tiles(h, lo, hi) && 0 < n
    ensures var i := FirstFit(h.free, n);
      if i < |h.free| then LowestVacant(h.taken, lo, hi, h.free[i].start, n)
      else forall a :: !Vacant(h.taken, lo, hi, a, n)
  {
    var i := FirstFit(h.free, n);
    if i < |h.free| {
      BlockIsVacant(h, lo, hi, i, n);
    }
    forall b | Vacant(h.taken, lo, hi, b, n)
      ensures i < |h.free| && h.free[i].start <= b
    {
      var j := VacantInBlock(h, lo, hi, b, n);
      assert i <= j;
    }
  }

  // ----- allocation and release keep the tiling -----

  /** Carve n bytes off free block i and record them at position k of the taken list. */
  function Allocate(h: Heap, i: nat, n: int, k: nat): Heap
    requires i < |h.free| && k <= |h.taken|
  {
    Heap(Carve(h.free, i, n), With(h.taken, k, Block(h.free[i].start, n)))
  }

  /** Take block j off the taken list and merge it into the free list. */
  function Release(h: Heap, j: nat): Heap
    requires j < |h.taken|
  {
    Heap(Merge(h.free, h.taken[j]), Without(h.taken, j))
  }

  lemma CarveApart(bs: seq<Block>, i: nat, n: int, b: Block)
    requires Canonical(bs) && i < |bs| && 0 < n <= bs[i].size && ApartFromAll(bs, b)
    ensures ApartFromAll(Carve(bs, i, n), b)
  {
  }

  lemma CarvedApart(bs: seq<Block>, i: nat, n: int)
    requires Canonical(bs) && i < |bs| && 0 < n <= bs[i].size
    ensures ApartFromAll(Carve(bs, i, n), Block(bs[i].start, n))
  {
  }

  lemma {:induction false} AllocateTiles(h: Heap, lo: int, hi: int, i: nat, n: int, k: nat)
    requires Tiles(h, lo, hi) && i < |h.free| && k <= |h.taken| && 0 < n <= h.free[i].size && Aligned(n)
    ensures Tiles(Allocate(h, i, n, k), lo, hi)
  {
    var b := Block(h.free[i].start, n);
    var g := Allocate(h, i, n, k);
    CarveCanonical(h.free, i, n);
    forall j | 0 <= j < |h.taken|
      ensures Apart(h.taken[j], b)
    {
      assert ApartFromAll(h.free, h.taken[j]);
      assert Apart(h.free[i], h.taken[j]);
    }
    assert Separate(g.free, g.taken) by {
      forall j | 0 <= j < |g.taken|
        ensures ApartFromAll(g.free, g.taken[j])
      {
        if j == k {
          CarvedApart(h.free, i, n);
        } else {
          CarveApart(h.free, i, n, h.taken[if j < k then j else j - 1]);
        }
      }
    }
    assert CoverExactly(g, lo, hi) by {
      forall x
        ensures Covered(g.free, x) || Covered(g.taken, x) <==> lo <= x < hi
      {
        CarveCover(h.free, i, n, x);
        WithCover(h.taken, k, b, x);
        assert b.Has(x) ==> h.free[i].Has(x);
        assert b.Has(x) ==> Covered(h.free, x);
      }
    }
  }

  lemma MergeAligned(bs: seq<Block>, b: Block)
    requires AllAligned(bs) && Aligned(b.start) && Aligned(b.size)
    ensures AllAligned(Merge(bs, b))
  {
    var k := Position(bs, b.start);
    hide Position;
    assert TouchesLeft(bs, b) && TouchesRight(bs, b) ==> AllAligned(Without(bs, k));
  }

  lemma TakenCoverWithout(taken: seq<Block>, j: nat, x: int)
    requires PairwiseApart(taken) && j < |taken|
    ensures Covered(Without(taken, j), x) <==> Covered(taken, x) && !taken[j].Has(x)
  {
    forall m | 0 <= m < |taken| && m != j && taken[m].Has(x)
      ensures !taken[j].Has(x)
    {
      assert if m < j then Apart(taken[m], taken[j]) else Apart(taken[j], taken[m]);
    }
    CoverWithout(taken, j, x);
  }

  /** Blocks that cover no common address are apart. */
  lemma ApartByCover(bs: seq<Block>, b: Block)
    requires 0 < b.size && forall i :: 0 <= i < |bs| ==> 0 < bs[i].size
    requires forall x :: b.Has(x) ==> !Covered(bs, x)
    ensures ApartFromAll(bs, b)
  {
    forall i | 0 <= i < |bs|
      ensures Apart(bs[i], b)
    {
      var x := if bs[i].start <= b.start then b.start else bs[i].start;
      if bs[i].Has(x) && b.Has(x) {
        assert Covered(bs, x);
      }
    }
  }

  lemma {:induction false} ReleaseTiles(h: Heap, lo: int, hi: int, j: nat)
    requires Tiles(h, lo, hi) && j < |h.taken|
    ensures Tiles(Release(h, j), lo, hi)
  {
    var b := h.taken[j];
    var g := Release(h, j);
    assert ApartFromAll(h.free, b);
    MergeCanonical(h.free, b);
    MergeAligned(h.free, b);
    assert CoverExactly(g, lo, hi) by {
      forall x
        ensures Covered(g.free, x) || Covered(g.taken, x) <==> lo <= x < hi
      {
        MergeCover(h.free, b, x);
        TakenCoverWithout(h.taken, j, x);
        assert b.Has(x) ==> Covered(h.taken, x);
      }
    }
    assert Separate(g.free, g.taken) by {
      forall m | 0 <= m < |g.taken|
        ensures ApartFromAll(g.free, g.taken[m])
      {
        forall x | g.taken[m].Has(x)
          ensures !Covered(g.free, x)
        {
          MergeCover(h.free, b, x);
          TakenCoverWithout(h.taken, j, x);
          assert Covered(g.taken, x);
          FreeOrTaken(h, lo, hi, x);
        }
        ApartByCover(g.free, g.taken[m]);
      }
    }
    assert PairwiseApart(g.taken);
  }

  /** Freeing what was just allocated restores the free list, block for block. */
  lemma ReleaseUndoesAllocate(h: Heap, lo: int, hi: int, i: nat, n: int, k: nat)
    requires Tiles(h, lo, hi) && i < |h.free| && k <= |h.taken| && 0 < n <= h.free[i].size && Aligned(n)
    ensures Release(Allocate(h, i, n, k), k) == h
  {
    var g := Allocate(h, i, n, k);
    AllocateTiles(h, lo, hi, i, n, k);
    ReleaseTiles(g, lo, hi, k);
    var r := Release(g, k);
    assert r.taken == h.taken;
    SameTakenSameHeap(r, h, lo, hi);
  }

  lemma WithoutTwice<T>(s: seq<T>, i: nat, j: nat)
    requires i < j < |s|
    ensures Without(Without(s, j), i) == Without(Without(s, i), j - 1)
  {
  }

  /** Two blocks may be freed in either order: the heap comes out the same. */
  lemma ReleaseOrderIrrelevant(h: Heap, lo: int, hi: int, i: nat, j: nat)
    requires Tiles(h, lo, hi) && i < j < |h.taken|
    ensures Release(Release(h, j), i) == Release(Release(h, i), j - 1)
  {
    hide Tiles, Merge;
    ReleaseTiles(h, lo, hi, j);
    ReleaseTiles(Release(h, j), lo, hi, i);
    ReleaseTiles(h, lo, hi, i);
    ReleaseTiles(Release(h, i), lo, hi, j - 1);
    WithoutTwice(h.taken, i, j);
    SameTakenSameHeap(Release(Release(h, j), i), Release(Release(h, i), j - 1), lo, hi);
  }
}
