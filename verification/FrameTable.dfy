/**
 The frame operations of kern/memory_manager.c as they run: frames_info is an
 array, the free list and the page-table entries are updated in place.  Each
 method is proved to perform its step of Frames.
 */
module FrameTable {
  import RR = RoundRobin
  import opened Blocks
  import opened Frames
  import opened FrameRanges

  const PERM_WRITEABLE: nat := 2
  const PERM_USER: nat := 4

  /** PHYS_IO_MEM, PHYS_EXTENDED_MEM and KERNEL_BASE, in pages. */
  const IO_FRAME: nat := 160
  const EXTENDED_FRAME: nat := 256
  const KERNEL_PAGE: nat := 0xF0000

  /** Frames initialize_paging marks in use: the first three, the I/O hole, and the kernel up to `end`. */
  predicate InUse(f: nat, end: nat) {
    f < 3 || IO_FRAME <= f < end
  }

  /** n frames, lo + n - 1 first: each is inserted at the head. */
  function Downward(lo: nat, n: nat): (r: seq<nat>)
    ensures |r| == n && (forall i :: 0 <= i < n ==> r[i] == lo + n - 1 - i)
    ensures forall f: nat :: f in r <==> lo <= f < lo + n
  {
    if n == 0 then [] else [lo + n - 1] + Downward(lo, n - 1)
  }

  /** The free frame list initialize_paging leaves: extended memory, then base memory. */
  function BootFree(count: nat, end: nat): seq<nat>
    requires end <= count
  {
    Downward(end, count - end) + Downward(3, IO_FRAME - 3)
  }

  /** The window at KERNEL_BASE: every frame up to the end of the kernel, in order. */
  function Window(end: nat): map<Slot, nat> {
    map p: nat | KERNEL_PAGE <= p < KERNEL_PAGE + end :: Slot(SHARED_SPACE, p) := p - KERNEL_PAGE
  }

  /** Other entries of boot_map_range, for the kernel stack and the environments: shared slots below the window, kernel frames. */
  predicate Fixtures(fixed: map<Slot, nat>, end: nat) {
    forall s :: s in fixed ==> s.space == SHARED_SPACE && s.page < KERNEL_PAGE && EXTENDED_FRAME <= fixed[s] < end
  }

  /** Memory as initialize_kernel_VM and initialize_paging leave it. */
  ghost function Booted(count: nat, end: nat, fixed: map<Slot, nat>): Memory
    requires end <= count
  {
    Memory(seq(count, f requires 0 <= f < count => if InUse(f, end) then 1 else 0), seq(count, _ => 0),
           BootFree(count, end), map[], (set f: nat | f < count && InUse(f, end)), fixed + Window(end))
  }

  lemma BootFreeIs(count: nat, end: nat)
    requires EXTENDED_FRAME <= end <= count
    ensures RR.NoRepeats(BootFree(count, end))
    ensures forall f: nat :: f in BootFree(count, end) <==> f < count && !InUse(f, end)
    ensures |BootFree(count, end)| == count - end + IO_FRAME - 3
  {
  }

  /** The counts are exact when the kernel starts. */
  lemma BootedIsExact(count: nat, end: nat, fixed: map<Slot, nat>)
    requires EXTENDED_FRAME <= end <= count && Fixtures(fixed, end)
    ensures Exact(Booted(count, end, fixed), {}) && WellFormed(Booted(count, end, fixed))
  {
    var m := Booted(count, end, fixed);
    BootFreeIs(count, end);
    hide BootFree, RR.NoRepeats, InUse;
    assert forall f: nat :: Mapping(m, f) == {};
    assert forall s :: s in m.boot ==> s.space == SHARED_SPACE && m.boot[s] < count;
  }

  /** The free list is in strictly descending order: the highest frame is handed out first, base memory last. */
  lemma BootFreeDescends(count: nat, end: nat)
    requires EXTENDED_FRAME <= end <= count
    ensures forall i, j :: 0 <= i < j < |BootFree(count, end)| ==> BootFree(count, end)[j] < BootFree(count, end)[i]
    ensures forall f: nat :: f in BootFree(count, end) <==> 0x3000 <= f * 4096 < 0xA_0000 || end <= f < count
  {
    BootFreeIs(count, end);
  }

  /** Base memory, from 0x3000 to 0xA_0000, is free and yet mapped at 0xF000_0000: each frame has count 0 and one entry. */
  lemma BaseMemoryIsMapped(count: nat, end: nat, fixed: map<Slot, nat>, f: nat)
    requires EXTENDED_FRAME <= end <= count && Fixtures(fixed, end) && 0x3000 <= f * 4096 < 0xA_0000
    ensures var m := Booted(count, end, fixed);
      && f in m.free && m.refs[f] == 0 && Entries(m, f) == {Slot(SHARED_SPACE, (0xF000_0000 + f * 4096) / 4096)}
  {
    var m := Booted(count, end, fixed);
    BootFreeIs(count, end);
    hide BootFree, RR.NoRepeats;
    assert forall s :: s in m.boot && m.boot[s] == f <==> s == Slot(SHARED_SPACE, KERNEL_PAGE + f);
    assert EntryNames(m, Slot(SHARED_SPACE, KERNEL_PAGE + f), f);
    assert Mapping(m, f) == {};
    assert BootMapping(m, f) == {Slot(SHARED_SPACE, KERNEL_PAGE + f)};
  }

  /** A frame of base memory that is handed out and mapped counts once and has two entries. */
  lemma BaseMemoryCountsShort(m: Memory, s: Slot, va: nat, perm: nat)
    requires Exact(m, {}) && m.free != [] && Empty(m, s) && |BootMapping(m, m.free[0])| == 1
    ensures var f, r := m.free[0], MapNew(m, s, va, perm);
      && f < |r.refs| && r.refs[f] == 1 && |Entries(r, f)| == 2
  {
    var f := m.free[0];
    MapNewKeeps(m, s, va, perm);
    var r := MapNew(m, s, va, perm);
    assert f in m.free;
    assert BootMapping(r, f) == BootMapping(m, f);
    CountsAndBoot(r, {}, f);
  }

  lemma PageOf(page: nat)
    ensures 0 < PAGE_SIZE && Base(page) / PAGE_SIZE == page && Base(page) + PAGE_SIZE == Base(page + 1)
  {
  }

  class FrameTable {
    const refs: array<nat>        // frames_info[i].references
    const va: array<nat>          // frames_info[i].va
    ghost const reserved: set<nat>
    var free: seq<nat>            // free_frame_list
    var ptes: map<Slot, Pte>      // entries made by map_frame
    var boot: map<Slot, nat>      // entries made by boot_map_range

    ghost function View(): Memory
      reads this, refs, va
    {
      Memory(refs[..], va[..], free, ptes, reserved, boot)
    }

    lemma ViewFree()
      ensures View().free == free
    {
    }

    ghost function Repr(): set<object> {
      {this, refs, va}
    }

    /** initialize_kernel_VM and initialize_paging; `end` is the first frame past the kernel */
    constructor (count: nat, end: nat, fixed: map<Slot, nat>)
      requires EXTENDED_FRAME <= end <= count && Fixtures(fixed, end)
      ensures fresh(refs) && fresh(va) && refs != va
      ensures View() == Booted(count, end, fixed) && Exact(View(), {})
    {
      refs := new nat[count](i => if 0 <= i && InUse(i, end) then 1 else 0);
      va := new nat[count](_ => 0);
      reserved := set f: nat | f < count && InUse(f, end);
      ptes, boot := map[], fixed + Window(end);
      free := [];
      new;
      FreeFrames(3, IO_FRAME - 3);
      FreeFrames(end, count - end);
      BootedIsExact(count, end, fixed);
      assert refs[..] == Booted(count, end, fixed).refs && va[..] == Booted(count, end, fixed).va;
    }

    /** LIST_INSERT_HEAD on each of n frames from lo on. */
    method FreeFrames(lo: nat, n: nat)
      modifies `free
      ensures free == Downward(lo, n) + old(free)
    {
      for i := 0 to n
        invariant free == Downward(lo, i) + old(free)
      {
        free := [lo + i] + free;
      }
    }

    /** allocate_frame, when a frame is free */
    method Allocate() returns (f: nat)
      requires refs != va && WellFormed(View()) && free != []
      modifies Repr()
      ensures old(free[0] < |View().refs| == |View().va|) && f == old(free[0])
      ensures View() == AllocateFrame(old(View())) && WellFormed(View())
    {
      assert free[0] in free && forall g :: g in free[1..] ==> g in free;
      f := free[0];
      free := free[1..];
      refs[f], va[f] := 0, 0;
    }

    /** decrement_references, and free_frame when the count reaches 0 */
    method Decrement(f: nat)
      requires refs != va && f < refs.Length == va.Length
      modifies Repr()
      ensures View() == DecrementReferences(old(View()), f)
    {
      refs[f] := (refs[f] - 1) % COUNT_LIMIT;
      if refs[f] == 0 {
        va[f] := 0;
        free := [f] + free;
      }
    }

    /** unmap_frame */
    method Unmap(s: Slot)
      requires refs != va && WellFormed(View())
      modifies Repr()
      ensures View() == UnmapFrame(old(View()), s)
    {
      if s in ptes {
        Decrement(ptes[s].frame);
        ptes := ptes - {s};
      } else if s in boot {
        Decrement(boot[s]);
        boot := boot - {s};
      }
    }

    /** map_frame */
    method Map(s: Slot, f: nat, a: nat, perm: nat)
      requires refs != va && WellFormed(View()) && f < refs.Length
      modifies Repr()
      ensures View() == MapFrame(old(View()), s, f, a, perm)
    {
      if s in ptes || s in boot {
        if (s in ptes && ptes[s].frame == f) || (s in boot && boot[s] == f) {
          return;
        }
        Unmap(s);
      }
      refs[f] := (refs[f] + 1) % COUNT_LIMIT;
      va[f] := a;
      ptes := ptes[s := Pte(f, perm)];
    }

    /** One turn of an allocation loop: a new frame at slot s. */
    method MapNewFrame(s: Slot, a: nat, perm: nat)
      requires refs != va && WellFormed(View()) && free != []
      modifies Repr()
      ensures View() == MapNew(old(View()), s, a, perm)
    {
      hide WellFormed, AllocateFrame, MapFrame;
      var f := Allocate();
      Map(s, f, a, perm);
    }

    /** The allocation loop: a new frame for each of n pages from address a on. */
    method MapPages(space: nat, a: nat, n: nat, perm: nat)
      requires refs != va && WellFormed(View()) && n <= |free| && Aligned(a)
      modifies Repr()
      ensures View() == MapNewRange(old(View()), space, a / PAGE_SIZE, n, perm)
    {
      ghost var was, page := View(), a / PAGE_SIZE;
      var tmp := a;
      assert tmp == Base(page + 0) && n <= |was.free| && MapNewRange(was, space, page, 0, perm) == was;
      hide *;
      for i := 0 to n
        invariant tmp == Base(page + i)
        invariant refs != va && WellFormed(View()) && View() == MapNewRange(was, space, page, i, perm)
      {
        MapPage(was, space, page, i, tmp, perm);
        PageOf(page + i);
        tmp := tmp + PAGE_SIZE;
      }
    }

    /** One turn of it: page i of the range. */
    method MapPage(ghost was: Memory, space: nat, ghost page: nat, ghost i: nat, tmp: nat, perm: nat)
      requires refs != va && WellFormed(View()) && WellFormed(was) && i < |was.free| && tmp == Base(page + i)
      requires View() == MapNewRange(was, space, page, i, perm)
      modifies Repr()
      ensures WellFormed(View()) && View() == MapNewRange(was, space, page, i + 1, perm)
    {
      hide *;
      PageOf(page + i);
      MapNewRangeNext(was, space, page, i, perm);
      ViewFree();
      MapNewFrame(Slot(space, tmp / PAGE_SIZE), tmp, perm);
    }

    /** The loop of kfree and freeSharedObject. */
    method UnmapPages(space: nat, a: nat, n: nat)
      requires refs != va && WellFormed(View()) && Aligned(a)
      modifies Repr()
      ensures View() == UnmapRange(old(View()), space, a / PAGE_SIZE, n)
    {
      ghost var was, page := View(), a / PAGE_SIZE;
      var tmp := a;
      assert tmp == Base(page + 0) && UnmapRange(was, space, page, 0) == was;
      hide *;
      for i := 0 to n
        invariant tmp == Base(page + i)
        invariant refs != va && WellFormed(View()) && View() == UnmapRange(was, space, page, i)
      {
        UnmapPage(was, space, page, i, tmp);
        PageOf(page + i);
        tmp := tmp + PAGE_SIZE;
      }
    }

    /** One turn of it: page i of the range. */
    method UnmapPage(ghost was: Memory, space: nat, ghost page: nat, ghost i: nat, tmp: nat)
      requires refs != va && WellFormed(View()) && WellFormed(was) && tmp == Base(page + i)
      requires View() == UnmapRange(was, space, page, i)
      modifies Repr()
      ensures WellFormed(View()) && View() == UnmapRange(was, space, page, i + 1)
    {
      hide *;
      PageOf(page + i);
      UnmapRangeNext(was, space, page, i);
      Unmap(Slot(space, tmp / PAGE_SIZE));
    }
  }
}
