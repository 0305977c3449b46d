/**
 Physical frames and page-table entries: kern/memory_manager.c.

 A slot is one entry of one page table.  Slots are keyed by address space and
 page number, so that two directories sharing a table (all directories share
 the kernel's) share its slots.  Frames have a 16-bit reference count and are
 kept on a free list.

 boot_map_range fills slots without counting them.  They are kept apart here:
 `ptes` are the entries map_frame made, `boot` those left from booting.  The
 counts are proved to be exactly the number of the former; with the latter they
 make up all entries that name a frame.
 */
module Frames {
  import RR = RoundRobin

  const COUNT_LIMIT: nat := 0x1_0000

  datatype Slot = Slot(space: nat, page: nat)

  datatype Pte = Pte(frame: nat, perm: nat)

  /** The address space of the tables all directories share. */
  const SHARED_SPACE: nat := 0

  /**
   `reserved` are the frames initialize_paging never puts on the free list,
   `boot` the frames behind the slots boot_map_range filled.
   */
  datatype Memory = Memory(refs: seq<nat>, va: seq<nat>, free: seq<nat>, ptes: map<Slot, Pte>, reserved: set<nat>,
                           boot: map<Slot, nat>)

  /** The entry is zero. */
  predicate Empty(m: Memory, s: Slot) {
    s !in m.ptes && s !in m.boot
  }

  // ----- the operations -----

  function AllocateFrame(m: Memory): Memory
    requires m.free != [] && m.free[0] < |m.refs| == |m.va|
  {
    var f := m.free[0];
    m.(refs := m.refs[f := 0], va := m.va[f := 0], free := m.free[1..])
  }

  function FreeFrame(m: Memory, f: nat): Memory
    requires f < |m.refs| == |m.va|
  {
    m.(refs := m.refs[f := 0], va := m.va[f := 0], free := [f] + m.free)
  }

  function DecrementReferences(m: Memory, f: nat): Memory
    requires f < |m.refs| == |m.va|
  {
    var r := (m.refs[f] - 1) % COUNT_LIMIT;
    if r == 0 then FreeFrame(m, f) else m.(refs := m.refs[f := r])
  }

  /** Frame numbers in page-table entries name frames. */
  predicate WellFormed(m: Memory) {
    && |m.refs| == |m.va|
    && (forall f :: f in m.free ==> f < |m.refs|)
    && (forall s :: s in m.ptes ==> m.ptes[s].frame < |m.refs|)
    && (forall s :: s in m.boot ==> m.boot[s] < |m.refs| && s !in m.ptes)
  }

  /** An entry from booting goes like any other: its frame loses a reference that was never counted. */
  function UnmapFrame(m: Memory, s: Slot): (r: Memory)
    requires WellFormed(m)
    ensures WellFormed(r)
  {
    if s in m.ptes then
      var d := DecrementReferences(m, m.ptes[s].frame);
      d.(ptes := d.ptes - {s})
    else if s in m.boot then
      var d := DecrementReferences(m, m.boot[s]);
      d.(boot := d.boot - {s})
    else m
  }

  function Enter(m: Memory, s: Slot, f: nat, va: nat, perm: nat): Memory
    requires f < |m.refs| == |m.va|
  {
    m.(refs := m.refs[f := (m.refs[f] + 1) % COUNT_LIMIT], va := m.va[f := va], ptes := m.ptes[s := Pte(f, perm)])
  }

  /** Mapping the same frame again changes nothing, not even the permissions. */
  function MapFrame(m: Memory, s: Slot, f: nat, va: nat, perm: nat): (r: Memory)
    requires WellFormed(m) && f < |m.refs|
    ensures WellFormed(r)
  {
    if EntryNames(m, s, f) then m else Enter(UnmapFrame(m, s), s, f, va, perm)
  }

  /** The entry is for that frame. */
  predicate EntryNames(m: Memory, s: Slot, f: nat) {
    (s in m.ptes && m.ptes[s].frame == f) || (s in m.boot && m.boot[s] == f)
  }

  /** allocate_frame then map_frame, as every allocation loop does for one page. */
  function MapNew(m: Memory, s: Slot, va: nat, perm: nat): (r: Memory)
    requires WellFormed(m) && m.free != []
    ensures WellFormed(r)
  {
    assert m.free[0] in m.free && forall f :: f in m.free[1..] ==> f in m.free;
    MapFrame(AllocateFrame(m), s, m.free[0], va, perm)
  }

  // ----- exact counts -----

  ghost function Mapping(m: Memory, f: nat): set<Slot> {
    set s | s in m.ptes && m.ptes[s].frame == f
  }

  ghost predicate Allocatable(m: Memory, f: nat) {
    f < |m.refs| && f !in m.reserved
  }

  /**
   Every allocatable frame's count is the number of slots map_frame gave it; the
   free list holds, once each, the frames of count 0 that are not awaiting their
   first map.
   */
  ghost predicate Exact(m: Memory, pending: set<nat>) {
    && |m.va| == |m.refs|
    && (forall s :: s in m.boot ==> s.space == SHARED_SPACE && m.boot[s] < |m.refs| && s !in m.ptes)
    && (forall s :: s in m.ptes ==> Allocatable(m, m.ptes[s].frame))
    && (forall f: nat :: Allocatable(m, f) ==> m.refs[f] == |Mapping(m, f)| < COUNT_LIMIT)
    && (forall f: nat :: f in pending ==> Allocatable(m, f) && m.refs[f] == 0)
    && RR.NoRepeats(m.free)
    && (forall f: nat :: f in m.free <==> Allocatable(m, f) && m.refs[f] == 0 && f !in pending)
  }

  lemma ExactIsWellFormed(m: Memory, pending: set<nat>)
    requires Exact(m, pending)
    ensures WellFormed(m)
    ensures forall f :: f in m.free ==> Mapping(m, f) == {}
  {
    forall f | f in m.free
      ensures Mapping(m, f) == {}
    {
      assert |Mapping(m, f)| == 0;
    }
  }

  lemma HeadOnce(q: seq<nat>)
    requires RR.NoRepeats(q) && q != []
    ensures RR.NoRepeats(q[1..]) && forall x: nat :: x in q[1..] <==> x in q && x != q[0]
  {
    assert q == [q[0]] + q[1..];
  }

  lemma PushOnce(q: seq<nat>, e: nat)
    requires RR.NoRepeats(q)
    ensures e !in q ==> RR.NoRepeats([e] + q)
    ensures forall x: nat :: x in [e] + q <==> x in q || x == e
  {
  }

  /** A free frame that is allocated becomes pending. */
  lemma AllocateKeeps(m: Memory, pending: set<nat>)
    requires Exact(m, pending) && m.free != []
    ensures m.free[0] < |m.refs| && m.free[0] !in pending && m.refs[m.free[0]] == 0
    ensures Exact(AllocateFrame(m), pending + {m.free[0]})
  {
    assert m.free[0] in m.free;
    HeadOnce(m.free);
    hide RR.NoRepeats;
    var t := AllocateFrame(m);
    forall f
      ensures Mapping(t, f) == Mapping(m, f)
    {
    }
  }

  lemma MappingAfterUnmap(m: Memory, s: Slot, f: nat)
    requires WellFormed(m) && s in m.ptes
    ensures Mapping(UnmapFrame(m, s), f) == Mapping(m, f) - {s}
    ensures m.ptes[s].frame == f ==> s in Mapping(m, f) && |Mapping(UnmapFrame(m, s), f)| == |Mapping(m, f)| - 1
  {
    assert Mapping(UnmapFrame(m, s), f) == Mapping(m, f) - {s};
  }

  /** unmap_frame keeps the counts exact; a frame goes back to the free list with its last slot. */
  lemma UnmapKeeps(m: Memory, pending: set<nat>, s: Slot)
    requires Exact(m, pending) && s !in m.boot
    ensures WellFormed(m) && Exact(UnmapFrame(m, s), pending)
    ensures UnmapFrame(m, s).boot == m.boot
    ensures UnmapFrame(m, s).free ==
            if s in m.ptes && m.refs[m.ptes[s].frame] == 1 then [m.ptes[s].frame] + m.free else m.free
  {
    ExactIsWellFormed(m, pending);
    if s in m.ptes {
      var g := m.ptes[s].frame;
      var t := UnmapFrame(m, s);
      PushOnce(m.free, g);
      hide RR.NoRepeats, WellFormed;
      forall f: nat | Allocatable(m, f)
        ensures t.refs[f] == |Mapping(t, f)| < COUNT_LIMIT
      {
        MappingAfterUnmap(m, s, f);
        assert f != g ==> Mapping(m, f) - {s} == Mapping(m, f);
      }
      assert s in Mapping(m, g) && m.refs[g] > 0;
      hide Mapping;
    }
  }

  lemma MappingAfterEnter(m: Memory, s: Slot, f: nat, va: nat, perm: nat, g: nat)
    requires WellFormed(m) && f < |m.refs| && Empty(m, s)
    ensures Mapping(Enter(m, s, f, va, perm), g) == if g == f then Mapping(m, g) + {s} else Mapping(m, g)
    ensures s !in Mapping(m, g)
  {
  }

  /** Entering a frame in an empty slot keeps the counts exact unless its 16-bit count is full. */
  lemma EnterKeepsIff(m: Memory, pending: set<nat>, s: Slot, f: nat, va: nat, perm: nat)
    requires Exact(m, pending) && Allocatable(m, f) && (f in pending || m.refs[f] > 0) && Empty(m, s)
    ensures Exact(Enter(m, s, f, va, perm), pending - {f}) <==> m.refs[f] + 1 < COUNT_LIMIT
  {
    ExactIsWellFormed(m, pending);
    var t := Enter(m, s, f, va, perm);
    forall g
      ensures |Mapping(t, g)| == |Mapping(m, g)| + if g == f then 1 else 0
    {
      MappingAfterEnter(m, s, f, va, perm, g);
    }
    hide RR.NoRepeats, Mapping, WellFormed;
    assert Allocatable(t, f) && f !in m.free;
    if m.refs[f] + 1 == COUNT_LIMIT {
      assert t.refs[f] == 0 && |Mapping(t, f)| == COUNT_LIMIT;
    } else {
      assert forall g: nat :: Allocatable(t, g) ==> t.refs[g] == |Mapping(t, g)| < COUNT_LIMIT;
    }
  }

  /** map_frame on an allocated frame keeps the counts exact, if and only if the count has room. */
  lemma MapKeepsIff(m: Memory, pending: set<nat>, s: Slot, f: nat, va: nat, perm: nat)
    requires Exact(m, pending) && Allocatable(m, f) && (f in pending || m.refs[f] > 0) && s !in m.boot
    ensures WellFormed(m)
    ensures Exact(MapFrame(m, s, f, va, perm), pending - {f}) <==>
            m.refs[f] < 65535 || (s in m.ptes && m.ptes[s].frame == f)
  {
    ExactIsWellFormed(m, pending);
    if s in m.ptes && m.ptes[s].frame == f {
      assert s in Mapping(m, f);
      assert pending - {f} == pending;
    } else {
      UnmapKeeps(m, pending, s);
      EnterKeepsIff(UnmapFrame(m, s), pending, s, f, va, perm);
    }
  }

  // ----- all entries, those from booting included -----

  ghost function BootMapping(m: Memory, f: nat): set<Slot> {
    set s | s in m.boot && m.boot[s] == f
  }

  /** Every page-table entry that names the frame. */
  ghost function Entries(m: Memory, f: nat): set<Slot>
    ensures forall s: Slot :: s in Entries(m, f) <==> EntryNames(m, s, f)
  {
    Mapping(m, f) + BootMapping(m, f)
  }

  /** A frame's count and its entries from booting make up all the entries that name it. */
  lemma CountsAndBoot(m: Memory, pending: set<nat>, f: nat)
    requires Exact(m, pending) && Allocatable(m, f)
    ensures m.refs[f] + |BootMapping(m, f)| == |Entries(m, f)|
  {
    assert Mapping(m, f) !! BootMapping(m, f);
    assert |Mapping(m, f) + BootMapping(m, f)| == |Mapping(m, f)| + |BootMapping(m, f)|;
  }

  /**
   The count is the number of all entries naming the frame, and a free frame is
   one no entry names, exactly for the frames that booting left no entry for.
   */
  lemma CountsAllIff(m: Memory, pending: set<nat>, f: nat)
    requires Exact(m, pending) && Allocatable(m, f)
    ensures m.refs[f] == |Entries(m, f)| <==> BootMapping(m, f) == {}
    ensures f in m.free ==> (Entries(m, f) == {} <==> BootMapping(m, f) == {})
    ensures BootMapping(m, f) == {} ==> (f in m.free <==> Entries(m, f) == {} && f !in pending)
  {
    CountsAndBoot(m, pending, f);
    assert |BootMapping(m, f)| == 0 <==> BootMapping(m, f) == {};
    assert Entries(m, f) == {} <==> |Entries(m, f)| == 0;
    hide Mapping, BootMapping, Entries;
  }

  // ----- a full count -----

  ghost function FirstPages(n: nat): (r: set<Slot>)
    ensures |r| == n && forall s: Slot :: s in r <==> s.space == 1 && s.page < n
  {
    if n == 0 then {} else FirstPages(n - 1) + {Slot(1, n - 1)}
  }

  /** One frame behind the first n pages of a space. */
  ghost function Spread(n: nat): Memory {
    Memory([n], [0], [], map s | s in FirstPages(n) :: Pte(0, 0), {}, map[])
  }

  /** A frame mapped 65535 times is counted exactly; one more mapping takes its count to 0 while all its slots stay. */
  lemma FullCountWraps(n: nat)
    requires n + 1 == 65536
    ensures var m := Spread(n);
      && Exact(m, {}) && WellFormed(m) && m.refs[0] == n
      && var r := MapFrame(m, Slot(2, 0), 0, 0, 0);
      |r.refs| == 1 && r.refs[0] == 0 && Slot(2, 0) in r.ptes && !Exact(r, {})
  {
    var m := Spread(n);
    assert Mapping(m, 0) == FirstPages(n);
    assert forall f: nat :: Allocatable(m, f) <==> f == 0;
    MapKeepsIff(m, {}, Slot(2, 0), 0, 0, 0);
    assert {} - {0} == {};
    hide FirstPages;
  }
}
