/** Reference counts and page-table entries over every run of the frame operations. */
module FrameRuns {
  import opened Frames
  import opened FrameTable

  datatype Op = Allocate | Map(slot: Slot, frame: nat, va: nat, perm: nat) | Unmap(slot: Slot)

  /** Memory and the frames allocated but not yet mapped. */
  datatype State = State(m: Memory, pending: set<nat>)

  /** A frame is free to allocate; a frame to map was allocated and its count has room; entries from booting stay. */
  ghost predicate Legal(s: State, op: Op) {
    match op
    case Allocate => s.m.free != []
    case Map(slot, f, _, _) =>
      && slot !in s.m.boot && Allocatable(s.m, f) && (f in s.pending || s.m.refs[f] > 0)
      && (s.m.refs[f] + 1 < COUNT_LIMIT || (slot in s.m.ptes && s.m.ptes[slot].frame == f))
    case Unmap(slot) => slot !in s.m.boot
  }

  ghost function Step(s: State, op: Op): State
    requires WellFormed(s.m) && Legal(s, op)
  {
    match op
    case Allocate =>
      assert s.m.free[0] in s.m.free;
      State(AllocateFrame(s.m), s.pending + {s.m.free[0]})
    case Map(slot, f, va, perm) => State(MapFrame(s.m, slot, f, va, perm), s.pending - {f})
    case Unmap(slot) => State(UnmapFrame(s.m, slot), s.pending)
  }

  /** t is reached from s by the operations. */
  ghost predicate Reaches(s: State, ops: seq<Op>, t: State)
    decreases |ops|
  {
    if ops == [] then s == t
    else WellFormed(s.m) && Legal(s, ops[0]) && Reaches(Step(s, ops[0]), ops[1..], t)
  }

  lemma StepKeeps(s: State, op: Op)
    requires Exact(s.m, s.pending) && WellFormed(s.m) && Legal(s, op)
    ensures Exact(Step(s, op).m, Step(s, op).pending)
    ensures Step(s, op).m.boot == s.m.boot && Step(s, op).m.reserved == s.m.reserved && |Step(s, op).m.refs| == |s.m.refs|
  {
    hide Exact;
    match op
    case Allocate => AllocateKeeps(s.m, s.pending);
    case Map(slot, f, va, perm) => MapKeepsIff(s.m, s.pending, slot, f, va, perm);
    case Unmap(slot) => UnmapKeeps(s.m, s.pending, slot);
  }

  lemma {:induction false} RunsKeepExact(s: State, ops: seq<Op>, t: State)
    requires Exact(s.m, s.pending) && Reaches(s, ops, t)
    ensures Exact(t.m, t.pending) && t.m.boot == s.m.boot && t.m.reserved == s.m.reserved && |t.m.refs| == |s.m.refs|
    decreases |ops|
  {
    if ops != [] {
      StepKeeps(s, ops[0]);
      RunsKeepExact(Step(s, ops[0]), ops[1..], t);
    }
  }

  /**
   Over every run of allocate, map, remap and unmap: a frame's count and the
   entries booting left for it make up all page-table entries naming it.  So the
   count is their number, and free means named by none, exactly for the frames
   booting left no entry for.
   */
  lemma RunsCountEntries(s: State, ops: seq<Op>, t: State, f: nat)
    requires Exact(s.m, s.pending) && Reaches(s, ops, t) && Allocatable(s.m, f)
    ensures f < |t.m.refs| && t.m.refs[f] + |BootMapping(s.m, f)| == |Entries(t.m, f)|
    ensures t.m.refs[f] == |Entries(t.m, f)| <==> BootMapping(s.m, f) == {}
    ensures f in t.m.free ==> (Entries(t.m, f) == {} <==> BootMapping(s.m, f) == {})
    ensures BootMapping(s.m, f) == {} ==> (f in t.m.free <==> Entries(t.m, f) == {} && f !in t.pending)
  {
    RunsKeepExact(s, ops, t);
    CountsAndBoot(t.m, t.pending, f);
    CountsAllIff(t.m, t.pending, f);
    assert BootMapping(t.m, f) == BootMapping(s.m, f);
  }

  /** The same from the start of the kernel: the frames with an uncounted entry are those of base memory. */
  lemma BootRunsCountEntries(count: nat, end: nat, fixed: map<Slot, nat>, ops: seq<Op>, t: State, f: nat)
    requires EXTENDED_FRAME <= end <= count && Fixtures(fixed, end) && f < count && !InUse(f, end)
    requires Reaches(State(Booted(count, end, fixed), {}), ops, t)
    ensures f < |t.m.refs| && |Entries(t.m, f)| == t.m.refs[f] + if f * 4096 < 0xA_0000 then 1 else 0
  {
    var m := Booted(count, end, fixed);
    BootedIsExact(count, end, fixed);
    BootEntries(count, end, fixed, f);
    hide Booted, Reaches;
    RunsCountEntries(State(m, {}), ops, t, f);
  }

  lemma BootEntries(count: nat, end: nat, fixed: map<Slot, nat>, f: nat)
    requires EXTENDED_FRAME <= end <= count && Fixtures(fixed, end) && f < count && !InUse(f, end)
    ensures Allocatable(Booted(count, end, fixed), f)
    ensures |BootMapping(Booted(count, end, fixed), f)| == if f < IO_FRAME then 1 else 0
  {
    var m := Booted(count, end, fixed);
    if f < IO_FRAME {
      BaseMemoryIsMapped(count, end, fixed, f);
      assert BootMapping(m, f) == {Slot(SHARED_SPACE, KERNEL_PAGE + f)};
    } else {
      assert BootMapping(m, f) == {};
    }
  }
}
