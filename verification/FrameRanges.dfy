/**
 Mapping and unmapping runs of consecutive pages, as kmalloc, kfree,
 createSharedObject, getSharedObject and freeSharedObject do page by page.
 */
module FrameRanges {
  import RR = RoundRobin
  import opened Blocks
  import opened Frames

  /** The address of a page. */
  function Base(page: nat): nat {
    page * PAGE_SIZE
  }

  /** A new frame for each of n pages from `page` on. */
  function MapNewRange(m: Memory, space: nat, page: nat, n: nat, perm: nat): (r: Memory)
    requires WellFormed(m) && n <= |m.free|
    ensures WellFormed(r) && |m.free| - n <= |r.free|
  {
    if n == 0 then m
    else MapNew(MapNewRange(m, space, page, n - 1, perm), Slot(space, page + n - 1), Base(page + n - 1), perm)
  }

  function UnmapRange(m: Memory, space: nat, page: nat, n: nat): (r: Memory)
    requires WellFormed(m)
    ensures WellFormed(r) && |r.refs| == |m.refs|
  {
    if n == 0 then m else UnmapFrame(UnmapRange(m, space, page, n - 1), Slot(space, page + n - 1))
  }

  predicate InRange(s: Slot, space: nat, page: nat, n: nat) {
    s.space == space && page <= s.page < page + n
  }

  ghost predicate Unmapped(m: Memory, space: nat, page: nat, n: nat) {
    forall s: Slot :: InRange(s, space, page, n) ==> Empty(m, s)
  }

  /** What MapNewRange leaves: page i gets the i-th free frame, and nothing else moves. */
  ghost predicate MappedNew(m: Memory, r: Memory, space: nat, page: nat, n: nat, perm: nat)
    requires n <= |m.free| && WellFormed(m) && WellFormed(r)
  {
    && |r.refs| == |m.refs| && r.reserved == m.reserved && r.boot == m.boot
    && r.free == m.free[n..]
    && (forall s: Slot :: s in r.ptes <==> s in m.ptes || InRange(s, space, page, n))
    && (forall s: Slot :: s in m.ptes && s in r.ptes ==> r.ptes[s] == m.ptes[s])
    && (forall i: nat :: i < n && Slot(space, page + i) in r.ptes ==>
          var f := m.free[i];
          && f < |m.refs| && r.ptes[Slot(space, page + i)] == Pte(f, perm)
          && r.refs[f] == 1 && r.va[f] == Base(page + i))
    && (forall f: nat :: f < |m.refs| && f !in m.free[..n] ==> r.refs[f] == m.refs[f] && r.va[f] == m.va[f])
  }

  /** A new frame in an empty slot. */
  lemma MapNewKeeps(m: Memory, s: Slot, va: nat, perm: nat)
    requires Exact(m, {}) && m.free != [] && Empty(m, s)
    ensures WellFormed(m) && m.free[0] < |m.refs|
    ensures var r := MapNew(m, s, va, perm);
      && Exact(r, {})
      && r == m.(refs := m.refs[m.free[0] := 1], va := m.va[m.free[0] := va], free := m.free[1..],
                 ptes := m.ptes[s := Pte(m.free[0], perm)])
  {
    ExactIsWellFormed(m, {});
    AllocateKeeps(m, {});
    var f := m.free[0];
    var a := AllocateFrame(m);
    EnterKeepsIff(a, {} + {f}, s, f, va, perm);
    assert {} + {f} - {f} == {};
  }

  lemma Prefix(q: seq<nat>, k: nat)
    requires k < |q| && RR.NoRepeats(q)
    ensures q[k..] != [] && q[k..][0] == q[k] && q[k..][1..] == q[k + 1..]
    ensures q[k] !in q[..k] && forall x: nat :: x in q[..k + 1] <==> x in q[..k] || x == q[k]
  {
    assert q[..k + 1] == q[..k] + [q[k]];
  }

  lemma MappedNewStep(m: Memory, t: Memory, r: Memory, space: nat, page: nat, k: nat, perm: nat)
    requires k < |m.free| && WellFormed(m) && WellFormed(t) && WellFormed(r) && RR.NoRepeats(m.free)
    requires MappedNew(m, t, space, page, k, perm) && m.free[k] < |m.refs|
    requires var f := m.free[k];
      r == t.(refs := t.refs[f := 1], va := t.va[f := Base(page + k)], free := t.free[1..],
              ptes := t.ptes[Slot(space, page + k) := Pte(f, perm)])
    requires Empty(m, Slot(space, page + k))
    ensures MappedNew(m, r, space, page, k + 1, perm)
  {
    Prefix(m.free, k);
    forall i: nat | i < k
      ensures m.free[i] in m.free[..k] && m.free[i] != m.free[k]
    {
      assert m.free[..k][i] == m.free[i];
    }
    forall s: Slot
      ensures InRange(s, space, page, k + 1) <==> InRange(s, space, page, k) || s == Slot(space, page + k)
    {
    }
    hide WellFormed, RR.NoRepeats, InRange;
  }

  lemma FreeHead(m: Memory, k: nat)
    requires Exact(m, {}) && k < |m.free|
    ensures WellFormed(m) && m.free[k] < |m.refs| && RR.NoRepeats(m.free)
    ensures m.free[k..] != [] && m.free[k..][0] == m.free[k]
  {
    assert m.free[k] in m.free;
  }

  lemma MappedNewFacts(m: Memory, t: Memory, space: nat, page: nat, k: nat, perm: nat)
    requires k <= |m.free| && WellFormed(m) && WellFormed(t) && MappedNew(m, t, space, page, k, perm)
    requires Empty(m, Slot(space, page + k))
    ensures t.free == m.free[k..] && Empty(t, Slot(space, page + k))
  {
  }

  lemma MappedNewNone(m: Memory, space: nat, page: nat, perm: nat)
    requires WellFormed(m)
    ensures MappedNew(m, m, space, page, 0, perm)
  {
  }

  lemma UnmappedShorter(m: Memory, space: nat, page: nat, n: nat)
    requires Unmapped(m, space, page, n) && n > 0
    ensures Unmapped(m, space, page, n - 1) && Empty(m, Slot(space, page + n - 1))
  {
  }

  lemma MapNewRangeNext(m: Memory, space: nat, page: nat, k: nat, perm: nat)
    requires WellFormed(m) && k < |m.free|
    ensures var t := MapNewRange(m, space, page, k, perm);
      t.free != [] && MapNewRange(m, space, page, k + 1, perm) == MapNew(t, Slot(space, page + k), Base(page + k), perm)
  {
  }

  /** New frames for a run of unmapped pages. */
  lemma {:induction false} MapNewRangeKeeps(m: Memory, space: nat, page: nat, n: nat, perm: nat)
    requires Exact(m, {}) && n <= |m.free| && Unmapped(m, space, page, n)
    ensures WellFormed(m)
    ensures Exact(MapNewRange(m, space, page, n, perm), {})
    ensures MappedNew(m, MapNewRange(m, space, page, n, perm), space, page, n, perm)
  {
    ExactIsWellFormed(m, {});
    if n == 0 {
      MappedNewNone(m, space, page, perm);
    } else {
      hide *;
      var k := n - 1;
      MapNewRangeNext(m, space, page, k, perm);
      UnmappedShorter(m, space, page, n);
      MapNewRangeKeeps(m, space, page, k, perm);
      var t := MapNewRange(m, space, page, k, perm);
      FreeHead(m, k);
      MappedNewFacts(m, t, space, page, k, perm);
      MapNewKeeps(t, Slot(space, page + k), Base(page + k), perm);
      MappedNewStep(m, t, MapNewRange(m, space, page, n, perm), space, page, k, perm);
    }
  }

  // ----- unmapping -----

  /** Every page of the range is mapped, no two to the same frame. */
  ghost predicate OwnFrames(m: Memory, space: nat, page: nat, n: nat) {
    && (forall s: Slot :: InRange(s, space, page, n) ==> s in m.ptes)
    && (forall s: Slot, t: Slot :: InRange(s, space, page, n) && InRange(t, space, page, n) && s != t ==>
          m.ptes[s].frame != m.ptes[t].frame)
  }

  /** How many of the n pages have a frame no other slot names. */
  ghost function Singles(m: Memory, space: nat, page: nat, n: nat): nat
    requires WellFormed(m)
  {
    if n == 0 then 0
    else
      var s := Slot(space, page + n - 1);
      Singles(m, space, page, n - 1) + if s in m.ptes && m.refs[m.ptes[s].frame] == 1 then 1 else 0
  }

  /** f is the frame of one of the n pages. */
  ghost predicate Names(m: Memory, space: nat, page: nat, n: nat, f: nat) {
    exists s: Slot :: InRange(s, space, page, n) && s in m.ptes && m.ptes[s].frame == f
  }

  /** What UnmapRange leaves: each frame of the range loses one reference, the last one frees it. */
  ghost predicate Released(m: Memory, r: Memory, space: nat, page: nat, n: nat)
    requires WellFormed(m) && WellFormed(r)
  {
    && |r.refs| == |m.refs| && r.reserved == m.reserved && r.boot == m.boot
    && (forall s: Slot :: s in r.ptes <==> s in m.ptes && !InRange(s, space, page, n))
    && (forall s: Slot :: s in r.ptes && s in m.ptes ==> r.ptes[s] == m.ptes[s])
    && (forall f: nat :: f < |m.refs| && Names(m, space, page, n, f) ==> m.refs[f] == r.refs[f] + 1)
    && (forall f: nat :: f < |m.refs| && !Names(m, space, page, n, f) ==> r.refs[f] == m.refs[f])
    && (forall f: nat :: f < |m.refs| && 0 < r.refs[f] ==> r.va[f] == m.va[f])
    && |r.free| == |m.free| + Singles(m, space, page, n)
  }

  lemma MappedCounts(m: Memory, t: Slot)
    requires Exact(m, {}) && t in m.ptes
    ensures m.ptes[t].frame < |m.refs| && 0 < m.refs[m.ptes[t].frame]
  {
    assert t in Mapping(m, m.ptes[t].frame);
  }

  /** Two slots on one frame count for two. */
  lemma TwoSlots(m: Memory, s: Slot, t: Slot)
    requires Exact(m, {}) && s in m.ptes && t in m.ptes && s != t && m.ptes[s].frame == m.ptes[t].frame
    ensures m.ptes[s].frame < |m.refs| && 1 < m.refs[m.ptes[s].frame]
  {
    var a := Mapping(m, m.ptes[s].frame);
    assert s in a && t in a;
    assert |a - {s}| == |a| - 1 && t in a - {s};
  }

  lemma UnmapIs(m: Memory, s: Slot)
    requires Exact(m, {}) && s in m.ptes
    ensures WellFormed(m) && Exact(UnmapFrame(m, s), {})
    ensures var r := UnmapFrame(m, s);
      var f := m.ptes[s].frame;
      && 0 < m.refs[f] && r.refs == m.refs[f := m.refs[f] - 1]
      && r.va == (if m.refs[f] == 1 then m.va[f := 0] else m.va)
      && r.free == (if m.refs[f] == 1 then [f] + m.free else m.free)
      && r.ptes == m.ptes - {s} && r.reserved == m.reserved && r.boot == m.boot
  {
    UnmapKeeps(m, {}, s);
    assert s in Mapping(m, m.ptes[s].frame);
    assert 0 < m.refs[m.ptes[s].frame] < COUNT_LIMIT;
  }

  /**
   What map_frame leaves, entry by entry: nothing changes, permissions included,
   when the slot has the frame; otherwise the slot names it with the new
   permissions, it remembers the address and counts one more, the frame that was
   there counts one less, and no other slot changes.
   */
  lemma MapLeaves(m: Memory, s: Slot, f: nat, va: nat, perm: nat)
    requires Exact(m, {}) && WellFormed(m) && f < |m.refs| && 0 < m.refs[f] < 65535 && s !in m.boot
    ensures var r := MapFrame(m, s, f, va, perm);
      if s in m.ptes && m.ptes[s].frame == f then r == m
      else
        && r.ptes == m.ptes[s := Pte(f, perm)] && |r.refs| == |m.refs| == |r.va| && r.va[f] == va && r.refs[f] == m.refs[f] + 1
        && (forall g: nat :: g < |m.refs| && g != f ==>
              m.refs[g] == r.refs[g] + if s in m.ptes && m.ptes[s].frame == g then 1 else 0)
  {
    if s in m.ptes && m.ptes[s].frame != f {
      UnmapIs(m, s);
      assert (m.ptes - {s})[s := Pte(f, perm)] == m.ptes[s := Pte(f, perm)];
      hide UnmapFrame;
    }
    hide Exact, WellFormed;
  }

  lemma OwnShorter(m: Memory, space: nat, page: nat, n: nat)
    requires OwnFrames(m, space, page, n) && n > 0
    ensures OwnFrames(m, space, page, n - 1) && Slot(space, page + n - 1) in m.ptes
    ensures !Names(m, space, page, n - 1, m.ptes[Slot(space, page + n - 1)].frame)
    ensures forall f: nat :: Names(m, space, page, n, f) <==>
                             Names(m, space, page, n - 1, f) || f == m.ptes[Slot(space, page + n - 1)].frame
  {
    var last := Slot(space, page + n - 1);
    assert InRange(last, space, page, n);
    assert forall s: Slot :: InRange(s, space, page, n) <==> InRange(s, space, page, n - 1) || s == last;
    assert !InRange(last, space, page, n - 1);
    hide InRange;
  }

  lemma ReleasedStep(m: Memory, t: Memory, r: Memory, space: nat, page: nat, k: nat, f: nat)
    requires WellFormed(m) && WellFormed(t) && WellFormed(r) && OwnFrames(m, space, page, k + 1)
    requires Released(m, t, space, page, k) && Slot(space, page + k) in m.ptes && f == m.ptes[Slot(space, page + k)].frame
    requires 0 < t.refs[f] && r.refs == t.refs[f := t.refs[f] - 1]
    requires r.va == if t.refs[f] == 1 then t.va[f := 0] else t.va
    requires r.free == if t.refs[f] == 1 then [f] + t.free else t.free
    requires r.ptes == t.ptes - {Slot(space, page + k)} && r.reserved == t.reserved && r.boot == t.boot
    ensures Released(m, r, space, page, k + 1)
  {
    OwnShorter(m, space, page, k + 1);
    forall s: Slot
      ensures InRange(s, space, page, k + 1) <==> InRange(s, space, page, k) || s == Slot(space, page + k)
    {
    }
    SinglesNext(m, space, page, k);
    assert f < |m.refs| && t.refs[f] == m.refs[f];
    hide WellFormed, InRange, OwnFrames, Names, Singles;
    forall g: nat | g < |m.refs|
      ensures Names(m, space, page, k + 1, g) ==> m.refs[g] == r.refs[g] + 1
      ensures !Names(m, space, page, k + 1, g) ==> r.refs[g] == m.refs[g]
      ensures 0 < r.refs[g] ==> r.va[g] == m.va[g]
    {
    }
  }

  lemma SinglesNext(m: Memory, space: nat, page: nat, k: nat)
    requires WellFormed(m) && Slot(space, page + k) in m.ptes
    ensures var f := m.ptes[Slot(space, page + k)].frame;
      Singles(m, space, page, k + 1) == Singles(m, space, page, k) + if m.refs[f] == 1 then 1 else 0
  {
  }

  lemma ReleasedFacts(m: Memory, t: Memory, space: nat, page: nat, k: nat)
    requires WellFormed(m) && WellFormed(t) && Released(m, t, space, page, k) && Slot(space, page + k) in m.ptes
    ensures Slot(space, page + k) in t.ptes && t.ptes[Slot(space, page + k)] == m.ptes[Slot(space, page + k)]
  {
  }

  lemma ReleasedNone(m: Memory, space: nat, page: nat)
    requires WellFormed(m)
    ensures Released(m, m, space, page, 0)
  {
  }

  lemma UnmapRangeNext(m: Memory, space: nat, page: nat, k: nat)
    requires WellFormed(m)
    ensures UnmapRange(m, space, page, k + 1) == UnmapFrame(UnmapRange(m, space, page, k), Slot(space, page + k))
  {
  }

  /** Unmapping a run of pages, each on its own frame. */
  lemma {:induction false} UnmapRangeKeeps(m: Memory, space: nat, page: nat, n: nat)
    requires Exact(m, {}) && OwnFrames(m, space, page, n)
    ensures WellFormed(m)
    ensures Exact(UnmapRange(m, space, page, n), {})
    ensures Released(m, UnmapRange(m, space, page, n), space, page, n)
  {
    ExactIsWellFormed(m, {});
    if n == 0 {
      ReleasedNone(m, space, page);
    } else {
      hide *;
      var k := n - 1;
      UnmapRangeNext(m, space, page, k);
      OwnShorter(m, space, page, n);
      UnmapRangeKeeps(m, space, page, k);
      var t := UnmapRange(m, space, page, k);
      ReleasedFacts(m, t, space, page, k);
      UnmapIs(t, Slot(space, page + k));
      ReleasedStep(m, t, UnmapRange(m, space, page, n), space, page, k, m.ptes[Slot(space, page + k)].frame);
    }
  }

  /** Every page of the range gives one frame back exactly when no frame of it is shared. */
  lemma {:induction false} AllSingles(m: Memory, space: nat, page: nat, n: nat)
    requires WellFormed(m) && OwnFrames(m, space, page, n)
    ensures Singles(m, space, page, n) <= n
    ensures Singles(m, space, page, n) == n <==>
            forall s: Slot :: InRange(s, space, page, n) ==> m.refs[m.ptes[s].frame] == 1
  {
    if n > 0 {
      OwnShorter(m, space, page, n);
      AllSingles(m, space, page, n - 1);
      var last := Slot(space, page + n - 1);
      assert InRange(last, space, page, n);
      assert forall s: Slot :: InRange(s, space, page, n) <==> InRange(s, space, page, n - 1) || s == last;
      hide InRange, OwnFrames, WellFormed;
    }
  }

  /** When every frame of the range is shared, none goes back. */
  lemma {:induction false} NoSingles(m: Memory, space: nat, page: nat, n: nat)
    requires WellFormed(m) && OwnFrames(m, space, page, n)
    requires forall s: Slot :: InRange(s, space, page, n) ==> m.refs[m.ptes[s].frame] > 1
    ensures Singles(m, space, page, n) == 0
  {
    if n > 0 {
      OwnShorter(m, space, page, n);
      NoSingles(m, space, page, n - 1);
    }
  }
}
