/**
 What creating, mapping and deleting a shared object does to memory.

 An object keeps its data frames in a two-level store built like a page table:
 one kernel page for the directory and one for every 1024 frames.  Kernel pages
 come from kmalloc(PAGE_SIZE); which page it picks is a parameter here.
 */
module SharesMemory {
  import RR = RoundRobin
  import opened Blocks
  import opened Frames
  import opened FrameRanges
  import opened FrameTable
  import K = KernelHeapSpec

  const TABLE_ENTRIES: nat := 1024

  /** Kernel pages a store of n frames needs besides its directory. */
  function TableCount(n: nat): nat {
    (n + TABLE_ENTRIES - 1) / TABLE_ENTRIES
  }

  function KernelPage(page: nat): Slot {
    Slot(K.KERNEL, page)
  }

  function TakeKernelPage(m: Memory, page: nat): (r: Memory)
    requires WellFormed(m) && m.free != []
    ensures WellFormed(r)
  {
    MapNew(m, KernelPage(page), Base(page), PERM_WRITEABLE)
  }

  /** The kernel page a frame remembers. */
  function TableSlot(m: Memory, f: nat): Slot
    requires f < |m.va|
  {
    KernelPage(m.va[f] / PAGE_SIZE)
  }

  /** kfree of a one-page block, found by the address its frame remembers. */
  function DropTable(m: Memory, f: nat): (r: Memory)
    requires WellFormed(m) && f < |m.refs|
    ensures WellFormed(r)
  {
    UnmapFrame(m, TableSlot(m, f))
  }

  // ----- sets of slots gained and lost -----

  /** r is m with a new frame, counted once, behind each of the given empty slots. */
  ghost predicate Gained(m: Memory, r: Memory, slots: set<Slot>)
    requires WellFormed(m) && WellFormed(r)
  {
    && |r.refs| == |m.refs| && r.reserved == m.reserved && r.boot == m.boot
    && (forall s: Slot :: s in r.ptes <==> s in m.ptes || s in slots)
    && (forall s: Slot :: s in m.ptes && s in r.ptes ==> s !in slots && r.ptes[s] == m.ptes[s])
    && (forall s: Slot :: s in slots && s in r.ptes ==>
          var f := r.ptes[s].frame; m.refs[f] == 0 && Allocatable(m, f) && r.refs[f] == 1 && r.va[f] == Base(s.page))
    && (forall f: nat :: f < |m.refs| && 0 < m.refs[f] ==> r.refs[f] == m.refs[f] && r.va[f] == m.va[f])
    && |r.free| + |slots| == |m.free|
  }

  /** r is m without the given slots, each the only one of its frame. */
  ghost predicate Lost(m: Memory, r: Memory, slots: set<Slot>)
    requires WellFormed(m) && WellFormed(r)
  {
    && |r.refs| == |m.refs| && r.reserved == m.reserved && r.boot == m.boot
    && (forall s: Slot :: s in r.ptes <==> s in m.ptes && s !in slots)
    && (forall s: Slot :: s in m.ptes && s in r.ptes ==> r.ptes[s] == m.ptes[s])
    && (forall s: Slot :: s in slots && s in m.ptes ==> r.refs[m.ptes[s].frame] == 0)
    && (forall f: nat :: f < |m.refs| && 0 < r.refs[f] ==> r.refs[f] == m.refs[f] && r.va[f] == m.va[f])
    && (forall f: nat, s: Slot :: f < |m.refs| && r.refs[f] == 0 && s in m.ptes && m.ptes[s].frame == f ==> s in slots)
    && |r.free| == |m.free| + |slots|
  }

  lemma GainOne(m: Memory, s: Slot, perm: nat)
    requires Exact(m, {}) && m.free != [] && Empty(m, s)
    ensures WellFormed(m)
    ensures var r := MapNew(m, s, Base(s.page), perm);
      && Exact(r, {}) && Gained(m, r, {s}) && r.ptes[s].perm == perm
  {
    MapNewKeeps(m, s, Base(s.page), perm);
    assert m.free[0] in m.free;
  }

  lemma GainMoreSlot(m: Memory, t: Memory, r: Memory, a: set<Slot>, b: set<Slot>, s: Slot)
    requires WellFormed(m) && WellFormed(t) && WellFormed(r)
    requires Gained(m, t, a) && Gained(t, r, b)
    ensures s in r.ptes <==> s in m.ptes || s in a + b
    ensures s in m.ptes && s in r.ptes ==> s !in a + b && r.ptes[s] == m.ptes[s]
    ensures s in a + b && s in r.ptes ==>
              var f := r.ptes[s].frame;
              m.refs[f] == 0 && Allocatable(m, f) && r.refs[f] == 1 && r.va[f] == Base(s.page)
  {
    assert s in t.ptes <==> s in m.ptes || s in a;
    hide WellFormed, Base;
  }

  lemma GainMoreFrame(m: Memory, t: Memory, r: Memory, a: set<Slot>, b: set<Slot>, f: nat)
    requires WellFormed(m) && WellFormed(t) && WellFormed(r)
    requires Gained(m, t, a) && Gained(t, r, b) && f < |m.refs| && 0 < m.refs[f]
    ensures f < |r.refs| && r.refs[f] == m.refs[f] && r.va[f] == m.va[f]
  {
  }

  lemma GainMore(m: Memory, t: Memory, r: Memory, a: set<Slot>, b: set<Slot>)
    requires WellFormed(m) && WellFormed(t) && WellFormed(r) && a !! b
    requires Gained(m, t, a) && Gained(t, r, b)
    ensures Gained(m, r, a + b)
  {
    assert |a + b| == |a| + |b|;
    forall s: Slot {
      GainMoreSlot(m, t, r, a, b, s);
    }
    forall f: nat | f < |m.refs| && 0 < m.refs[f]
      ensures f < |r.refs| && r.refs[f] == m.refs[f] && r.va[f] == m.va[f]
    {
      GainMoreFrame(m, t, r, a, b, f);
    }
    assert |r.refs| == |m.refs| && r.reserved == m.reserved && r.boot == m.boot && |r.free| + |a + b| == |m.free|;
  }

  // ----- losing slots one after another -----

  lemma LoseOne(m: Memory, s: Slot)
    requires Exact(m, {}) && s in m.ptes && m.ptes[s].frame < |m.refs| && m.refs[m.ptes[s].frame] == 1
    ensures WellFormed(m)
    ensures Exact(UnmapFrame(m, s), {}) && Lost(m, UnmapFrame(m, s), {s})
  {
    UnmapIs(m, s);
    var f := m.ptes[s].frame;
    forall t: Slot | t in m.ptes && m.ptes[t].frame == f
      ensures t == s
    {
      OnlySlot(m, s, t);
    }
    forall t: Slot | t in m.ptes
      ensures 0 < m.refs[m.ptes[t].frame]
    {
      assert t in Mapping(m, m.ptes[t].frame);
    }
    hide Exact;
  }

  /** A frame counted once has one slot. */
  lemma OnlySlot(m: Memory, s: Slot, t: Slot)
    requires Exact(m, {}) && s in m.ptes && t in m.ptes && m.ptes[s].frame == m.ptes[t].frame
    requires m.ptes[s].frame < |m.refs| && m.refs[m.ptes[s].frame] == 1
    ensures s == t
  {
    var a := Mapping(m, m.ptes[s].frame);
    assert s in a && t in a && |a| == 1;
    assert |a - {s}| == 0;
    assert t !in a - {s};
  }

  lemma LoseMoreSlot(m: Memory, t: Memory, r: Memory, a: set<Slot>, b: set<Slot>, s: Slot)
    requires WellFormed(m) && WellFormed(t) && WellFormed(r)
    requires Lost(m, t, a) && Lost(t, r, b)
    ensures s in r.ptes <==> s in m.ptes && s !in a + b
    ensures s in m.ptes && s in r.ptes ==> r.ptes[s] == m.ptes[s]
    ensures s in a + b && s in m.ptes ==> r.refs[m.ptes[s].frame] == 0
  {
    assert s in t.ptes <==> s in m.ptes && s !in a;
  }

  lemma LoseMoreFrame(m: Memory, t: Memory, r: Memory, a: set<Slot>, b: set<Slot>, f: nat)
    requires WellFormed(m) && WellFormed(t) && WellFormed(r)
    requires Lost(m, t, a) && Lost(t, r, b) && f < |m.refs|
    ensures |r.refs| == |m.refs|
    ensures 0 < r.refs[f] ==> r.refs[f] == m.refs[f] && r.va[f] == m.va[f]
    ensures r.refs[f] == 0 ==> forall s: Slot :: s in m.ptes && m.ptes[s].frame == f ==> s in a + b
  {
    forall s: Slot | r.refs[f] == 0 && s in m.ptes && m.ptes[s].frame == f
      ensures s in a + b
    {
      assert s !in a ==> s in t.ptes && t.ptes[s] == m.ptes[s];
    }
  }

  lemma LoseMore(m: Memory, t: Memory, r: Memory, a: set<Slot>, b: set<Slot>)
    requires WellFormed(m) && WellFormed(t) && WellFormed(r) && a !! b
    requires Lost(m, t, a) && Lost(t, r, b)
    ensures Lost(m, r, a + b)
  {
    assert |a + b| == |a| + |b|;
    forall s: Slot {
      LoseMoreSlot(m, t, r, a, b, s);
    }
    forall f: nat | f < |m.refs|
      ensures |r.refs| == |m.refs|
      ensures 0 < r.refs[f] ==> r.refs[f] == m.refs[f] && r.va[f] == m.va[f]
      ensures r.refs[f] == 0 ==> forall s: Slot :: s in m.ptes && m.ptes[s].frame == f ==> s in a + b
    {
      LoseMoreFrame(m, t, r, a, b, f);
    }
    assert r.reserved == m.reserved && r.boot == m.boot && |r.free| == |m.free| + |a + b|;
  }

  // ----- growing: what was mapped stays, each new slot has a new frame -----

  ghost function Fresh(m: Memory, r: Memory): set<Slot> {
    set s | s in r.ptes && s !in m.ptes
  }

  ghost predicate Grew(m: Memory, r: Memory) {
    WellFormed(m) && WellFormed(r) && Exact(m, {}) && Exact(r, {}) && Gained(m, r, Fresh(m, r))
  }

  lemma GrewNone(m: Memory)
    requires Exact(m, {})
    ensures WellFormed(m) && Grew(m, m)
  {
    ExactIsWellFormed(m, {});
    assert Fresh(m, m) == {};
  }

  lemma GrewMore(m: Memory, t: Memory, r: Memory)
    requires Grew(m, t) && Grew(t, r)
    ensures Grew(m, r)
  {
    hide Exact, WellFormed, Allocatable;
    FreshMore(m, t, r);
    GainMore(m, t, r, Fresh(m, t), Fresh(t, r));
  }

  lemma FreshMore(m: Memory, t: Memory, r: Memory)
    requires WellFormed(m) && WellFormed(t) && WellFormed(r)
    requires Gained(m, t, Fresh(m, t)) && Gained(t, r, Fresh(t, r))
    ensures Fresh(m, t) !! Fresh(t, r) && Fresh(m, r) == Fresh(m, t) + Fresh(t, r)
  {
    hide Gained, WellFormed;
    GainedKeys(m, t, Fresh(m, t));
    GainedKeys(t, r, Fresh(t, r));
  }

  lemma GainedKeys(m: Memory, r: Memory, slots: set<Slot>)
    requires WellFormed(m) && WellFormed(r) && Gained(m, r, slots)
    ensures forall s: Slot :: s in r.ptes <==> s in m.ptes || s in slots
  {
  }

  /** A new frame in an empty slot. */
  lemma GrowOne(m: Memory, s: Slot, perm: nat)
    requires Exact(m, {}) && m.free != [] && Empty(m, s)
    ensures WellFormed(m)
    ensures var r := MapNew(m, s, Base(s.page), perm);
      && Grew(m, r) && |r.free| == |m.free| - 1
      && forall t: Slot :: t in r.ptes <==> t in m.ptes || t == s
  {
    GainOne(m, s, perm);
    var r := MapNew(m, s, Base(s.page), perm);
    assert forall t: Slot :: t in r.ptes <==> t in m.ptes || t in {s};
    assert Fresh(m, r) == {s};
    hide Exact, MapNew;
  }

  // ----- page tables -----

  /** Directory index of a page. */
  function Directory(p: nat): nat {
    p / TABLE_ENTRIES
  }

  /** There is no table d, and kmalloc would put one on kernel page pick[d]. */
  predicate Missing(ts: map<nat, nat>, pick: map<nat, nat>, d: nat) {
    d !in ts && d in pick
  }

  function WithTable(ts: map<nat, nat>, pick: map<nat, nat>, d: nat): map<nat, nat> {
    if Missing(ts, pick, d) then ts[d := pick[d]] else ts
  }

  /** An environment's tables once the first n pages from `page` on have one. */
  function TablesAfter(ts: map<nat, nat>, pick: map<nat, nat>, page: nat, n: nat): map<nat, nat> {
    if n == 0 then ts else WithTable(TablesAfter(ts, pick, page, n - 1), pick, Directory(page + n - 1))
  }

  /** create_page_table, when there is no table d. */
  function MakeTable(m: Memory, ts: map<nat, nat>, pick: map<nat, nat>, d: nat): (r: Memory)
    requires WellFormed(m) && TableCost(ts, pick, d) <= |m.free|
    ensures WellFormed(r) && |r.refs| == |m.refs| && |m.free| - TableCost(ts, pick, d) <= |r.free|
  {
    if Missing(ts, pick, d) then
      NewFrameCount(m, KernelPage(pick[d]), Base(pick[d]), PERM_WRITEABLE);
      TakeKernelPage(m, pick[d])
    else m
  }

  function TableCost(ts: map<nat, nat>, pick: map<nat, nat>, d: nat): nat {
    if Missing(ts, pick, d) then 1 else 0
  }

  /** How many tables are new. */
  function NewTables(ts: map<nat, nat>, pick: map<nat, nat>, page: nat, n: nat): nat {
    if n == 0 then 0
    else NewTables(ts, pick, page, n - 1) + TableCost(TablesAfter(ts, pick, page, n - 1), pick, Directory(page + n - 1))
  }

  /** The first n pages from `page` on have a table, as far as `pick` goes. */
  ghost predicate Covers(us: map<nat, nat>, pick: map<nat, nat>, page: nat, n: nat) {
    forall p: nat :: page <= p < page + n && Directory(p) in pick ==> Directory(p) in us
  }

  lemma CoversMore(us: map<nat, nat>, ws: map<nat, nat>, pick: map<nat, nat>, page: nat, k: nat)
    requires Covers(us, pick, page, k) && (forall b: nat :: b in us ==> b in ws)
    requires Directory(page + k) in pick ==> Directory(page + k) in ws
    ensures Covers(ws, pick, page, k + 1)
  {
    hide Directory;
  }

  lemma {:induction false} TablesAfterAre(ts: map<nat, nat>, pick: map<nat, nat>, page: nat, n: nat)
    ensures var us := TablesAfter(ts, pick, page, n);
      && |us| == |ts| + NewTables(ts, pick, page, n)
      && (forall d: nat :: d in ts ==> d in us && us[d] == ts[d])
      && (forall d: nat :: d in us && d !in ts ==> d in pick && us[d] == pick[d])
      && Covers(us, pick, page, n)
  {
    hide *;
    if n == 0 {
      NoNewTables(ts, pick, page);
    } else {
      var k := n - 1;
      TablesAfterAre(ts, pick, page, k);
      CostStep(ts, pick, page, k);
      WithTableIs(ts, TablesAfter(ts, pick, page, k), pick, Directory(page + k));
      CoversMore(TablesAfter(ts, pick, page, k), TablesAfter(ts, pick, page, n), pick, page, k);
    }
  }

  lemma NoNewTables(ts: map<nat, nat>, pick: map<nat, nat>, page: nat)
    ensures NewTables(ts, pick, page, 0) == 0 && TablesAfter(ts, pick, page, 0) == ts && Covers(ts, pick, page, 0)
  {
  }

  lemma WithTableIs(ts: map<nat, nat>, us: map<nat, nat>, pick: map<nat, nat>, d: nat)
    requires forall b: nat :: b in ts ==> b in us && us[b] == ts[b]
    requires forall b: nat :: b in us && b !in ts ==> b in pick && us[b] == pick[b]
    ensures var ws := WithTable(us, pick, d);
      && |ws| == |us| + TableCost(us, pick, d) && (d in pick ==> d in ws)
      && (forall b: nat :: b in us ==> b in ws)
      && (forall b: nat :: b in ts ==> b in ws && ws[b] == ts[b])
      && (forall b: nat :: b in ws && b !in ts ==> b in pick && ws[b] == pick[b])
  {
    if Missing(us, pick, d) {
      MapGrows(us, d, pick[d]);
    }
  }

  lemma MapGrows(ts: map<nat, nat>, d: nat, p: nat)
    requires d !in ts
    ensures |ts[d := p]| == |ts| + 1
  {
    assert ts[d := p].Keys == ts.Keys + {d};
    assert |ts| == |ts.Keys| && |ts[d := p]| == |ts[d := p].Keys|;
  }

  /** The kernel pages of the tables that `tables` has and `left` has not. */
  ghost function TablePages(tables: map<nat, nat>, left: map<nat, nat>): set<Slot> {
    set d: nat | d in tables && d !in left :: KernelPage(tables[d])
  }

  /** The kernel pages for new tables are unmapped, all different and not among `at`. */
  ghost predicate Picks(m: Memory, pick: map<nat, nat>, at: seq<nat>) {
    && (forall d: nat :: d in pick ==> Empty(m, KernelPage(pick[d])) && pick[d] !in at)
    && (forall d: nat, c: nat :: d in pick && c in pick && d != c ==> pick[d] != pick[c])
  }

  // ----- filling and emptying an object's store -----

  lemma TableCountStep(k: nat)
    ensures k % TABLE_ENTRIES == 0 ==> TableCount(k) == k / TABLE_ENTRIES && TableCount(k + 1) == TableCount(k) + 1
    ensures k % TABLE_ENTRIES != 0 ==> TableCount(k + 1) == TableCount(k)
  {
  }

  lemma MapFrameCount(m: Memory, s: Slot, f: nat, va: nat, perm: nat)
    requires WellFormed(m) && f < |m.refs|
    ensures var r := MapFrame(m, s, f, va, perm); |m.free| <= |r.free| && |r.refs| == |m.refs|
  {
  }

  lemma NewFrameCount(m: Memory, s: Slot, va: nat, perm: nat)
    requires WellFormed(m) && m.free != []
    ensures |m.free| - 1 <= |MapNew(m, s, va, perm).free| && |MapNew(m, s, va, perm).refs| == |m.refs|
  {
    assert m.free[0] in m.free && forall f :: f in m.free[1..] ==> f in m.free;
    MapFrameCount(AllocateFrame(m), s, m.free[0], va, perm);
  }

  /** Frames one turn of the loop of createSharedObject takes. */
  function StoreCost(ts: map<nat, nat>, pick: map<nat, nat>, page: nat, k: nat): nat {
    1 + TableCost(ts, pick, Directory(page + k)) + if k % TABLE_ENTRIES == 0 then 1 else 0
  }

  /**
   One turn of the loop of createSharedObject: a frame for page k, a kernel page
   when the environment has no table there, and one when the store needs a table.
   */
  function StoreOne(m: Memory, ts: map<nat, nat>, pick: map<nat, nat>, space: nat, page: nat, k: nat, at: seq<nat>): (r: Memory)
    requires WellFormed(m) && StoreCost(ts, pick, page, k) <= |m.free| && TableCount(k + 1) <= |at|
    ensures WellFormed(r) && |m.free| - StoreCost(ts, pick, page, k) <= |r.free|
  {
    TableCountStep(k);
    NewFrameCount(m, Slot(space, page + k), Base(page + k), PERM_WRITEABLE + PERM_USER);
    var t := MapNew(m, Slot(space, page + k), Base(page + k), PERM_WRITEABLE + PERM_USER);
    var u := MakeTable(t, ts, pick, Directory(page + k));
    if k % TABLE_ENTRIES == 0 then
      NewFrameCount(u, KernelPage(at[k / TABLE_ENTRIES]), Base(at[k / TABLE_ENTRIES]), PERM_WRITEABLE);
      TakeKernelPage(u, at[k / TABLE_ENTRIES])
    else u
  }

  lemma CostStep(ts: map<nat, nat>, pick: map<nat, nat>, page: nat, k: nat)
    ensures var us := TablesAfter(ts, pick, page, k);
      && 0 <= TableCount(k + 1) - TableCount(k) == (if k % TABLE_ENTRIES == 0 then 1 else 0)
      && NewTables(ts, pick, page, k + 1) == NewTables(ts, pick, page, k) + TableCost(us, pick, Directory(page + k))
      && StoreCost(us, pick, page, k) == 1 + TableCost(us, pick, Directory(page + k)) + TableCount(k + 1) - TableCount(k)
      && TablesAfter(ts, pick, page, k + 1) == WithTable(us, pick, Directory(page + k))
  {
    TableCountStep(k);
  }

  function StoreRange(m: Memory, ts: map<nat, nat>, pick: map<nat, nat>, space: nat, page: nat, n: nat, at: seq<nat>): (r: Memory)
    requires WellFormed(m) && n + TableCount(n) + NewTables(ts, pick, page, n) <= |m.free| && TableCount(n) <= |at|
    ensures WellFormed(r) && |m.free| <= |r.free| + (n + TableCount(n) + NewTables(ts, pick, page, n))
  {
    if n == 0 then m
    else
      CostStep(ts, pick, page, n - 1);
      hide *;
      StoreOne(StoreRange(m, ts, pick, space, page, n - 1, at), TablesAfter(ts, pick, page, n - 1), pick, space, page, n - 1, at)
  }

  /** The slots in use after k turns: the old ones, the first k pages, the first c pages of the store, the new tables. */
  ghost predicate Filled(was: Memory, m: Memory, ts: map<nat, nat>, us: map<nat, nat>, space: nat, page: nat, k: nat, at: seq<nat>, c: nat)
    requires c <= |at|
  {
    m.boot == was.boot && forall t: Slot :: t in m.ptes <==>
      t in was.ptes || InRange(t, space, page, k) || (t.space == K.KERNEL && t.page in at[..c]) || t in TablePages(us, ts)
  }

  /** What a create asks of memory. */
  ghost predicate Room(m: Memory, pick: map<nat, nat>, space: nat, page: nat, n: nat, at: seq<nat>) {
    && space != K.KERNEL && Unmapped(m, space, page, n) && Picks(m, pick, at)
    && RR.NoRepeats(at) && forall i :: 0 <= i < |at| ==> Empty(m, KernelPage(at[i]))
  }

  lemma FilledFacts(was: Memory, m: Memory, ts: map<nat, nat>, us: map<nat, nat>, pick: map<nat, nat>, space: nat, page: nat, k: nat, at: seq<nat>, c: nat, n: nat)
    requires c <= |at| && Filled(was, m, ts, us, space, page, k, at, c) && k < n && Room(was, pick, space, page, n, at)
    requires forall d: nat :: d in us && d !in ts ==> d in pick && us[d] == pick[d]
    ensures Empty(m, Slot(space, page + k)) && (c < |at| ==> Empty(m, KernelPage(at[c])) && at[c] in at)
    ensures forall d: nat :: d in pick && d !in us && d !in ts ==> Empty(m, KernelPage(pick[d]))
    ensures forall d: nat :: d in pick && c < |at| ==> pick[d] != at[c]
    ensures (forall s: Slot :: InRange(s, space, page, k) ==> s in m.ptes)
    ensures forall i :: 0 <= i < c ==> KernelPage(at[i]) in m.ptes
  {
    assert InRange(Slot(space, page + k), space, page, n);
    if c < |at| {
      assert at[c] !in at[..c];
    }
    assert forall p: nat :: p in at[..c] ==> p in at;
    assert forall i :: 0 <= i < c ==> at[i] in at[..c];
  }

  lemma FilledNone(m: Memory, ts: map<nat, nat>, space: nat, page: nat, at: seq<nat>)
    ensures Filled(m, m, ts, ts, space, page, 0, at, 0)
  {
    assert TablePages(ts, ts) == {};
  }

  lemma FilledMore(was: Memory, m: Memory, r: Memory, ts: map<nat, nat>, us: map<nat, nat>, pick: map<nat, nat>, space: nat, page: nat, k: nat, at: seq<nat>, c: nat, d: nat)
    requires c <= d <= |at| && d <= c + 1 && Filled(was, m, ts, us, space, page, k, at, c) && r.boot == m.boot
    requires forall b: nat :: b in ts ==> b in us
    requires forall t: Slot :: t in r.ptes <==>
               t in m.ptes || t == Slot(space, page + k) || (c < d && t == KernelPage(at[c])) ||
               (Missing(us, pick, Directory(page + k)) && t == KernelPage(pick[Directory(page + k)]))
    ensures Filled(was, r, ts, WithTable(us, pick, Directory(page + k)), space, page, k + 1, at, d)
  {
    if c < d {
      assert at[..d] == at[..c] + [at[c]];
    }
    var b := Directory(page + k);
    TablePagesMore(ts, us, pick, b);
    forall t: Slot
      ensures InRange(t, space, page, k + 1) <==> InRange(t, space, page, k) || t == Slot(space, page + k)
    {
    }
    hide InRange, Directory, TablePages, WithTable;
  }

  lemma TablePagesMore(ts: map<nat, nat>, us: map<nat, nat>, pick: map<nat, nat>, d: nat)
    requires forall b: nat :: b in ts ==> b in us
    ensures TablePages(WithTable(us, pick, d), ts) ==
            TablePages(us, ts) + if Missing(us, pick, d) then {KernelPage(pick[d])} else {}
  {
    var ws := WithTable(us, pick, d);
    forall t: Slot | t in TablePages(us, ts)
      ensures t in TablePages(ws, ts)
    {
      var b: nat :| b in us && b !in ts && t == KernelPage(us[b]);
      assert b in ws && ws[b] == us[b];
    }
    if Missing(us, pick, d) {
      assert d in ws && d !in ts && KernelPage(ws[d]) in TablePages(ws, ts);
    }
  }

  /** One turn takes the frames it says, and fills the slots it says. */
  lemma StoreOneGrows(m: Memory, ts: map<nat, nat>, pick: map<nat, nat>, space: nat, page: nat, k: nat, at: seq<nat>)
    requires Exact(m, {}) && WellFormed(m) && StoreCost(ts, pick, page, k) <= |m.free| && TableCount(k + 1) <= |at|
    requires space != K.KERNEL && Empty(m, Slot(space, page + k))
    requires TableCount(k) < TableCount(k + 1) ==> Empty(m, KernelPage(at[TableCount(k)]))
    requires var d := Directory(page + k);
      Missing(ts, pick, d) ==>
        Empty(m, KernelPage(pick[d])) && (TableCount(k) < TableCount(k + 1) ==> pick[d] != at[TableCount(k)])
    ensures var r := StoreOne(m, ts, pick, space, page, k, at);
      && Grew(m, r) && |r.free| == |m.free| - StoreCost(ts, pick, page, k)
      && forall t: Slot :: t in r.ptes <==>
           t in m.ptes || t == Slot(space, page + k) ||
           (TableCount(k) < TableCount(k + 1) && t == KernelPage(at[TableCount(k)])) ||
           (Missing(ts, pick, Directory(page + k)) && t == KernelPage(pick[Directory(page + k)]))
  {
    TableCountStep(k);
    hide Exact, WellFormed, Grew, MapNew, TableCount, Directory;
    var d, b := Slot(space, page + k), Directory(page + k);
    GrowOne(m, d, PERM_WRITEABLE + PERM_USER);
    var t := MapNew(m, d, Base(page + k), PERM_WRITEABLE + PERM_USER);
    GrewFacts(m, t);
    var u := MakeTable(t, ts, pick, b);
    MakeTableGrows(t, ts, pick, b);
    GrewMore(m, t, u);
    GrewFacts(m, u);
    if k % TABLE_ENTRIES == 0 {
      var e := KernelPage(at[k / TABLE_ENTRIES]);
      GrowOne(u, e, PERM_WRITEABLE);
      GrewMore(m, u, StoreOne(m, ts, pick, space, page, k, at));
    }
  }

  lemma GrewFacts(m: Memory, r: Memory)
    requires Grew(m, r)
    ensures Exact(m, {}) && Exact(r, {}) && WellFormed(m) && WellFormed(r) && Gained(m, r, Fresh(m, r))
    ensures |r.refs| == |m.refs| && r.reserved == m.reserved && r.boot == m.boot && |r.free| + |Fresh(m, r)| == |m.free|
    ensures forall s: Slot :: s in m.ptes ==> s in r.ptes && r.ptes[s] == m.ptes[s]
  {
  }

  lemma MakeTableGrows(m: Memory, ts: map<nat, nat>, pick: map<nat, nat>, d: nat)
    requires Exact(m, {}) && WellFormed(m) && TableCost(ts, pick, d) <= |m.free|
    requires Missing(ts, pick, d) ==> Empty(m, KernelPage(pick[d]))
    ensures var r := MakeTable(m, ts, pick, d);
      && Grew(m, r) && |r.free| == |m.free| - TableCost(ts, pick, d)
      && forall t: Slot :: t in r.ptes <==> t in m.ptes || (Missing(ts, pick, d) && t == KernelPage(pick[d]))
  {
    hide Exact, WellFormed, Grew, MapNew;
    if Missing(ts, pick, d) {
      GrowOne(m, KernelPage(pick[d]), PERM_WRITEABLE);
    } else {
      GrewNone(m);
    }
  }

  /** The loop of createSharedObject. */
  lemma {:induction false} StoreGrows(m: Memory, ts: map<nat, nat>, pick: map<nat, nat>, space: nat, page: nat, n: nat, at: seq<nat>)
    requires Exact(m, {}) && n + TableCount(n) + NewTables(ts, pick, page, n) <= |m.free| && TableCount(n) <= |at|
    requires Room(m, pick, space, page, n, at)
    ensures WellFormed(m)
    ensures var r := StoreRange(m, ts, pick, space, page, n, at);
      && Grew(m, r) && |r.free| == |m.free| - n - TableCount(n) - NewTables(ts, pick, page, n)
      && Filled(m, r, ts, TablesAfter(ts, pick, page, n), space, page, n, at, TableCount(n))
  {
    hide *;
    ExactIsWellFormed(m, {});
    if n == 0 {
      GrewNone(m);
      FilledNone(m, ts, space, page, at);
      StoreNone(m, ts, pick, space, page, at);
    } else {
      var k := n - 1;
      RoomShorter(m, pick, space, page, n, at);
      StoreRangeNext(m, ts, pick, space, page, k, at);
      StoreGrows(m, ts, pick, space, page, k, at);
      var t, us := StoreRange(m, ts, pick, space, page, k, at), TablesAfter(ts, pick, page, k);
      TablesAfterAre(ts, pick, page, k);
      FilledFacts(m, t, ts, us, pick, space, page, k, at, TableCount(k), n);
      GrewFacts(m, t);
      MissingIs(ts, us, pick, Directory(page + k));
      StoreOneGrows(t, us, pick, space, page, k, at);
      GrewFacts(t, StoreRange(m, ts, pick, space, page, n, at));
      GrewMore(m, t, StoreRange(m, ts, pick, space, page, n, at));
      FilledMore(m, t, StoreRange(m, ts, pick, space, page, n, at), ts, us, pick, space, page, k, at, TableCount(k), TableCount(n));
    }
  }

  lemma MissingIs(ts: map<nat, nat>, us: map<nat, nat>, pick: map<nat, nat>, d: nat)
    requires forall b: nat :: b in ts ==> b in us
    ensures Missing(us, pick, d) ==> d in pick && d !in us && d !in ts
  {
  }

  lemma RoomShorter(m: Memory, pick: map<nat, nat>, space: nat, page: nat, n: nat, at: seq<nat>)
    requires Room(m, pick, space, page, n, at) && n > 0
    ensures Room(m, pick, space, page, n - 1, at) && space != K.KERNEL
  {
    UnmappedShorter(m, space, page, n);
    hide Unmapped;
  }

  lemma StoreNone(m: Memory, ts: map<nat, nat>, pick: map<nat, nat>, space: nat, page: nat, at: seq<nat>)
    requires WellFormed(m)
    ensures TableCount(0) == 0 && NewTables(ts, pick, page, 0) == 0 && TablesAfter(ts, pick, page, 0) == ts
    ensures StoreRange(m, ts, pick, space, page, 0, at) == m
  {
  }

  lemma StoreRangeNext(m: Memory, ts: map<nat, nat>, pick: map<nat, nat>, space: nat, page: nat, k: nat, at: seq<nat>)
    requires WellFormed(m) && k + 1 + TableCount(k + 1) + NewTables(ts, pick, page, k + 1) <= |m.free| && TableCount(k + 1) <= |at|
    ensures var us := TablesAfter(ts, pick, page, k);
      && TableCount(k) <= TableCount(k + 1) <= TableCount(k) + 1 && TableCount(k + 1) - TableCount(k) == (if k % TABLE_ENTRIES == 0 then 1 else 0)
      && NewTables(ts, pick, page, k + 1) == NewTables(ts, pick, page, k) + TableCost(us, pick, Directory(page + k))
      && StoreCost(us, pick, page, k) == 1 + TableCost(us, pick, Directory(page + k)) + TableCount(k + 1) - TableCount(k)
      && TablesAfter(ts, pick, page, k + 1) == WithTable(us, pick, Directory(page + k))
      && StoreCost(us, pick, page, k) <= |StoreRange(m, ts, pick, space, page, k, at).free|
      && StoreRange(m, ts, pick, space, page, k + 1, at) ==
         StoreOne(StoreRange(m, ts, pick, space, page, k, at), us, pick, space, page, k, at)
  {
    CostStep(ts, pick, page, k);
    hide TableCount, NewTables, TableCost, StoreCost, TablesAfter, Directory, WellFormed, StoreOne;
  }

  // ----- mapping existing frames -----

  ghost predicate Mappable(m: Memory, frames: seq<nat>) {
    forall i {:trigger frames[i]} :: 0 <= i < |frames| ==>
      Allocatable(m, frames[i]) && 0 < m.refs[frames[i]] < COUNT_LIMIT - 1
  }

  predicate AreFrames(m: Memory, frames: seq<nat>) {
    forall i :: 0 <= i < |frames| ==> frames[i] < |m.refs|
  }

  /** The loop of getSharedObject. */
  function MapRange(m: Memory, space: nat, page: nat, frames: seq<nat>, n: nat, perm: nat): (r: Memory)
    requires WellFormed(m) && n <= |frames| && AreFrames(m, frames)
    ensures WellFormed(r) && |r.refs| == |m.refs|
  {
    if n == 0 then m
    else
      var t := MapRange(m, space, page, frames, n - 1, perm);
      MapFrame(t, Slot(space, page + n - 1), frames[n - 1], Base(page + n - 1), perm)
  }

  /** r is m with frames[..n] mapped once more, from `page` on. */
  ghost predicate Joined(m: Memory, r: Memory, space: nat, page: nat, frames: seq<nat>, n: nat, perm: nat)
    requires WellFormed(m) && WellFormed(r) && n <= |frames|
  {
    && |r.refs| == |m.refs| && r.reserved == m.reserved && r.boot == m.boot && r.free == m.free
    && (forall s: Slot :: s in r.ptes <==> s in m.ptes || InRange(s, space, page, n))
    && (forall s: Slot :: s in m.ptes && s in r.ptes ==> r.ptes[s] == m.ptes[s])
    && (forall s: Slot :: InRange(s, space, page, n) && s in r.ptes ==> r.ptes[s] == Pte(frames[s.page - page], perm))
    && (forall f: nat :: f < |m.refs| && f in frames[..n] ==> r.refs[f] == m.refs[f] + 1)
    && (forall f: nat :: f < |m.refs| && f !in frames[..n] ==> r.refs[f] == m.refs[f] && r.va[f] == m.va[f])
  }

  lemma JoinedNone(m: Memory, space: nat, page: nat, frames: seq<nat>, perm: nat)
    requires WellFormed(m) && AreFrames(m, frames)
    ensures Joined(m, m, space, page, frames, 0, perm) && MapRange(m, space, page, frames, 0, perm) == m
  {
  }

  lemma MapRangeNext(m: Memory, space: nat, page: nat, frames: seq<nat>, k: nat, perm: nat)
    requires WellFormed(m) && k < |frames| && AreFrames(m, frames)
    ensures frames[k] < |m.refs|
    ensures MapRange(m, space, page, frames, k + 1, perm) ==
            MapFrame(MapRange(m, space, page, frames, k, perm), Slot(space, page + k), frames[k], Base(page + k), perm)
  {
  }

  lemma MapIs(m: Memory, s: Slot, f: nat, va: nat, perm: nat)
    requires Exact(m, {}) && Empty(m, s) && Allocatable(m, f) && 0 < m.refs[f] < COUNT_LIMIT - 1
    ensures WellFormed(m)
    ensures var r := MapFrame(m, s, f, va, perm);
      && Exact(r, {})
      && r == m.(refs := m.refs[f := m.refs[f] + 1], va := m.va[f := va], ptes := m.ptes[s := Pte(f, perm)])
  {
    ExactIsWellFormed(m, {});
    EnterKeepsIff(m, {}, s, f, va, perm);
    assert {} - {f} == {};
  }

  lemma JoinedStep(m: Memory, t: Memory, r: Memory, space: nat, page: nat, frames: seq<nat>, k: nat, perm: nat)
    requires WellFormed(m) && WellFormed(t) && WellFormed(r) && k < |frames| && RR.NoRepeats(frames)
    requires Joined(m, t, space, page, frames, k, perm) && frames[k] < |m.refs|
    requires var f := frames[k];
      r == t.(refs := t.refs[f := t.refs[f] + 1], va := t.va[f := Base(page + k)],
              ptes := t.ptes[Slot(space, page + k) := Pte(f, perm)])
    requires Empty(m, Slot(space, page + k))
    ensures Joined(m, r, space, page, frames, k + 1, perm)
  {
    Prefix(frames, k);
    forall s: Slot
      ensures InRange(s, space, page, k + 1) <==> InRange(s, space, page, k) || s == Slot(space, page + k)
      ensures InRange(s, space, page, k) ==> s != Slot(space, page + k)
    {
    }
    hide WellFormed, RR.NoRepeats, InRange, Base;
  }

  lemma JoinedFacts(m: Memory, t: Memory, space: nat, page: nat, frames: seq<nat>, k: nat, perm: nat)
    requires WellFormed(m) && WellFormed(t) && k < |frames| && RR.NoRepeats(frames) && frames[k] < |m.refs|
    requires Joined(m, t, space, page, frames, k, perm) && Empty(m, Slot(space, page + k))
    ensures Empty(t, Slot(space, page + k)) && t.refs[frames[k]] == m.refs[frames[k]]
    ensures Allocatable(t, frames[k]) <==> Allocatable(m, frames[k])
  {
    Prefix(frames, k);
  }

  lemma {:induction false} MapRangeKeeps(m: Memory, space: nat, page: nat, frames: seq<nat>, n: nat, perm: nat)
    requires Exact(m, {}) && n <= |frames| && RR.NoRepeats(frames) && Unmapped(m, space, page, n)
    requires AreFrames(m, frames) && Mappable(m, frames)
    ensures WellFormed(m)
    ensures var r := MapRange(m, space, page, frames, n, perm);
      Exact(r, {}) && Joined(m, r, space, page, frames, n, perm)
  {
    hide *;
    ExactIsWellFormed(m, {});
    if n == 0 {
      JoinedNone(m, space, page, frames, perm);
    } else {
      var k := n - 1;
      MapRangeNext(m, space, page, frames, k, perm);
      UnmappedShorter(m, space, page, n);
      MapRangeKeeps(m, space, page, frames, k, perm);
      var t := MapRange(m, space, page, frames, k, perm);
      MappableAt(m, frames, k);
      JoinedFacts(m, t, space, page, frames, k, perm);
      AllocatableAt(t, frames[k]);
      MapIs(t, Slot(space, page + k), frames[k], Base(page + k), perm);
      JoinedStep(m, t, MapRange(m, space, page, frames, n, perm), space, page, frames, k, perm);
    }
  }

  // ----- mapping existing frames where tables may be missing -----

  /** The loop of getSharedObject: a table where there is none, then the stored frame. */
  function GetRange(m: Memory, ts: map<nat, nat>, pick: map<nat, nat>, space: nat, page: nat, frames: seq<nat>, n: nat, perm: nat): (r: Memory)
    requires WellFormed(m) && n <= |frames| && AreFrames(m, frames) && NewTables(ts, pick, page, n) <= |m.free|
    ensures WellFormed(r) && |r.refs| == |m.refs| && |m.free| - NewTables(ts, pick, page, n) <= |r.free|
  {
    if n == 0 then m
    else
      hide WellFormed, MakeTable, MapFrame, TableCost, TablesAfter, Directory;
      var t := GetRange(m, ts, pick, space, page, frames, n - 1, perm);
      var u := MakeTable(t, TablesAfter(ts, pick, page, n - 1), pick, Directory(page + n - 1));
      MapFrameCount(u, Slot(space, page + n - 1), frames[n - 1], Base(page + n - 1), perm);
      MapFrame(u, Slot(space, page + n - 1), frames[n - 1], Base(page + n - 1), perm)
  }

  /** The new tables of n pages, made one after another. */
  function MakeTables(m: Memory, ts: map<nat, nat>, pick: map<nat, nat>, page: nat, n: nat): (r: Memory)
    requires WellFormed(m) && NewTables(ts, pick, page, n) <= |m.free|
    ensures WellFormed(r) && |r.refs| == |m.refs| && |m.free| - NewTables(ts, pick, page, n) <= |r.free|
  {
    if n == 0 then m
    else MakeTable(MakeTables(m, ts, pick, page, n - 1), TablesAfter(ts, pick, page, n - 1), pick, Directory(page + n - 1))
  }

  lemma MakeTablesNext(m: Memory, ts: map<nat, nat>, pick: map<nat, nat>, page: nat, k: nat)
    requires WellFormed(m) && NewTables(ts, pick, page, k + 1) <= |m.free|
    ensures var us, d := TablesAfter(ts, pick, page, k), Directory(page + k);
      && NewTables(ts, pick, page, k + 1) == NewTables(ts, pick, page, k) + TableCost(us, pick, d)
      && TablesAfter(ts, pick, page, k + 1) == WithTable(us, pick, d)
      && MakeTables(m, ts, pick, page, k + 1) == MakeTable(MakeTables(m, ts, pick, page, k), us, pick, d)
  {
  }

  lemma GetRangeNext(m: Memory, ts: map<nat, nat>, pick: map<nat, nat>, space: nat, page: nat, frames: seq<nat>, k: nat, perm: nat)
    requires WellFormed(m) && k < |frames| && AreFrames(m, frames) && NewTables(ts, pick, page, k + 1) <= |m.free|
    ensures var t, us, d := GetRange(m, ts, pick, space, page, frames, k, perm), TablesAfter(ts, pick, page, k), Directory(page + k);
      && TableCost(us, pick, d) <= |t.free| && frames[k] < |t.refs|
      && NewTables(ts, pick, page, k + 1) == NewTables(ts, pick, page, k) + TableCost(us, pick, d)
      && TablesAfter(ts, pick, page, k + 1) == WithTable(us, pick, d)
      && GetRange(m, ts, pick, space, page, frames, k + 1, perm) ==
         MapFrame(MakeTable(t, us, pick, d), Slot(space, page + k), frames[k], Base(page + k), perm)
  {
    hide WellFormed, MapFrame;
  }

  lemma {:induction false} MakeTablesGrow(m: Memory, ts: map<nat, nat>, pick: map<nat, nat>, page: nat, n: nat)
    requires Exact(m, {}) && NewTables(ts, pick, page, n) <= |m.free| && Picks(m, pick, [])
    ensures WellFormed(m)
    ensures var r := MakeTables(m, ts, pick, page, n);
      && Grew(m, r) && |r.free| == |m.free| - NewTables(ts, pick, page, n)
      && forall t: Slot :: t in r.ptes <==> t in m.ptes || t in TablePages(TablesAfter(ts, pick, page, n), ts)
  {
    hide *;
    ExactIsWellFormed(m, {});
    if n == 0 {
      GrewNone(m);
      NoTablesMade(m, ts, pick, page);
    } else {
      var k := n - 1;
      var us, d := TablesAfter(ts, pick, page, k), Directory(page + k);
      MakeTablesNext(m, ts, pick, page, k);
      MakeTablesGrow(m, ts, pick, page, k);
      var t := MakeTables(m, ts, pick, page, k);
      GrewFacts(m, t);
      TablesAfterAre(ts, pick, page, k);
      StillMissing(m, t, ts, us, pick, d);
      MakeTableGrows(t, us, pick, d);
      GrewMore(m, t, MakeTable(t, us, pick, d));
      TablePagesMore(ts, us, pick, d);
    }
  }

  lemma NoTablesMade(m: Memory, ts: map<nat, nat>, pick: map<nat, nat>, page: nat)
    requires WellFormed(m)
    ensures NewTables(ts, pick, page, 0) == 0 && TablesAfter(ts, pick, page, 0) == ts && MakeTables(m, ts, pick, page, 0) == m
    ensures TablePages(ts, ts) == {}
  {
  }

  lemma StillMissing(m: Memory, t: Memory, ts: map<nat, nat>, us: map<nat, nat>, pick: map<nat, nat>, d: nat)
    requires Picks(m, pick, []) && t.boot == m.boot
    requires forall b: nat :: b in us && b !in ts ==> b in pick && us[b] == pick[b]
    requires forall b: nat :: b in ts ==> b in us
    requires forall s: Slot :: s in t.ptes <==> s in m.ptes || s in TablePages(us, ts)
    ensures Missing(us, pick, d) ==> Empty(t, KernelPage(pick[d]))
  {
  }

  /** Making a table and mapping a frame in use elsewhere can be done in either order. */
  lemma TableCommutes(m: Memory, ts: map<nat, nat>, pick: map<nat, nat>, d: nat, s: Slot, f: nat, va: nat, perm: nat)
    requires Exact(m, {}) && WellFormed(m) && TableCost(ts, pick, d) <= |m.free| && Empty(m, s) && s.space != K.KERNEL
    requires Missing(ts, pick, d) ==> Empty(m, KernelPage(pick[d]))
    requires Allocatable(m, f) && 0 < m.refs[f] < COUNT_LIMIT - 1
    ensures f < |m.refs| && TableCost(ts, pick, d) <= |MapFrame(m, s, f, va, perm).free|
    ensures MakeTable(MapFrame(m, s, f, va, perm), ts, pick, d) == MapFrame(MakeTable(m, ts, pick, d), s, f, va, perm)
  {
    hide Exact, WellFormed, MapFrame, MakeTable, MapNew, Base;
    MapEntry(m, s, f, va, perm);
    MakeTableIs(m, ts, pick, d);
    if Missing(ts, pick, d) {
      var t := MapFrame(m, s, f, va, perm);
      var u := MakeTable(m, ts, pick, d);
      MakeTableIs(t, ts, pick, d);
      MapEntry(u, s, f, va, perm);
      SwapEntries(m, s, Pte(f, perm), m.refs[f] + 1, va, KernelPage(pick[d]), Pte(m.free[0], PERM_WRITEABLE), 1, Base(pick[d]), m.free[1..]);
    } else {
      MakeTableIs(MapFrame(m, s, f, va, perm), ts, pick, d);
    }
  }

  lemma MakeTableIs(m: Memory, ts: map<nat, nat>, pick: map<nat, nat>, d: nat)
    requires Exact(m, {}) && WellFormed(m) && TableCost(ts, pick, d) <= |m.free|
    requires Missing(ts, pick, d) ==> Empty(m, KernelPage(pick[d]))
    ensures Exact(MakeTable(m, ts, pick, d), {}) && |m.va| == |m.refs|
    ensures !Missing(ts, pick, d) ==> MakeTable(m, ts, pick, d) == m
    ensures Missing(ts, pick, d) ==>
              && m.free[0] < |m.refs| && m.refs[m.free[0]] == 0
              && MakeTable(m, ts, pick, d) ==
                 EnterAt(m, KernelPage(pick[d]), Pte(m.free[0], PERM_WRITEABLE), 1, Base(pick[d]), m.free[1..])
  {
    if Missing(ts, pick, d) {
      assert m.free[0] in m.free;
      MapNewKeeps(m, KernelPage(pick[d]), Base(pick[d]), PERM_WRITEABLE);
    }
  }

  function EnterAt(m: Memory, s: Slot, p: Pte, refs: nat, va: nat, free: seq<nat>): Memory
    requires p.frame < |m.refs| == |m.va|
  {
    m.(refs := m.refs[p.frame := refs], va := m.va[p.frame := va], free := free, ptes := m.ptes[s := p])
  }

  /** Entries in different slots, on different frames, can be made in either order. */
  lemma SwapEntries(m: Memory, s: Slot, p: Pte, n: nat, a: nat, e: Slot, q: Pte, k: nat, b: nat, free: seq<nat>)
    requires p.frame < |m.refs| == |m.va| && q.frame < |m.refs| && s != e && p.frame != q.frame
    ensures EnterAt(EnterAt(m, s, p, n, a, m.free), e, q, k, b, free) == EnterAt(EnterAt(m, e, q, k, b, free), s, p, n, a, free)
  {
    var i, j := p.frame, q.frame;
    assert m.refs[i := n][j := k] == m.refs[j := k][i := n] && m.va[i := a][j := b] == m.va[j := b][i := a];
    assert m.ptes[s := p][e := q] == m.ptes[e := q][s := p];
  }

  lemma MapEntry(m: Memory, s: Slot, f: nat, va: nat, perm: nat)
    requires Exact(m, {}) && Empty(m, s) && Allocatable(m, f) && 0 < m.refs[f] < COUNT_LIMIT - 1
    ensures WellFormed(m) && f < |m.refs| == |m.va|
    ensures var r := MapFrame(m, s, f, va, perm);
      Exact(r, {}) && r == EnterAt(m, s, Pte(f, perm), m.refs[f] + 1, va, m.free)
  {
    MapIs(m, s, f, va, perm);
  }

  lemma JoinedRest(m: Memory, t: Memory, space: nat, page: nat, frames: seq<nat>, k: nat, perm: nat, e: Slot)
    requires WellFormed(m) && WellFormed(t) && k <= |frames| && Joined(m, t, space, page, frames, k, perm)
    requires e.space != space && Empty(m, e)
    ensures Empty(t, e) && t.free == m.free && |t.refs| == |m.refs|
  {
  }

  /** Making a table commutes with mapping a run of frames. */
  lemma {:induction false} TableAfterRange(m: Memory, us: map<nat, nat>, pick: map<nat, nat>, d: nat, space: nat, page: nat, frames: seq<nat>, n: nat, perm: nat)
    requires Exact(m, {}) && n <= |frames| && RR.NoRepeats(frames) && Unmapped(m, space, page, n) && space != K.KERNEL
    requires AreFrames(m, frames) && Mappable(m, frames)
    requires TableCost(us, pick, d) <= |m.free| && (Missing(us, pick, d) ==> Empty(m, KernelPage(pick[d])))
    ensures WellFormed(m) && TableCost(us, pick, d) <= |MapRange(m, space, page, frames, n, perm).free|
    ensures AreFrames(MakeTable(m, us, pick, d), frames)
    ensures MakeTable(MapRange(m, space, page, frames, n, perm), us, pick, d) ==
            MapRange(MakeTable(m, us, pick, d), space, page, frames, n, perm)
  {
    hide *;
    ExactIsWellFormed(m, {});
    var v := MakeTable(m, us, pick, d);
    StillFrames(m, v, frames);
    if n == 0 {
      JoinedNone(m, space, page, frames, perm);
      JoinedNone(v, space, page, frames, perm);
    } else {
      var k := n - 1;
      UnmappedShorter(m, space, page, n);
      TableAfterRange(m, us, pick, d, space, page, frames, k, perm);
      MapRangeKeeps(m, space, page, frames, k, perm);
      var x := MapRange(m, space, page, frames, k, perm);
      MappableAt(m, frames, k);
      JoinedFacts(m, x, space, page, frames, k, perm);
      if Missing(us, pick, d) {
        MissingIs(us, us, pick, d);
        KernelPageIs(pick[d]);
        JoinedRest(m, x, space, page, frames, k, perm, KernelPage(pick[d]));
      }
      TableCommutes(x, us, pick, d, Slot(space, page + k), frames[k], Base(page + k), perm);
      MapRangeNext(m, space, page, frames, k, perm);
      MapRangeNext(v, space, page, frames, k, perm);
    }
  }

  lemma KernelPageIs(p: nat)
    ensures KernelPage(p).space == K.KERNEL
  {
  }

  lemma StillFrames(m: Memory, r: Memory, frames: seq<nat>)
    requires AreFrames(m, frames) && |r.refs| == |m.refs|
    ensures AreFrames(r, frames)
  {
  }

  /** New tables leave frames in use, and pages outside the kernel, as they are. */
  lemma GrewMappable(m: Memory, r: Memory, frames: seq<nat>, space: nat, page: nat, n: nat)
    requires Grew(m, r) && Mappable(m, frames) && AreFrames(m, frames) && Unmapped(m, space, page, n)
    requires forall t: Slot :: t in r.ptes && t.space == space ==> t in m.ptes
    ensures Mappable(r, frames) && AreFrames(r, frames) && Unmapped(r, space, page, n)
  {
    hide Exact, WellFormed;
  }

  /** The loop of getSharedObject does what making all the tables first and mapping then does. */
  lemma {:induction false} GetRangeIs(m: Memory, ts: map<nat, nat>, pick: map<nat, nat>, space: nat, page: nat, frames: seq<nat>, n: nat, perm: nat)
    requires Exact(m, {}) && n <= |frames| && RR.NoRepeats(frames) && Unmapped(m, space, page, n) && space != K.KERNEL
    requires AreFrames(m, frames) && Mappable(m, frames) && NewTables(ts, pick, page, n) <= |m.free| && Picks(m, pick, [])
    ensures WellFormed(m) && AreFrames(MakeTables(m, ts, pick, page, n), frames)
    ensures GetRange(m, ts, pick, space, page, frames, n, perm) ==
            MapRange(MakeTables(m, ts, pick, page, n), space, page, frames, n, perm)
  {
    hide *;
    ExactIsWellFormed(m, {});
    if n == 0 {
      NoTablesMade(m, ts, pick, page);
      JoinedNone(m, space, page, frames, perm);
      GetNone(m, ts, pick, space, page, frames, perm);
    } else {
      var k := n - 1;
      var us, d := TablesAfter(ts, pick, page, k), Directory(page + k);
      UnmappedShorter(m, space, page, n);
      MakeTablesNext(m, ts, pick, page, k);
      GetRangeNext(m, ts, pick, space, page, frames, k, perm);
      GetRangeIs(m, ts, pick, space, page, frames, k, perm);
      MakeTablesGrow(m, ts, pick, page, k);
      var t := MakeTables(m, ts, pick, page, k);
      GrewFacts(m, t);
      TablesAfterAre(ts, pick, page, k);
      StillMissing(m, t, ts, us, pick, d);
      OnlyKernelPages(m, t, us, ts, space);
      GrewMappable(m, t, frames, space, page, k);
      TableAfterRange(t, us, pick, d, space, page, frames, k, perm);
      MapRangeNext(MakeTable(t, us, pick, d), space, page, frames, k, perm);
    }
  }

  lemma GetNone(m: Memory, ts: map<nat, nat>, pick: map<nat, nat>, space: nat, page: nat, frames: seq<nat>, perm: nat)
    requires WellFormed(m) && AreFrames(m, frames)
    ensures NewTables(ts, pick, page, 0) == 0 && GetRange(m, ts, pick, space, page, frames, 0, perm) == m
  {
  }

  lemma OnlyKernelPages(m: Memory, t: Memory, us: map<nat, nat>, ts: map<nat, nat>, space: nat)
    requires space != K.KERNEL && forall s: Slot :: s in t.ptes <==> s in m.ptes || s in TablePages(us, ts)
    ensures forall s: Slot :: s in t.ptes && s.space == space ==> s in m.ptes
  {
  }

  /** map_frame makes the table while the new frame waits: the outcome is that of mapping first. */
  lemma TableWhilePending(m: Memory, ts: map<nat, nat>, pick: map<nat, nat>, d: nat, s: Slot, va: nat, perm: nat)
    requires Exact(m, {}) && WellFormed(m) && 1 + TableCost(ts, pick, d) <= |m.free| && Empty(m, s) && s.space != K.KERNEL
    requires Missing(ts, pick, d) ==> Empty(m, KernelPage(pick[d]))
    ensures m.free[0] < |m.refs| == |m.va| && WellFormed(AllocateFrame(m))
    ensures var a := AllocateFrame(m);
      && TableCost(ts, pick, d) <= |a.free| && TableCost(ts, pick, d) <= |MapNew(m, s, va, perm).free|
      && WellFormed(MakeTable(a, ts, pick, d)) && |MakeTable(a, ts, pick, d).refs| == |m.refs|
      && MapFrame(MakeTable(a, ts, pick, d), s, m.free[0], va, perm) == MakeTable(MapNew(m, s, va, perm), ts, pick, d)
  {
    assert m.free[0] in m.free && forall f :: f in m.free[1..] ==> f in m.free;
    var f := m.free[0];
    var a := AllocateFrame(m);
    MapNewKeeps(m, s, va, perm);
    var t := MapNew(m, s, va, perm);
    if Missing(ts, pick, d) {
      var e, g := KernelPage(pick[d]), m.free[1];
      assert g == t.free[0] && m.free[1] in m.free && f != g;
      MapNewKeeps(t, e, Base(pick[d]), PERM_WRITEABLE);
      PendingTable(a, e, Base(pick[d]), PERM_WRITEABLE);
      EnterEmpty(EnterAt(a, e, Pte(g, PERM_WRITEABLE), 1, Base(pick[d]), a.free[1..]), s, f, va, perm);
      SwapEntries(a, s, Pte(f, perm), 1, va, e, Pte(g, PERM_WRITEABLE), 1, Base(pick[d]), a.free[1..]);
    }
  }

  lemma PendingTable(a: Memory, e: Slot, va: nat, perm: nat)
    requires WellFormed(a) && a.free != [] && Empty(a, e)
    ensures a.free[0] < |a.refs| == |a.va|
    ensures MapNew(a, e, va, perm) == EnterAt(a, e, Pte(a.free[0], perm), 1, va, a.free[1..])
  {
    assert a.free[0] in a.free;
  }

  lemma EnterEmpty(m: Memory, s: Slot, f: nat, va: nat, perm: nat)
    requires WellFormed(m) && Empty(m, s) && f < |m.refs| && m.refs[f] == 0
    ensures |m.va| == |m.refs| && MapFrame(m, s, f, va, perm) == EnterAt(m, s, Pte(f, perm), 1, va, m.free)
  {
  }

  lemma MappableAt(m: Memory, frames: seq<nat>, k: nat)
    requires Mappable(m, frames) && k < |frames|
    ensures frames[k] < |m.refs| && Allocatable(m, frames[k]) && 0 < m.refs[frames[k]] < COUNT_LIMIT - 1
  {
  }

  lemma AllocatableAt(m: Memory, f: nat)
    requires Allocatable(m, f)
    ensures f < |m.refs|
  {
  }

  // ----- deleting a store -----

  /** clear_frames_storage */
  function DropTables(m: Memory, tables: seq<nat>, n: nat): (r: Memory)
    requires WellFormed(m) && n <= |tables| && AreFrames(m, tables)
    ensures WellFormed(r) && |r.refs| == |m.refs|
  {
    if n == 0 then m
    else
      DropTable(DropTables(m, tables, n - 1), tables[n - 1])
  }

  /** A frame behind one kernel page only, which it remembers. */
  ghost predicate OwnPage(m: Memory, f: nat) {
    && f < |m.refs| && f < |m.va| && m.refs[f] == 1 && Aligned(m.va[f])
    && TableSlot(m, f) in m.ptes && m.ptes[TableSlot(m, f)].frame == f
  }

  ghost function TableSlots(m: Memory, tables: seq<nat>, n: nat): (r: set<Slot>)
    requires WellFormed(m) && n <= |tables| && AreFrames(m, tables)
  {
    if n == 0 then {}
    else
      TableSlots(m, tables, n - 1) + {TableSlot(m, tables[n - 1])}
  }

  ghost predicate OwnPages(m: Memory, tables: seq<nat>) {
    forall i :: 0 <= i < |tables| ==> OwnPage(m, tables[i])
  }

  lemma OwnPagesAreFrames(m: Memory, tables: seq<nat>)
    requires OwnPages(m, tables)
    ensures AreFrames(m, tables)
  {
    assert forall i :: 0 <= i < |tables| ==> OwnPage(m, tables[i]);
  }

  lemma TableSlotsNone(m: Memory, tables: seq<nat>)
    requires WellFormed(m) && AreFrames(m, tables)
    ensures |TableSlots(m, tables, 0)| == 0 && Hold(m, TableSlots(m, tables, 0), tables[..0])
  {
  }

  lemma TableSlotsNext(m: Memory, tables: seq<nat>, k: nat)
    requires WellFormed(m) && k < |tables| && OwnPages(m, tables) && AreFrames(m, tables)
    ensures OwnPage(m, tables[k]) && tables[k] < |m.va|
    ensures TableSlots(m, tables, k + 1) == TableSlots(m, tables, k) + {TableSlot(m, tables[k])}
  {
  }

  /** The slots of a store's tables are pages of the kernel, one for each of its frames. */
  lemma {:induction false} TableSlotsAre(m: Memory, tables: seq<nat>, n: nat)
    requires WellFormed(m) && n <= |tables| && RR.NoRepeats(tables) && OwnPages(m, tables)
    ensures AreFrames(m, tables)
    ensures |TableSlots(m, tables, n)| == n && Hold(m, TableSlots(m, tables, n), tables[..n])
  {
    OwnPagesAreFrames(m, tables);
    hide *;
    if n == 0 {
      TableSlotsNone(m, tables);
    } else {
      var k := n - 1;
      TableSlotsAre(m, tables, k);
      var slots := TableSlots(m, tables, k);
      TableSlotsNext(m, tables, k);
      HoldMore(m, slots, tables, k);
      assert |slots + {TableSlot(m, tables[k])}| == n;
    }
  }

  /** The slots are kernel pages mapped to the given frames. */
  ghost predicate Hold(m: Memory, slots: set<Slot>, frames: seq<nat>) {
    forall s: Slot :: s in slots ==> s.space == K.KERNEL && s in m.ptes && m.ptes[s].frame in frames
  }

  lemma HoldMore(m: Memory, slots: set<Slot>, tables: seq<nat>, k: nat)
    requires k < |tables| && RR.NoRepeats(tables) && Hold(m, slots, tables[..k])
    requires tables[k] < |m.va| && OwnPage(m, tables[k])
    ensures TableSlot(m, tables[k]) !in slots && Hold(m, slots + {TableSlot(m, tables[k])}, tables[..k + 1])
  {
    Prefix(tables, k);
    hide RR.NoRepeats;
  }

  lemma {:induction false} DropTablesLoses(m: Memory, tables: seq<nat>, n: nat)
    requires Exact(m, {}) && n <= |tables| && RR.NoRepeats(tables) && OwnPages(m, tables)
    ensures WellFormed(m) && AreFrames(m, tables)
    ensures var r := DropTables(m, tables, n);
      Exact(r, {}) && Lost(m, r, TableSlots(m, tables, n))
  {
    hide *;
    ExactIsWellFormed(m, {});
    TableSlotsAre(m, tables, n);
    if n == 0 {
      LostNone(m);
      DropNone(m, tables);
    } else {
      DropTablesLoses(m, tables, n - 1);
      DropNext(m, tables, n - 1);
    }
  }

  lemma DropNone(m: Memory, tables: seq<nat>)
    requires WellFormed(m) && AreFrames(m, tables)
    ensures DropTables(m, tables, 0) == m && TableSlots(m, tables, 0) == {}
  {
  }

  lemma DropTablesNext(m: Memory, tables: seq<nat>, k: nat)
    requires WellFormed(m) && k < |tables| && AreFrames(m, tables)
    ensures var t := DropTables(m, tables, k);
      && tables[k] < |t.va| && tables[k] < |m.va|
      && (t.va[tables[k]] == m.va[tables[k]] ==>
            DropTables(m, tables, k + 1) == UnmapFrame(t, TableSlot(m, tables[k])))
  {
  }

  lemma DropNext(m: Memory, tables: seq<nat>, k: nat)
    requires WellFormed(m) && k < |tables| && RR.NoRepeats(tables) && OwnPages(m, tables) && AreFrames(m, tables)
    requires Exact(DropTables(m, tables, k), {}) && Lost(m, DropTables(m, tables, k), TableSlots(m, tables, k))
    ensures Exact(DropTables(m, tables, k + 1), {})
    ensures Lost(m, DropTables(m, tables, k + 1), TableSlots(m, tables, k + 1))
  {
    hide *;
    var t := DropTables(m, tables, k);
    TableSlotNew(m, tables, k);
    var f := tables[k];
    var s := TableSlot(m, f);
    OwnPageStays(m, t, TableSlots(m, tables, k), f);
    DropTablesNext(m, tables, k);
    LoseOne(t, s);
    LoseMore(m, t, UnmapFrame(t, s), TableSlots(m, tables, k), {s});
  }

  lemma LostNone(m: Memory)
    requires Exact(m, {}) && WellFormed(m)
    ensures Lost(m, m, {})
  {
    forall t: Slot | t in m.ptes
      ensures 0 < m.refs[m.ptes[t].frame]
    {
      assert t in Mapping(m, m.ptes[t].frame);
    }
  }

  lemma TableSlotNew(m: Memory, tables: seq<nat>, k: nat)
    requires WellFormed(m) && k < |tables| && RR.NoRepeats(tables) && OwnPages(m, tables) && AreFrames(m, tables)
    ensures OwnPage(m, tables[k]) && tables[k] < |m.refs| && tables[k] < |m.va|
    ensures var s := TableSlot(m, tables[k]);
      s !in TableSlots(m, tables, k) && TableSlots(m, tables, k + 1) == TableSlots(m, tables, k) + {s}
  {
    TableSlotsAre(m, tables, k);
    assert OwnPage(m, tables[k]);
    HoldMore(m, TableSlots(m, tables, k), tables, k);
  }

  /** A page frame none of whose slots were lost is as it was. */
  lemma OwnPageStays(m: Memory, t: Memory, slots: set<Slot>, f: nat)
    requires WellFormed(m) && WellFormed(t) && Lost(m, t, slots) && OwnPage(m, f)
    requires TableSlot(m, f) !in slots
    ensures f < |t.va| && f < |t.refs| && OwnPage(t, f) && t.va[f] == m.va[f] && t.refs[f] == 1
    ensures TableSlot(m, f) in t.ptes && t.ptes[TableSlot(m, f)].frame == f
  {
    var s := TableSlot(m, f);
    assert s in t.ptes && t.ptes[s] == m.ptes[s];
    assert t.refs[f] != 0;
  }
}
