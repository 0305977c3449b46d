/**
 Shared objects, frames and page tables agree over every run: (owner, name) is
 unique, live objects own disjoint frames, a frame's count is its object's
 count, an object is found again from any address it was mapped at, every
 mapped page has its table, and the last free returns every frame the object
 ever took.
 */
module SharesTheorems {
  import RR = RoundRobin
  import opened Blocks
  import opened Frames
  import opened FrameRanges
  import opened FrameTable
  import opened SharesMemory
  import opened SharesSpec
  import K = KernelHeapSpec
  import opened FreeMemSpec
  import opened FreeMemTheorems
  import opened SharesCore
  import opened SharesFree
  import opened SharesCreate

  // ----- new page tables -----

  /** The pages t's objects keep their stores on: those of s, or new ones among `at`. */
  ghost predicate StoresGrow(s: State, t: State, at: seq<nat>)
    requires Named(s) && Named(t)
  {
    forall i: nat, u: Slot :: Live(t, i) && u in StorePages(t.m, t.shares[i]) ==>
      (Live(s, i) && u in StorePages(s.m, s.shares[i])) || (u !in s.m.ptes && u.space == K.KERNEL && u.page in at)
  }

  lemma StoresGrowAt(s: State, t: State, at: seq<nat>, i: nat, u: Slot)
    requires Named(s) && Named(t) && StoresGrow(s, t, at) && Live(t, i)
    ensures i < |t.shares| && WellFormed(t.m) && AreFrames(t.m, t.shares[i].tables)
    ensures u in StorePages(t.m, t.shares[i]) ==>
              || (Live(s, i) && i < |s.shares| && WellFormed(s.m) && AreFrames(s.m, s.shares[i].tables) && u in StorePages(s.m, s.shares[i]))
              || (u !in s.m.ptes && u.space == K.KERNEL && u.page in at)
  {
  }

  lemma TableOkFrom(s: State, e: nat, d: nat)
    requires Named(s) && HasTable(s.tables, e, d) && WellFormed(s.m)
    requires var t := TablePage(s.tables, e, d);
      && t in s.m.ptes && s.m.ptes[t].frame < |s.m.refs| && s.m.refs[s.m.ptes[t].frame] == 1
      && forall i: nat :: Live(s, i) ==> i < |s.shares| && AreFrames(s.m, s.shares[i].tables) && t !in StorePages(s.m, s.shares[i])
    ensures TableOk(s, e, d)
  {
  }

  lemma TabledParts(s: State)
    requires Named(s) && forall e: nat, d: nat :: HasTable(s.tables, e, d) ==> TableOk(s, e, d)
    requires forall e: nat, d: nat, b: nat, c: nat :: HasTable(s.tables, e, d) && HasTable(s.tables, b, c) && (e != b || d != c) ==>
               TablePage(s.tables, e, d) != TablePage(s.tables, b, c)
    requires forall t: Slot :: t in s.m.ptes && t.space != K.KERNEL ==> HasTable(s.tables, t.space, Directory(t.page))
    ensures Tabled(s)
  {
  }

  /** Space has the tables us instead of ts; a new one is where pick says. */
  ghost predicate MoreTables(s: State, t: State, space: nat, us: map<nat, nat>, pick: map<nat, nat>, at: seq<nat>) {
    var ts := TablesOf(s.tables, space);
    && t.tables == s.tables[space := us] && Picks(s.m, pick, at)
    && (forall d: nat :: d in ts ==> d in us && us[d] == ts[d])
    && (forall d: nat :: d in us && d !in ts ==> d in pick && us[d] == pick[d] && KernelPage(us[d]) in t.m.ptes)
  }

  /** What is known of a table after tables were added: it is an old one, or a picked one. */
  lemma OldOrPicked(s: State, t: State, space: nat, us: map<nat, nat>, pick: map<nat, nat>, at: seq<nat>, e: nat, d: nat)
    requires MoreTables(s, t, space, us, pick, at) && HasTable(t.tables, e, d)
    ensures HasTable(s.tables, e, d) ==> TablePage(t.tables, e, d) == TablePage(s.tables, e, d)
    ensures !HasTable(s.tables, e, d) ==>
              && e == space && d in pick && TablePage(t.tables, e, d) == KernelPage(pick[d])
              && KernelPage(pick[d]).page == pick[d] && KernelPage(pick[d]).space == K.KERNEL
              && KernelPage(pick[d]) !in s.m.ptes && KernelPage(pick[d]) in t.m.ptes && pick[d] !in at
  {
  }

  lemma PicksDiffer(s: State, t: State, space: nat, us: map<nat, nat>, pick: map<nat, nat>, at: seq<nat>, d: nat, c: nat)
    requires MoreTables(s, t, space, us, pick, at) && d in pick && c in pick && d != c
    ensures KernelPage(pick[d]) != KernelPage(pick[c])
  {
  }

  lemma GrewTable(s: State, t: State, space: nat, us: map<nat, nat>, pick: map<nat, nat>, at: seq<nat>, e: nat, d: nat)
    requires Core(s) && Tabled(s) && Named(s) && Named(t) && Grew(s.m, t.m) && StoresGrow(s, t, at)
    requires MoreTables(s, t, space, us, pick, at) && HasTable(t.tables, e, d)
    ensures TableOk(t, e, d)
  {
    hide *;
    OldOrPicked(s, t, space, us, pick, at, e, d);
    GrewFacts(s.m, t.m);
    var p := TablePage(t.tables, e, d);
    if HasTable(s.tables, e, d) {
      TableFacts(s, e, d);
      GainedLeaves(s.m, t.m, Fresh(s.m, t.m), p);
      UndisturbedIs(s.m, t.m, p);
    } else {
      FreshIs(s.m, t.m, p);
      NewFrame(s.m, t.m, Fresh(s.m, t.m), p);
    }
    forall i: nat | Live(t, i)
      ensures i < |t.shares| && WellFormed(t.m) && AreFrames(t.m, t.shares[i].tables) && p !in StorePages(t.m, t.shares[i])
    {
      StoresGrowAt(s, t, at, i, p);
      if Live(s, i) {
        LiveFacts(s, i);
        if p in StorePages(s.m, s.shares[i]) {
          StorePageIs(s.m, s.shares[i], p);
        }
      }
    }
    TableOkFrom(t, e, d);
  }

  lemma FreshIs(m: Memory, r: Memory, t: Slot)
    ensures t in Fresh(m, r) <==> t in r.ptes && t !in m.ptes
  {
  }

  /** New tables, and pages that have one, keep tables and pages matched. */
  lemma GrewTabled(s: State, t: State, space: nat, us: map<nat, nat>, pick: map<nat, nat>, at: seq<nat>)
    requires Core(s) && Tabled(s) && Named(s) && Named(t) && Grew(s.m, t.m) && StoresGrow(s, t, at)
    requires MoreTables(s, t, space, us, pick, at)
    requires forall u: Slot :: u in t.m.ptes && u.space != K.KERNEL ==> HasTable(t.tables, u.space, Directory(u.page))
    ensures Tabled(t)
  {
    hide *;
    forall e: nat, d: nat | HasTable(t.tables, e, d)
      ensures TableOk(t, e, d)
    {
      GrewTable(s, t, space, us, pick, at, e, d);
    }
    forall e: nat, d: nat, b: nat, c: nat | HasTable(t.tables, e, d) && HasTable(t.tables, b, c) && (e != b || d != c)
      ensures TablePage(t.tables, e, d) != TablePage(t.tables, b, c)
    {
      OldOrPicked(s, t, space, us, pick, at, e, d);
      OldOrPicked(s, t, space, us, pick, at, b, c);
      if HasTable(s.tables, e, d) {
        TableFacts(s, e, d);
      }
      if HasTable(s.tables, b, c) {
        TableFacts(s, b, c);
      }
      if HasTable(s.tables, e, d) && HasTable(s.tables, b, c) {
        TwoTables(s, e, d, b, c);
      } else if !HasTable(s.tables, e, d) && !HasTable(s.tables, b, c) {
        PicksDiffer(s, t, space, us, pick, at, d, c);
      }
    }
    TabledParts(t);
  }

  lemma PageHasTable(s: State, tables: map<nat, map<nat, nat>>, us: map<nat, nat>, pick: map<nat, nat>, space: nat, page: nat, n: nat, u: Slot)
    requires Named(s) && Tabled(s) && tables == s.tables[space := us] && u.space != K.KERNEL
    requires Coverable(TablesOf(s.tables, space), pick, page, n) && Covers(us, pick, page, n)
    requires forall d: nat :: d in TablesOf(s.tables, space) ==> d in us
    requires u in s.m.ptes || InRange(u, space, page, n)
    ensures HasTable(tables, u.space, Directory(u.page))
  {
    if u in s.m.ptes {
      assert HasTable(s.tables, u.space, Directory(u.page));
      TablesOfIs(s.tables, u.space, Directory(u.page));
    } else {
      assert Directory(u.page) in TablesOf(s.tables, space) || Directory(u.page) in pick;
    }
    hide Directory, Tabled, Named;
  }

  lemma CreateStores(s: State, t: State, j: nat, space: nat, page: nat, n: nat, at: seq<nat>)
    requires Core(s) && CreatedState(s, t, j, space, page, n, at) && Named(s) && Named(t)
    ensures StoresGrow(s, t, at)
  {
    hide *;
    var sh := CreatedFacts(s, t, j, space, page, n, at);
    forall i: nat, u: Slot | Live(t, i) && i < |t.shares| && WellFormed(t.m) && AreFrames(t.m, t.shares[i].tables) && u in StorePages(t.m, t.shares[i])
      ensures || (Live(s, i) && i < |s.shares| && WellFormed(s.m) && AreFrames(s.m, s.shares[i].tables) && u in StorePages(s.m, s.shares[i]))
              || (u !in s.m.ptes && u.space == K.KERNEL && u.page in at)
    {
      if i == j {
        CreateNew(s, t, j, space, page, n, at);
      } else {
        CreateOld(s, t, j, space, page, n, at, i);
        LiveFacts(s, i);
        StoreStays(s.m, t.m, s.shares[i]);
      }
    }
    StoresGrowFrom(s, t, at);
  }

  lemma StoresGrowFrom(s: State, t: State, at: seq<nat>)
    requires Named(s) && Named(t)
    requires forall i: nat, u: Slot :: Live(t, i) && i < |t.shares| && WellFormed(t.m) && AreFrames(t.m, t.shares[i].tables) && u in StorePages(t.m, t.shares[i]) ==>
               || (Live(s, i) && i < |s.shares| && WellFormed(s.m) && AreFrames(s.m, s.shares[i].tables) && u in StorePages(s.m, s.shares[i]))
               || (u !in s.m.ptes && u.space == K.KERNEL && u.page in at)
    ensures StoresGrow(s, t, at)
  {
  }

  lemma MoreTablesFrom(s: State, t: State, space: nat, page: nat, n: nat, us: map<nat, nat>, pick: map<nat, nat>, at: seq<nat>)
    requires t.tables == s.tables[space := us] && Picks(s.m, pick, at)
    requires var ts := TablesOf(s.tables, space);
      && us == TablesAfter(ts, pick, page, n) && forall u: Slot :: u in TablePages(us, ts) ==> u in t.m.ptes
    ensures MoreTables(s, t, space, us, pick, at)
  {
    var ts := TablesOf(s.tables, space);
    TablesAfterAre(ts, pick, page, n);
    forall d: nat | d in us && d !in ts
      ensures KernelPage(us[d]) in t.m.ptes
    {
      assert KernelPage(us[d]) in TablePages(us, ts);
    }
    hide TablesAfter, TablesOf, Picks;
  }

  /**
   A create makes a new object apart from all others.  It takes a frame per
   page, a kernel page per table of its store and one for the directory, and one
   for every page table the environment had to get.
   */
  lemma CreateKeeps(s: State, owner: int, name: string, n: nat, writable: bool, space: nat, page: nat, at: seq<nat>, pick: map<nat, nat>)
    requires Inv(s) && Room(s.m, pick, space, page, n, at) && 0 < n && |at| == 1 + TableCount(n)
    requires Coverable(TablesOf(s.tables, space), pick, page, n)
    requires n + |at| + NewTables(TablesOf(s.tables, space), pick, page, n) <= |s.m.free|
    requires Find(s.shares, owner, name) == |s.shares| && FirstEmpty(s.shares, 0) < |s.shares|
    ensures Named(s)
    ensures var t := CreateStep(s, owner, name, n, writable, space, page, at, pick);
      Inv(t) && |t.m.free| + n + TableCount(n) + 1 + |TablesOf(t.tables, space)| == |s.m.free| + |TablesOf(s.tables, space)|
  {
    InvIs(s);
    PartsOf(s);
    hide Core, Tabled, Exact, Named, Objects, Pairs, Views, Counts, Inv;
    var ts := TablesOf(s.tables, space);
    var us := TablesAfter(ts, pick, page, n);
    var j := FirstEmpty(s.shares, 0);
    var t := CreateStep(s, owner, name, n, writable, space, page, at, pick);
    NamedMemory(s);
    CreateGrows(s.m, ts, pick, space, page, n, at);
    CreateIsCreated(s, t, owner, name, n, writable, space, page, at, pick, j);
    hide *;
    TablesAfterAre(ts, pick, page, n);
    TablesOfSet(s.tables, space, us);
    CreateCore(s, t, j, space, page, n, at);
    PartsOf(t);
    CreateStores(s, t, j, space, page, n, at);
    PagesIn(s.m, t.m, ts, us, pick, space, page, n, at);
    MoreTablesFrom(s, t, space, page, n, us, pick, at);
    forall u: Slot | u in t.m.ptes && u.space != K.KERNEL
      ensures HasTable(t.tables, u.space, Directory(u.page))
    {
      UserSlot(s.m, t.m, ts, us, space, page, n, at, u);
      PageHasTable(s, t.tables, us, pick, space, page, n, u);
    }
    GrewTabled(s, t, space, us, pick, at);
    InvIs(t);
  }

  lemma PagesIn(m: Memory, r: Memory, ts: map<nat, nat>, us: map<nat, nat>, pick: map<nat, nat>, space: nat, page: nat, n: nat, at: seq<nat>)
    requires CreatedSlots(m, r, ts, us, space, page, n, at) && Room(m, pick, space, page, n, at)
    ensures Picks(m, pick, at) && space != K.KERNEL
    ensures forall u: Slot :: u in TablePages(us, ts) ==> u in r.ptes
  {
  }

  lemma UserSlot(m: Memory, r: Memory, ts: map<nat, nat>, us: map<nat, nat>, space: nat, page: nat, n: nat, at: seq<nat>, u: Slot)
    requires CreatedSlots(m, r, ts, us, space, page, n, at) && u in r.ptes && u.space != K.KERNEL
    ensures u in m.ptes || InRange(u, space, page, n)
  {
  }

  lemma CreateIsCreated(s: State, t: State, owner: int, name: string, n: nat, writable: bool, space: nat, page: nat, at: seq<nat>, pick: map<nat, nat>, j: nat)
    requires Named(s) && WellFormed(s.m) && Room(s.m, pick, space, page, n, at) && 0 < n && |at| == 1 + TableCount(n)
    requires n + |at| + NewTables(TablesOf(s.tables, space), pick, page, n) <= |s.m.free|
    requires Find(s.shares, owner, name) == |s.shares| && FirstEmpty(s.shares, 0) == j < |s.shares|
    requires t == CreateStep(s, owner, name, n, writable, space, page, at, pick)
    requires Grew(s.m, t.m)
    requires var ts := TablesOf(s.tables, space);
      CreatedSlots(s.m, t.m, ts, TablesAfter(ts, pick, page, n), space, page, n, at)
    ensures CreatedState(s, t, j, space, page, n, at)
    ensures t.m == CreateMemory(s.m, TablesOf(s.tables, space), pick, space, page, n, at)
    ensures t.tables == s.tables[space := TablesAfter(TablesOf(s.tables, space), pick, page, n)]
  {
    hide WellFormed, CreateMemory, Grew, Named;
    NewSlotsAreFresh(s.m, t.m, TablesOf(s.tables, space), TablesAfter(TablesOf(s.tables, space), pick, page, n), pick, space, page, n, at);
    assert Created(s.m, t.m, space, page, n, at);
    assert forall i :: Live(s, i) ==> !Is(s.shares[i], owner, name);
    assert t == State(t.m, s.shares[j := NewShare(t.m, owner, name, n, writable, space, page, at)],
                      s.views + {View(j, space, page)}, t.tables);
    hide Created, NewShare, CreateStep, Room, CreatedSlots, RR.NoRepeats, TablesAfter, NewTables;
  }

  lemma NewSlotsAreFresh(m: Memory, r: Memory, ts: map<nat, nat>, us: map<nat, nat>, pick: map<nat, nat>, space: nat, page: nat, n: nat, at: seq<nat>)
    requires CreatedSlots(m, r, ts, us, space, page, n, at) && Room(m, pick, space, page, n, at)
    ensures forall u: Slot :: IsNew(u, space, page, n, at) ==> u in Fresh(m, r)
  {
  }

  // ----- getSharedObject with its page tables -----

  /** A change of memory that only adds leaves objects, stores and views as they are. */
  lemma GrewCore(s: State, t: State)
    requires Core(s) && Grew(s.m, t.m) && t.shares == s.shares && t.views == s.views
    ensures Core(t) && Named(t) && Named(s)
    ensures forall j: nat :: Live(t, j) ==>
              && Live(s, j) && j < |t.shares| && WellFormed(s.m) && WellFormed(t.m) && AreFrames(s.m, s.shares[j].tables)
              && AreFrames(t.m, t.shares[j].tables) && StorePages(t.m, t.shares[j]) == StorePages(s.m, s.shares[j])
  {
    hide *;
    PartsOf(s);
    GrewFacts(s.m, t.m);
    var g := Fresh(s.m, t.m);
    forall j: nat | Live(t, j)
      ensures j < |s.shares| && Live(s, j) && DataOk(t.m, t.shares[j]) && AreFrames(s.m, s.shares[j].tables)
      ensures AllUndisturbed(s.m, t.m, StorePages(s.m, s.shares[j]))
    {
      LiveIs(t, j);
      LiveIs(s, j);
      LiveFacts(s, j);
      CreateLeavesStore(s.m, t.m, g, s.shares[j]);
      CreateLeavesData(s.m, t.m, g, s.shares[j]);
    }
    forall v, k: nat | v in t.views && v.id < |s.shares| && k < |s.shares[v.id].frames|
      ensures ViewAt(t.m, s.shares[v.id].frames, v, k)
    {
      ViewFacts(s, v);
      CreateLeavesView(s.m, t.m, g, s.shares[v.id].frames, v, k);
    }
    CoreStays(s, t);
    PartsOf(t);
  }

  lemma SameStoresGrow(s: State, t: State)
    requires Named(s) && Named(t)
    requires forall j: nat :: Live(t, j) ==>
               && Live(s, j) && j < |t.shares| && j < |s.shares| && WellFormed(s.m) && WellFormed(t.m) && AreFrames(s.m, s.shares[j].tables)
               && AreFrames(t.m, t.shares[j].tables) && StorePages(t.m, t.shares[j]) == StorePages(s.m, s.shares[j])
    ensures StoresGrow(s, t, [])
  {
    hide StorePages;
  }

  /** The tables first. */
  lemma GetTables(s: State, q: State, pick: map<nat, nat>, space: nat, page: nat, n: nat)
    requires Inv(s) && Exact(s.m, {}) && WellFormed(s.m) && space != K.KERNEL && Picks(s.m, pick, [])
    requires NewTables(TablesOf(s.tables, space), pick, page, n) <= |s.m.free|
    requires var ts := TablesOf(s.tables, space);
      && q.m == MakeTables(s.m, ts, pick, page, n) && q.shares == s.shares && q.views == s.views
      && q.tables == s.tables[space := TablesAfter(ts, pick, page, n)]
    ensures Inv(q) && Grew(s.m, q.m) && |q.m.free| == |s.m.free| - NewTables(TablesOf(s.tables, space), pick, page, n)
    ensures forall u: Slot :: u in q.m.ptes && u.space == space ==> u in s.m.ptes
  {
    InvIs(s);
    hide *;
    var ts := TablesOf(s.tables, space);
    var us := TablesAfter(ts, pick, page, n);
    PartsOf(s);
    MakeTablesGrow(s.m, ts, pick, page, n);
    TablesAfterAre(ts, pick, page, n);
    GrewCore(s, q);
    SameStoresGrow(s, q);
    MoreTablesFrom(s, q, space, page, n, us, pick, []);
    OnlyKernelPages(s.m, q.m, us, ts, space);
    forall u: Slot | u in q.m.ptes && u.space != K.KERNEL
      ensures HasTable(q.tables, u.space, Directory(u.page))
    {
      OnlyKernelPages(s.m, q.m, us, ts, u.space);
      SlotHasTable(s, u);
      HasTableAfter(s.tables, space, us, u.space, Directory(u.page));
      TablesOfIs(s.tables, u.space, Directory(u.page));
    }
    GrewTabled(s, q, space, us, pick, []);
    InvIs(q);
  }

  lemma JoinedLeavesPage(s: State, r: Memory, i: nat, space: nat, page: nat, perm: nat, t: Slot)
    requires Core(s) && Live(s, i) && WellFormed(s.m) && WellFormed(r)
    requires Joined(s.m, r, space, page, s.shares[i].frames, |s.shares[i].frames|, perm)
    requires t in s.m.ptes && t.space == K.KERNEL && s.m.refs[s.m.ptes[t].frame] == 1
    ensures Undisturbed(s.m, r, t)
  {
    var fs := s.shares[i].frames;
    forall k: nat | k < |fs|
      ensures s.m.ptes[t].frame != fs[k]
    {
      KernelIsNotData(s, t, i, k);
    }
    assert s.m.ptes[t].frame !in fs[..|fs|];
    hide Core, Live;
  }

  lemma JoinedSlot(m: Memory, r: Memory, space: nat, page: nat, frames: seq<nat>, n: nat, perm: nat, u: Slot)
    requires WellFormed(m) && WellFormed(r) && n <= |frames| && Joined(m, r, space, page, frames, n, perm) && u in r.ptes
    ensures u in m.ptes || InRange(u, space, page, n)
  {
  }

  /** Then the frames: every new page has its table. */
  lemma GetTabled(q: State, t: State, i: nat, space: nat, page: nat, n: nat, perm: nat)
    requires Core(q) && Tabled(q) && Core(t) && Live(q, i) && WellFormed(q.m) && WellFormed(t.m) && i < |q.shares|
    requires n == |q.shares[i].frames| && Joined(q.m, t.m, space, page, q.shares[i].frames, n, perm) && t.tables == q.tables
    requires t.shares == q.shares[i := q.shares[i].(refs := q.shares[i].refs + 1)]
    requires forall u: Slot :: InRange(u, space, page, n) ==> HasTable(q.tables, space, Directory(u.page))
    ensures Named(t) && Tabled(t)
  {
    hide *;
    PartsOf(q);
    PartsOf(t);
    forall e: nat, d: nat | HasTable(t.tables, e, d)
      ensures Undisturbed(q.m, t.m, TablePage(q.tables, e, d))
    {
      TableFacts(q, e, d);
      JoinedLeavesPage(q, t.m, i, space, page, perm, TablePage(q.tables, e, d));
    }
    forall j: nat | Live(t, j)
      ensures Live(q, j) && j < |t.shares| && j < |q.shares|
      ensures AreFrames(q.m, q.shares[j].tables) && AreFrames(t.m, t.shares[j].tables)
      ensures StorePages(t.m, t.shares[j]) == StorePages(q.m, q.shares[j])
    {
      LiveIs(t, j);
      LiveIs(q, j);
      LiveIs(q, i);
      LiveFacts(q, j);
      JoinedLeavesStores(q, t.m, i, space, page, perm, j);
      JoinedLength(q.m, t.m, space, page, q.shares[i].frames, perm);
      StoreStays(q.m, t.m, q.shares[j]);
      StoreOkFrames(t.m, q.shares[j]);
      SameTables(t.m, q.shares[j], t.shares[j]);
    }
    forall u: Slot | u in t.m.ptes && u.space != K.KERNEL
      ensures HasTable(t.tables, u.space, Directory(u.page))
    {
      JoinedSlot(q.m, t.m, space, page, q.shares[i].frames, n, perm, u);
      if u in q.m.ptes {
        SlotHasTable(q, u);
      } else {
        InRangeSpace(u, space, page, n);
      }
    }
    TabledFrom(q, t);
  }

  lemma InRangeSpace(u: Slot, space: nat, page: nat, n: nat)
    requires InRange(u, space, page, n)
    ensures u.space == space && page <= u.page < page + n
  {
  }

  lemma GetStepIs(s: State, i: nat, space: nat, page: nat, pick: map<nat, nat>)
    requires Named(s) && i < |s.shares|
    requires NewTables(TablesOf(s.tables, space), pick, page, s.shares[i].pages) <= |s.m.free|
    ensures var sh := s.shares[i];
      var ts := TablesOf(s.tables, space);
      && WellFormed(s.m) && AreFrames(s.m, sh.frames) && |sh.frames| == sh.pages
      && Permission(sh.writable) == (if sh.writable then PERM_WRITEABLE + PERM_USER else PERM_USER)
      && GetStep(s, i, space, page, pick) ==
         State(GetRange(s.m, ts, pick, space, page, sh.frames, sh.pages, Permission(sh.writable)),
               s.shares[i := sh.(refs := sh.refs + 1)], s.views + {View(i, space, page)},
               s.tables[space := TablesAfter(ts, pick, page, sh.pages)])
  {
    hide GetRange, TablesAfter, TablesOf, NewTables, WellFormed;
  }

  /** Page k is mapped to frame k with the object's permission, and the frame counts once more. */
  ghost predicate GotAt(m: Memory, r: Memory, space: nat, page: nat, sh: Share, k: nat) {
    && k < |sh.frames| && Slot(space, page + k) in r.ptes
    && r.ptes[Slot(space, page + k)] == Pte(sh.frames[k], Permission(sh.writable))
    && sh.frames[k] < |m.refs| == |r.refs| && r.refs[sh.frames[k]] == m.refs[sh.frames[k]] + 1
  }

  lemma GotAtIs(m: Memory, r: Memory, space: nat, page: nat, sh: Share, k: nat)
    ensures GotAt(m, r, space, page, sh, k) <==>
      && k < |sh.frames| && Slot(space, page + k) in r.ptes
      && r.ptes[Slot(space, page + k)] == Pte(sh.frames[k], Permission(sh.writable))
      && sh.frames[k] < |m.refs| == |r.refs| && r.refs[sh.frames[k]] == m.refs[sh.frames[k]] + 1
  {
  }

  /**
   Getting an object raises its count and the count of each frame together and
   maps the frames in order; the only frames taken are those of new page tables.
   */
  lemma GetKeeps(s: State, i: nat, space: nat, page: nat, pick: map<nat, nat>)
    requires Inv(s) && Live(s, i) && i < |s.shares| && space != K.KERNEL && Picks(s.m, pick, [])
    requires s.shares[i].refs + 1 < COUNT_LIMIT && Unmapped(s.m, space, page, s.shares[i].pages)
    requires Coverable(TablesOf(s.tables, space), pick, page, s.shares[i].pages)
    requires NewTables(TablesOf(s.tables, space), pick, page, s.shares[i].pages) <= |s.m.free|
    ensures Named(s)
    ensures var sh := s.shares[i];
      var t := GetStep(s, i, space, page, pick);
      && Inv(t) && t.shares == s.shares[i := sh.(refs := sh.refs + 1)] && WellFormed(t.m)
      && |t.m.free| + |TablesOf(t.tables, space)| == |s.m.free| + |TablesOf(s.tables, space)|
      && forall k: nat :: k < sh.pages ==> GotAt(s.m, t.m, space, page, sh, k)
  {
    InvIs(s);
    hide *;
    LiveFacts(s, i);
    PartsOf(s);
    var sh := s.shares[i];
    var ts, n := TablesOf(s.tables, space), sh.pages;
    var us := TablesAfter(ts, pick, page, n);
    GetStepIs(s, i, space, page, pick);
    var t := GetStep(s, i, space, page, pick);
    var q := State(MakeTables(s.m, ts, pick, page, n), s.shares, s.views, t.tables);
    GetTables(s, q, pick, space, page, n);
    MappableOf(s, i);
    GetRangeIs(s.m, ts, pick, space, page, sh.frames, n, Permission(sh.writable));
    InvIs(q);
    GrewFacts(s.m, q.m);
    LiveSame(s, q);
    StillUnmapped(s.m, q.m, space, page, n);
    GetCore(q, t, i, space, page);
    TablesAfterAre(ts, pick, page, n);
    TablesOfSet(s.tables, space, us);
    forall u: Slot | InRange(u, space, page, n)
      ensures HasTable(q.tables, space, Directory(u.page))
    {
      InRangeSpace(u, space, page, n);
      PageHasTable(s, q.tables, us, pick, space, page, n, u);
    }
    GetTabled(q, t, i, space, page, n, Permission(sh.writable));
    JoinedFree(q.m, t.m, space, page, sh.frames, n, Permission(sh.writable));
    InvIs(t);
    forall k: nat | k < n
      ensures GotAt(s.m, t.m, space, page, sh, k)
    {
      JoinedAt(q.m, t.m, space, page, sh.frames, Permission(sh.writable), k);
      DataAt(s.m, sh, k);
      GrewRefs(s.m, q.m, sh.frames[k]);
      GotAtIs(s.m, t.m, space, page, sh, k);
    }
  }

  lemma MappableOf(s: State, i: nat)
    requires Core(s) && Live(s, i) && i < |s.shares| && s.shares[i].refs + 1 < COUNT_LIMIT
    ensures Mappable(s.m, s.shares[i].frames)
  {
    LiveFacts(s, i);
  }

  lemma GrewRefs(m: Memory, r: Memory, f: nat)
    requires Grew(m, r) && f < |m.refs| && 0 < m.refs[f]
    ensures f < |r.refs| && r.refs[f] == m.refs[f]
  {
  }

  lemma StillUnmapped(m: Memory, r: Memory, space: nat, page: nat, n: nat)
    requires Unmapped(m, space, page, n) && r.boot == m.boot
    requires forall u: Slot :: u in r.ptes && u.space == space ==> u in m.ptes
    ensures Unmapped(r, space, page, n)
  {
  }

  // ----- every step, every run -----

  lemma StepAllowed(s: State)
    requires Core(s)
    ensures Named(s) && forall i :: 0 <= i < |s.shares| && !s.shares[i].empty ==> 0 < s.shares[i].refs
  {
    forall i | 0 <= i < |s.shares| && !s.shares[i].empty
      ensures 0 < s.shares[i].refs
    {
      assert Live(s, i);
    }
  }

  lemma GetStepKeeps(s: State, owner: int, name: string, space: nat, page: nat, pick: map<nat, nat>)
    requires Inv(s) && Enabled(s, Get(owner, name, space, page, pick))
    ensures var i := Find(s.shares, owner, name);
      i < |s.shares| ==>
        Named(s) && NewTables(TablesOf(s.tables, space), pick, page, s.shares[i].pages) <= |s.m.free|
        && Inv(GetStep(s, i, space, page, pick))
  {
    var i := Find(s.shares, owner, name);
    if i < |s.shares| {
      assert Live(s, i);
      hide Inv, Unmapped;
      GetKeeps(s, i, space, page, pick);
    }
  }

  lemma CreateStepKeeps(s: State, op: Op)
    requires Inv(s) && op.Create? && Enabled(s, op) && Find(s.shares, op.owner, op.name) == |s.shares|
    ensures var n := RoundUp(op.size) / PAGE_SIZE;
      && 0 < n && Named(s) && |op.at| == 1 + TableCount(n) && FirstEmpty(s.shares, 0) < |s.shares|
      && n + |op.at| + NewTables(TablesOf(s.tables, op.space), op.pick, op.page, n) <= |s.m.free|
      && Inv(CreateStep(s, op.owner, op.name, n, op.writable, op.space, op.page, op.at, op.pick))
  {
    var n := RoundUp(op.size) / PAGE_SIZE;
    assert 0 < n;
    hide Inv, RoundUp, Room, Coverable;
    CreateKeeps(s, op.owner, op.name, n, op.writable, op.space, op.page, op.at, op.pick);
  }

  lemma FreeStepKeeps(s: State, v: View)
    requires Inv(s) && v in s.views && v.id < |s.shares|
    ensures Named(s) && 0 < s.shares[v.id].refs && Inv(FreeStep(s, v.id, v.space, v.page))
  {
    InvIs(s);
    hide *;
    ViewFacts(s, v);
    LiveFacts(s, v.id);
    if s.shares[v.id].refs == 1 {
      LastFreeKeeps(s, v);
    } else {
      FreeOneKeeps(s, v);
    }
  }

  /** Every call keeps shared objects, frames and page tables in agreement. */
  lemma StepKeeps(s: State, op: Op)
    requires Inv(s) && Enabled(s, op)
    ensures Named(s) && forall i :: 0 <= i < |s.shares| && !s.shares[i].empty ==> 0 < s.shares[i].refs
    ensures Inv(Step(s, op).0)
  {
    InvIs(s);
    StepAllowed(s);
    hide Inv, Core, Tabled, Named, CreateStep, GetStep, FreeStep, Room, Coverable, Unmapped, Picks;
    match op
    case Create(owner, name, size, writable, space, page, at, pick) =>
      if Find(s.shares, owner, name) == |s.shares| {
        CreateStepKeeps(s, op);
      }
    case Get(owner, name, space, page, pick) =>
      GetStepKeeps(s, owner, name, space, page, pick);
    case Free(space, page) =>
      var i := Search(s.shares, s.m, Slot(space, page), 0);
      if i < |s.shares| {
        FreeStepKeeps(s, View(i, space, page));
      }
  }

  /** create_shares_array: every slot empty, over memory whose pages and tables match. */
  lemma BootInv(m: Memory, count: nat, tables: map<nat, map<nat, nat>>)
    requires Exact(m, {})
    ensures var s := State(m, seq(count, _ => NO_SHARE), {}, tables);
      Named(s) && Core(s) && (Inv(s) <==> Tabled(s))
  {
    ExactIsWellFormed(m, {});
    hide Exact, Tabled;
  }

  /** t is reached from s by calls made as the code asks. */
  ghost predicate Reaches(s: State, ops: seq<Op>, t: State)
    decreases |ops|
  {
    if ops == [] then s == t
    else
      && Named(s) && Enabled(s, ops[0])
      && (forall i :: 0 <= i < |s.shares| && !s.shares[i].empty ==> 0 < s.shares[i].refs)
      && Reaches(Step(s, ops[0]).0, ops[1..], t)
  }

  /** Over any run from boot: objects stay apart, and counts, views, frames and page tables agree. */
  lemma {:induction false} RunsKeep(s: State, ops: seq<Op>, t: State)
    requires Inv(s) && Reaches(s, ops, t)
    ensures Inv(t)
    decreases |ops|
  {
    hide Inv, Step, Enabled, Named;
    if ops != [] {
      StepKeeps(s, ops[0]);
      RunsKeep(Step(s, ops[0]).0, ops[1..], t);
    }
  }

  /** A read-only object is never mapped writable by getSharedObject. */
  lemma ReadOnlyStaysReadOnly(s: State, i: nat, space: nat, page: nat, pick: map<nat, nat>, k: nat)
    requires Inv(s) && Live(s, i) && i < |s.shares| && space != K.KERNEL && Picks(s.m, pick, [])
    requires !s.shares[i].writable && k < s.shares[i].pages
    requires s.shares[i].refs + 1 < COUNT_LIMIT && Unmapped(s.m, space, page, s.shares[i].pages)
    requires Coverable(TablesOf(s.tables, space), pick, page, s.shares[i].pages)
    requires NewTables(TablesOf(s.tables, space), pick, page, s.shares[i].pages) <= |s.m.free|
    ensures Named(s)
    ensures var u := Slot(space, page + k);
      var m := GetStep(s, i, space, page, pick).m;
      u in m.ptes && m.ptes[u].perm == PERM_USER && m.ptes[u].frame == s.shares[i].frames[k]
  {
    InvIs(s);
    hide *;
    LiveFacts(s, i);
    GetKeeps(s, i, space, page, pick);
    GetStepIs(s, i, space, page, pick);
    GotAtIs(s.m, GetStep(s, i, space, page, pick).m, space, page, s.shares[i], k);
  }

  // ----- shared pages and freeMem -----

  /** Every environment is as freeMem takes it to be. */
  lemma EnvironmentIsOk(s: State, e: Env)
    requires Inv(s) && e.m == s.m && e.space != K.KERNEL && e.tables == TablesOf(s.tables, e.space)
    ensures EnvOk(e)
  {
    InvIs(s);
    hide *;
    PartsOf(s);
    NamedMemory(s);
    forall t: Slot | t in s.m.ptes && t.space == e.space
      ensures Directory(t.page) in e.tables
    {
      SlotHasTable(s, t);
      TablesOfIs(s.tables, e.space, Directory(t.page));
    }
    forall d: nat | d in e.tables
      ensures KernelPage(e.tables[d]) in s.m.ptes && s.m.ptes[KernelPage(e.tables[d])].frame < |s.m.refs|
      ensures s.m.refs[s.m.ptes[KernelPage(e.tables[d])].frame] == 1
    {
      TablesOfIs(s.tables, e.space, d);
      TableFacts(s, e.space, d);
    }
    forall d: nat, c: nat | d in e.tables && c in e.tables && d != c
      ensures e.tables[d] != e.tables[c]
    {
      TablesOfIs(s.tables, e.space, d);
      TablesOfIs(s.tables, e.space, c);
      TablesApart(s, e.space, d, c);
    }
    EnvOkFrom(e);
  }

  lemma EnvOkFrom(e: Env)
    requires Exact(e.m, {}) && WellFormed(e.m) && e.space != K.KERNEL
    requires forall t: Slot :: t in e.m.ptes && t.space == e.space ==> Directory(t.page) in e.tables
    requires forall d: nat :: d in e.tables ==>
               KernelPage(e.tables[d]) in e.m.ptes && e.m.ptes[KernelPage(e.tables[d])].frame < |e.m.refs|
               && e.m.refs[e.m.ptes[KernelPage(e.tables[d])].frame] == 1
    requires forall d: nat, c: nat :: d in e.tables && c in e.tables && d != c ==> e.tables[d] != e.tables[c]
    ensures EnvOk(e)
  {
  }

  /** getSharedObject puts no page in the working set: freeMem on a range that holds one leaves it mapped. */
  lemma SharedPageSurvivesFreeMem(s: State, i: nat, space: nat, page: nat, pick: map<nat, nat>, k: nat, e: Env, lo: nat, n: nat)
    requires Inv(s) && Live(s, i) && i < |s.shares| && space != K.KERNEL && Picks(s.m, pick, [])
    requires s.shares[i].refs + 1 < COUNT_LIMIT && Unmapped(s.m, space, page, s.shares[i].pages) && k < s.shares[i].pages
    requires Coverable(TablesOf(s.tables, space), pick, page, s.shares[i].pages)
    requires NewTables(TablesOf(s.tables, space), pick, page, s.shares[i].pages) <= |s.m.free|
    requires Named(s)
    requires var t := GetStep(s, i, space, page, pick);
      e.m == t.m && e.space == space && e.tables == TablesOf(t.tables, space)
    requires InPages(page + k, lo, n) && !Listed(e.ws, |e.ws|, page + k)
    ensures EnvOk(e) && Slot(space, page + k) in FreeMem(e, lo, n).m.ptes
  {
    hide *;
    var t := GetStep(s, i, space, page, pick);
    GetKeeps(s, i, space, page, pick);
    GotAtIs(s.m, t.m, space, page, s.shares[i], k);
    EnvironmentIsOk(t, e);
    UnlistedSurvives(e, lo, n, page + k);
  }
}
