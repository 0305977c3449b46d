/**
 kern/shared_memory_manager.c as it runs: the shares array and the frame table
 updated in place.  Each call is proved to perform its step of SharesSpec.
 */
module SharedMemory {
  import opened Blocks
  import opened Frames
  import opened FrameRanges
  import opened FrameTable
  import opened SharesMemory
  import opened SharesSpec
  import SharesCore
  import SharesCreate
  import SharesFree
  import SharesTheorems
  import F = FreeMem
  import K = KernelHeapSpec

  lemma FindIs(shares: seq<Share>, owner: int, name: string, i: nat)
    requires i <= |shares| && (i < |shares| ==> Is(shares[i], owner, name))
    requires forall j :: 0 <= j < i ==> !Is(shares[j], owner, name)
    ensures Find(shares, owner, name) == i
  {
  }

  lemma FirstEmptyIs(shares: seq<Share>, i: nat)
    requires i <= |shares| && (i < |shares| ==> shares[i].empty) && forall j :: 0 <= j < i ==> !shares[j].empty
    ensures FirstEmpty(shares, 0) == i
  {
  }

  lemma SearchIs(shares: seq<Share>, m: Memory, s: Slot, i: nat)
    requires i <= |shares| && (i < |shares| ==> !shares[i].empty && StartsAt(shares[i], m, s))
    requires forall j :: 0 <= j < i ==> shares[j].empty || !StartsAt(shares[j], m, s)
    ensures Search(shares, m, s, 0) == i
  {
  }

  /** Entries already there stay while the loop goes on. */
  ghost predicate KeepsEntries(m: Memory, r: Memory) {
    r.boot == m.boot && forall s: Slot :: s in m.ptes ==> s in r.ptes && r.ptes[s] == m.ptes[s]
  }

  lemma FramesStay(m: Memory, r: Memory, space: nat, page: nat, k: nat)
    requires KeepsEntries(m, r) && forall s: Slot :: InRange(s, space, page, k) ==> s in m.ptes
    ensures FramesAt(r, space, page, k) == FramesAt(m, space, page, k)
    ensures FramesAt(r, space, page, k + 1) == FramesAt(m, space, page, k) + [FrameAt(r, Slot(space, page + k))]
  {
    forall i: nat | i < k
      ensures FramesAt(r, space, page, k)[i] == FramesAt(m, space, page, k)[i]
    {
      var t := Slot(space, page + i);
      assert InRange(t, space, page, k);
      assert t in m.ptes && r.ptes[t] == m.ptes[t];
      assert FramesAt(r, space, page, k)[i] == FrameAt(r, t) && FramesAt(m, space, page, k)[i] == FrameAt(m, t);
    }
  }

  lemma FrameStays(m: Memory, r: Memory, s: Slot)
    requires KeepsEntries(m, r) && s in m.ptes
    ensures FrameAt(r, s) == FrameAt(m, s)
  {
  }

  lemma TablesStay(m: Memory, r: Memory, at: seq<nat>, c: nat)
    requires c <= |at| && KeepsEntries(m, r) && forall i :: 0 <= i < c ==> KernelPage(at[i]) in m.ptes
    ensures TablesAt(r, at[..c]) == TablesAt(m, at[..c])
    ensures c < |at| ==> TablesAt(r, at[..c + 1]) == TablesAt(m, at[..c]) + [FrameAt(r, KernelPage(at[c]))]
  {
  }

  /** A page gets a new frame in a slot that was empty. */
  lemma NewEntry(m: Memory, s: Slot, va: nat, perm: nat)
    requires Exact(m, {}) && m.free != [] && Empty(m, s)
    ensures WellFormed(m) && Exact(MapNew(m, s, va, perm), {}) && KeepsEntries(m, MapNew(m, s, va, perm))
    ensures FrameAt(MapNew(m, s, va, perm), s) == m.free[0] && MapNew(m, s, va, perm).boot == m.boot
    ensures forall t: Slot :: t in MapNew(m, s, va, perm).ptes <==> t in m.ptes || t == s
    ensures |MapNew(m, s, va, perm).free| == |m.free| - 1
  {
    MapNewKeeps(m, s, va, perm);
  }

  lemma GrewKeeps(m: Memory, r: Memory)
    requires Grew(m, r)
    ensures KeepsEntries(m, r) && r.boot == m.boot && WellFormed(r) && Exact(r, {}) && WellFormed(m)
  {
  }

  lemma FillStart(m: Memory, ts: map<nat, nat>, pick: map<nat, nat>, space: nat, page: nat, at: seq<nat>)
    requires WellFormed(m)
    ensures FramesAt(m, space, page, 0) == [] && TablesAt(m, at[..0]) == []
    ensures TableCount(0) == 0 && NewTables(ts, pick, page, 0) == 0 && TablesAfter(ts, pick, page, 0) == ts
    ensures StoreRange(m, ts, pick, space, page, 0, at) == m && Filled(m, m, ts, ts, space, page, 0, at, 0)
  {
    FilledNone(m, ts, space, page, at);
  }

  lemma {:induction false} CostMonotone(ts: map<nat, nat>, pick: map<nat, nat>, page: nat, k: nat, n: nat)
    requires k <= n
    ensures TableCount(k) <= TableCount(n) && NewTables(ts, pick, page, k) <= NewTables(ts, pick, page, n)
  {
    if k < n {
      CostMonotone(ts, pick, page, k, n - 1);
    }
  }

  /** Where the loop of createSharedObject is after k turns. */
  ghost predicate Filling(m0: Memory, m: Memory, was: map<nat, nat>, ts: map<nat, nat>, pick: map<nat, nat>, space: nat, page: nat,
                          k: nat, at: seq<nat>, stored: seq<nat>, store: seq<nat>)
    requires WellFormed(m0)
  {
    && WellFormed(m) && Exact(m, {}) && TableCount(k) <= |at|
    && k + TableCount(k) + NewTables(was, pick, page, k) <= |m0.free|
    && ts == TablesAfter(was, pick, page, k) && m == StoreRange(m0, was, pick, space, page, k, at)
    && stored == FramesAt(m, space, page, k) && store == TablesAt(m, at[..TableCount(k)])
    && Filled(m0, m, was, ts, space, page, k, at, TableCount(k))
  }

  lemma FillingStart(m: Memory, was: map<nat, nat>, pick: map<nat, nat>, space: nat, page: nat, n: nat, at: seq<nat>)
    requires Exact(m, {}) && WellFormed(m)
    ensures Filling(m, m, was, was, pick, space, page, 0, at, [], [])
  {
    FillStart(m, was, pick, space, page, at);
    hide Filled, StoreRange, FramesAt, TablesAt, NewTables, TableCount;
  }

  lemma FillingReady(m0: Memory, m: Memory, was: map<nat, nat>, ts: map<nat, nat>, pick: map<nat, nat>, space: nat, page: nat,
                     k: nat, n: nat, at: seq<nat>, stored: seq<nat>, store: seq<nat>)
    requires WellFormed(m0) && Filling(m0, m, was, ts, pick, space, page, k, at, stored, store) && k < n
    requires Room(m0, pick, space, page, n, at) && TableCount(n) <= |at|
    requires n + TableCount(n) + NewTables(was, pick, page, n) <= |m0.free|
    ensures space != K.KERNEL && Exact(m, {}) && WellFormed(m) && Empty(m, Slot(space, page + k))
    ensures TableCount(k + 1) <= |at| && StoreCost(ts, pick, page, k) <= |m.free|
    ensures TableCount(k) < TableCount(k + 1) ==> Empty(m, KernelPage(at[TableCount(k)]))
    ensures var d := Directory(page + k);
      Missing(ts, pick, d) ==>
        d in pick && Empty(m, KernelPage(pick[d])) && (TableCount(k) < TableCount(k + 1) ==> pick[d] != at[TableCount(k)])
  {
    hide Filled, FramesAt, TablesAt, StoreRange, NewTables, TableCount, TablesAfter, Room, Missing, Empty, Exact, WellFormed, Directory, StoreCost;
    RoomSpace(m0, pick, space, page, n, at);
    CostMonotone(was, pick, page, k + 1, n);
    StoreRangeNext(m0, was, pick, space, page, k, at);
    TablesAfterAre(was, pick, page, k);
    FilledFacts(m0, m, was, ts, pick, space, page, k, at, TableCount(k), n);
    MissingIs(was, ts, pick, Directory(page + k));
  }

  lemma FillingNext(m0: Memory, m: Memory, was: map<nat, nat>, ts: map<nat, nat>, pick: map<nat, nat>, space: nat, page: nat,
                    k: nat, n: nat, at: seq<nat>, stored: seq<nat>, store: seq<nat>,
                    r: Memory, us: map<nat, nat>, f: nat, table: seq<nat>)
    requires WellFormed(m0) && Filling(m0, m, was, ts, pick, space, page, k, at, stored, store) && k < n
    requires Room(m0, pick, space, page, n, at) && TableCount(n) <= |at|
    requires n + TableCount(n) + NewTables(was, pick, page, n) <= |m0.free|
    requires WellFormed(m) && StoreCost(ts, pick, page, k) <= |m.free| && TableCount(k + 1) <= |at|
    requires r == StoreOne(m, ts, pick, space, page, k, at) && us == WithTable(ts, pick, Directory(page + k))
    requires f == FrameAt(r, Slot(space, page + k)) && TableCount(k) <= TableCount(k + 1)
    requires table == if TableCount(k) < TableCount(k + 1) then [FrameAt(r, KernelPage(at[TableCount(k)]))] else []
    ensures Filling(m0, r, was, us, pick, space, page, k + 1, at, stored + [f], store + table)
  {
    hide Filled, FramesAt, TablesAt, StoreRange, StoreOne, NewTables, TableCount, TablesAfter, WithTable, Room, Missing, Empty, Exact, WellFormed;
    hide Directory, StoreCost, FrameAt, KeepsEntries, Grew, InRange;
    FillingReady(m0, m, was, ts, pick, space, page, k, n, at, stored, store);
    var c := TableCount(k);
    CostMonotone(was, pick, page, k + 1, n);
    StoreRangeNext(m0, was, pick, space, page, k, at);
    TablesAfterAre(was, pick, page, k);
    FilledFacts(m0, m, was, ts, pick, space, page, k, at, c, n);
    StoreOneGrows(m, ts, pick, space, page, k, at);
    GrewKeeps(m, r);
    FilledMore(m0, m, r, was, ts, pick, space, page, k, at, c, TableCount(k + 1));
    FramesStay(m, r, space, page, k);
    TablesStay(m, r, at, c);
  }

  lemma FillingEnd(m0: Memory, m: Memory, was: map<nat, nat>, ts: map<nat, nat>, pick: map<nat, nat>, space: nat, page: nat,
                   n: nat, at: seq<nat>, stored: seq<nat>, store: seq<nat>)
    requires WellFormed(m0) && Filling(m0, m, was, ts, pick, space, page, n, at, stored, store) && |at| == TableCount(n)
    ensures n + TableCount(n) + NewTables(was, pick, page, n) <= |m0.free|
    ensures m == StoreRange(m0, was, pick, space, page, n, at) && ts == TablesAfter(was, pick, page, n)
    ensures stored == FramesAt(m, space, page, n) && store == TablesAt(m, at)
  {
    hide Filled, FramesAt, TablesAt, StoreRange, NewTables, TableCount, TablesAfter;
    assert at[..|at|] == at;
  }

  lemma StoreOneIs(m: Memory, ts: map<nat, nat>, pick: map<nat, nat>, space: nat, page: nat, k: nat, at: seq<nat>)
    requires WellFormed(m) && StoreCost(ts, pick, page, k) <= |m.free| && TableCount(k + 1) <= |at|
    ensures var d := Directory(page + k);
      && m.free != [] && 1 + TableCost(ts, pick, d) <= |m.free|
      && TableCost(ts, pick, d) <= |MapNew(m, Slot(space, page + k), Base(page + k), PERM_WRITEABLE + PERM_USER).free|
      && var u := MakeTable(MapNew(m, Slot(space, page + k), Base(page + k), PERM_WRITEABLE + PERM_USER), ts, pick, d);
      && TableCount(k) <= TableCount(k + 1) && 0 < TABLE_ENTRIES
      && if k % TABLE_ENTRIES == 0 then
           && k / TABLE_ENTRIES == TableCount(k) < TableCount(k + 1) && u.free != []
           && StoreOne(m, ts, pick, space, page, k, at) ==
              MapNew(u, KernelPage(at[TableCount(k)]), Base(at[TableCount(k)]), PERM_WRITEABLE)
         else
           TableCount(k) == TableCount(k + 1) && StoreOne(m, ts, pick, space, page, k, at) == u
  {
    TableCountStep(k);
    NewFrameCount(m, Slot(space, page + k), Base(page + k), PERM_WRITEABLE + PERM_USER);
  }

  lemma EmptyIs(m: Memory, s: Slot)
    ensures Empty(m, s) <==> s !in m.ptes && s !in m.boot
  {
  }

  lemma SlotIs(space: nat, p: nat)
    ensures Slot(space, p).space == space
  {
  }

  class SharedMemory {
    const frames: FrameTable
    var shares: seq<Share>
    ghost var views: set<View>   // where objects were handed out and not yet freed
    var tables: map<nat, map<nat, nat>>   // the environments' page directories

    ghost function Abs(): State
      reads this, frames, frames.refs, frames.va
    {
      State(frames.View(), shares, views, tables)
    }

    ghost predicate Valid()
      reads this, frames, frames.refs, frames.va
    {
      frames.refs != frames.va && Inv(Abs())
    }

    /** create_shares_array, over frames and page directories that match */
    constructor (frames: FrameTable, count: nat, tables: map<nat, map<nat, nat>>)
      requires frames.refs != frames.va && Exact(frames.View(), {})
      requires var s := State(frames.View(), seq(count, _ => NO_SHARE), {}, tables); Named(s) ==> Tabled(s)
      ensures Valid() && this.frames == frames
      ensures Abs() == State(frames.View(), seq(count, _ => NO_SHARE), {}, tables)
    {
      this.frames, this.tables := frames, tables;
      shares := seq(count, _ => NO_SHARE);
      views := {};
      new;
      SharesTheorems.BootInv(frames.View(), count, tables);
    }

    /** get_share_object_ID */
    method Lookup(owner: int, name: string) returns (i: nat)
      ensures i == Find(shares, owner, name) <= |shares|
      ensures i < |shares| ==> !shares[i].empty && shares[i].owner == owner && shares[i].name == name
      ensures forall j :: 0 <= j < i ==> shares[j].empty || shares[j].owner != owner || shares[j].name != name
    {
      i := 0;
      while i < |shares|
        invariant i <= |shares| && forall j :: 0 <= j < i ==> !Is(shares[j], owner, name)
        invariant forall j :: 0 <= j < i ==> shares[j].empty || shares[j].owner != owner || shares[j].name != name
      {
        if !shares[i].empty && shares[i].owner == owner && shares[i].name == name {
          break;
        }
        i := i + 1;
      }
      FindIs(shares, owner, name, i);
    }

    /** The search of allocate_share_object. */
    method EmptySlot() returns (i: nat)
      ensures i == FirstEmpty(shares, 0)
    {
      i := 0;
      while i < |shares| && !shares[i].empty
        invariant i <= |shares| && forall j :: 0 <= j < i ==> !shares[j].empty
      {
        i := i + 1;
      }
      FirstEmptyIs(shares, i);
    }

    /** get_page_table, and create_page_table when there is none */
    method EnsureTable(ts: map<nat, nat>, pick: map<nat, nat>, d: nat) returns (us: map<nat, nat>)
      requires frames.refs != frames.va && WellFormed(frames.View()) && TableCost(ts, pick, d) <= |frames.View().free|
      modifies frames.Repr()
      ensures frames.View() == MakeTable(old(frames.View()), ts, pick, d) && us == WithTable(ts, pick, d)
    {
      hide MapNew, WellFormed;
      us := ts;
      if d !in ts && d in pick {
        frames.ViewFree();
        frames.MapNewFrame(KernelPage(pick[d]), Base(pick[d]), PERM_WRITEABLE);
        us := ts[d := pick[d]];
      }
    }

    /** allocate_frame and map_frame on an empty page of the environment; the table is made while the frame waits. */
    method NewPage(s: Slot, va: nat, ts: map<nat, nat>, pick: map<nat, nat>, d: nat) returns (f: nat, us: map<nat, nat>)
      requires frames.refs != frames.va && WellFormed(frames.View()) && Exact(frames.View(), {})
      requires 1 + TableCost(ts, pick, d) <= |frames.View().free|
      requires Empty(frames.View(), s) && s.space != K.KERNEL
      requires Missing(ts, pick, d) ==> Empty(frames.View(), KernelPage(pick[d]))
      modifies frames.Repr()
      ensures old(frames.View().free != [] && TableCost(ts, pick, d) <= |MapNew(frames.View(), s, va, PERM_WRITEABLE + PERM_USER).free|)
      ensures frames.View() == MakeTable(MapNew(old(frames.View()), s, va, PERM_WRITEABLE + PERM_USER), ts, pick, d)
      ensures us == WithTable(ts, pick, d) && old(frames.View().free != []) && f == old(frames.View().free[0])
    {
      hide *;
      ghost var m := frames.View();
      TableWhilePending(m, ts, pick, d, s, va, PERM_WRITEABLE + PERM_USER);
      frames.ViewFree();
      f := frames.Allocate();
      us := EnsureTable(ts, pick, d);
      Lengths();
      frames.Map(s, f, va, PERM_WRITEABLE + PERM_USER);
    }

    lemma Lengths()
      ensures |frames.View().refs| == frames.refs.Length
    {
    }

    /** One turn of the loop of createSharedObject. */
    method StoreTurn(ts: map<nat, nat>, pick: map<nat, nat>, space: nat, page: nat, k: nat, at: seq<nat>)
      returns (f: nat, table: seq<nat>, us: map<nat, nat>)
      requires frames.refs != frames.va && Exact(frames.View(), {}) && WellFormed(frames.View())
      requires space != K.KERNEL && Empty(frames.View(), Slot(space, page + k)) && TableCount(k + 1) <= |at|
      requires StoreCost(ts, pick, page, k) <= |frames.View().free|
      requires TableCount(k) < TableCount(k + 1) ==> Empty(frames.View(), KernelPage(at[TableCount(k)]))
      requires var d := Directory(page + k);
        Missing(ts, pick, d) ==>
          Empty(frames.View(), KernelPage(pick[d])) && (TableCount(k) < TableCount(k + 1) ==> pick[d] != at[TableCount(k)])
      modifies frames.Repr()
      ensures frames.View() == StoreOne(old(frames.View()), ts, pick, space, page, k, at)
      ensures us == WithTable(ts, pick, Directory(page + k)) && f == FrameAt(frames.View(), Slot(space, page + k))
      ensures TableCount(k) <= TableCount(k + 1)
      ensures table == if TableCount(k) < TableCount(k + 1) then [FrameAt(frames.View(), KernelPage(at[TableCount(k)]))] else []
    {
      hide *;
      ghost var m, d := frames.View(), Directory(page + k);
      ghost var s := Slot(space, page + k);
      SlotIs(space, page + k);
      StoreOneIs(m, ts, pick, space, page, k, at);
      NewEntry(m, s, Base(page + k), PERM_WRITEABLE + PERM_USER);
      ghost var t := MapNew(m, s, Base(page + k), PERM_WRITEABLE + PERM_USER);
      PageGrows(m, ts, pick, s, Base(page + k), d, PERM_WRITEABLE + PERM_USER);
      f, us := NewPage(Slot(space, page + k), Base(page + k), ts, pick, Directory(page + k));
      ghost var u := frames.View();
      GrewKeeps(t, u);
      FrameStays(t, u, s);
      table := [];
      if k % TABLE_ENTRIES == 0 {
        ghost var e := KernelPage(at[TableCount(k)]);
        KernelApart(at, TableCount(k), pick, d);
        MissingIs(ts, ts, pick, d);
        EmptyIs(m, e);
        EmptyIs(u, e);
        NewEntry(u, e, Base(at[TableCount(k)]), PERM_WRITEABLE);
        frames.ViewFree();
        var g := frames.free[0];
        StoreIndex(k);
        frames.MapNewFrame(KernelPage(at[k / TABLE_ENTRIES]), Base(at[k / TABLE_ENTRIES]), PERM_WRITEABLE);
        FrameStays(u, frames.View(), s);
        table := [g];
      }
    }

    /** The loop of createSharedObject: the frames stored, the frames of the store's tables, the page tables. */
    method FillStore(was: map<nat, nat>, pick: map<nat, nat>, space: nat, page: nat, n: nat, at: seq<nat>)
      returns (stored: seq<nat>, store: seq<nat>, ts: map<nat, nat>)
      requires frames.refs != frames.va && Exact(frames.View(), {}) && WellFormed(frames.View())
      requires n + TableCount(n) + NewTables(was, pick, page, n) <= |frames.View().free| && |at| == TableCount(n)
      requires Room(frames.View(), pick, space, page, n, at)
      modifies frames.Repr()
      ensures frames.View() == StoreRange(old(frames.View()), was, pick, space, page, n, at)
      ensures stored == FramesAt(frames.View(), space, page, n) && store == TablesAt(frames.View(), at)
      ensures ts == TablesAfter(was, pick, page, n)
    {
      hide *;
      ghost var m0 := frames.View();
      stored, store, ts := [], [], was;
      FillingStart(m0, was, pick, space, page, n, at);
      for k := 0 to n
        invariant frames.refs != frames.va && WellFormed(m0)
        invariant Filling(m0, frames.View(), was, ts, pick, space, page, k, at, stored, store)
      {
        ghost var m := frames.View();
        FillingReady(m0, m, was, ts, pick, space, page, k, n, at, stored, store);
        ghost var us := ts;
        var f, table;
        f, table, ts := StoreTurn(ts, pick, space, page, k, at);
        FillingNext(m0, m, was, us, pick, space, page, k, n, at, stored, store, frames.View(), ts, f, table);
        stored := stored + [f];
        store := store + table;
      }
      FillingEnd(m0, frames.View(), was, ts, pick, space, page, n, at, stored, store);
    }

    /** createSharedObject; at[0] and the rest are the pages kmalloc picks for the store, pick those for page tables. */
    method CreateSharedObject(owner: int, name: string, size: int, writable: bool, space: nat, page: nat, at: seq<nat>, pick: map<nat, nat>)
      returns (r: Result)
      requires Valid() && Enabled(Abs(), Create(owner, name, size, writable, space, page, at, pick))
      modifies this, frames.Repr()
      ensures old(Inv(Abs()))
      ensures var i := Find(old(shares), owner, name);
        if i < |old(shares)| then r == Exists && Abs() == old(Abs()) else r == Id(FirstEmpty(old(shares), 0))
      ensures r == Exists <==>
                exists j :: 0 <= j < |old(shares)| && !old(shares)[j].empty && old(shares)[j].owner == owner && old(shares)[j].name == name
      ensures Find(old(shares), owner, name) == |old(shares)| ==>
                var n := RoundUp(size) / PAGE_SIZE;
                && old(WellFormed(frames.View())) && |at| == 1 + TableCount(n) && FirstEmpty(old(shares), 0) < |old(shares)|
                && n + |at| + NewTables(TablesOf(old(tables), space), pick, page, n) <= |old(Abs()).m.free|
                && Abs() == CreateStep(old(Abs()), owner, name, n, writable, space, page, at, pick)
    {
      hide *;
      Opened();
      CreateAllowed(Abs(), owner, name, size, writable, space, page, at, pick);
      ghost var s := Abs();
      var i := Lookup(owner, name);
      if i < |shares| {
        return Exists;
      }
      var id := EmptySlot();
      var n := RoundUp(size) / PAGE_SIZE;
      SharesCreate.FirstOf(s.m, pick, space, page, n, at);
      NewEntry(s.m, KernelPage(at[0]), Base(at[0]), PERM_WRITEABLE);
      frames.ViewFree();
      frames.MapNewFrame(KernelPage(at[0]), Base(at[0]), PERM_WRITEABLE);
      SharesCreate.RoomAfter(s.m, frames.View(), pick, space, page, n, at);
      CreateStepIs(s, owner, name, n, writable, space, page, at, pick);
      var directory := if space in tables then tables[space] else map[];
      TablesOfNow(space);
      var stored, store, ts := FillStore(directory, pick, space, page, n, at[1..]);
      shares := shares[id := Share(owner, name, n, writable, 1, at[0], store, stored, false)];
      tables := tables[space := ts];
      views := views + {View(id, space, page)};
      Opened();
      r := Id(id);
    }

    lemma TablesOfNow(space: nat)
      ensures TablesOf(tables, space) == if space in tables then tables[space] else map[]
    {
    }

    /** getSharedObject */
    method GetSharedObject(owner: int, name: string, space: nat, page: nat, pick: map<nat, nat>) returns (r: Result)
      requires Valid() && Enabled(Abs(), Get(owner, name, space, page, pick))
      modifies this, frames.Repr()
      ensures old(Named(Abs()))
      ensures var i := Find(old(shares), owner, name);
        if i < |old(shares)| then
          && NewTables(TablesOf(old(tables), space), pick, page, old(shares)[i].pages) <= |old(Abs()).m.free|
          && r == Id(i) && Abs() == GetStep(old(Abs()), i, space, page, pick)
        else r == NotExists && Abs() == old(Abs())
      ensures r == NotExists <==>
                forall j :: 0 <= j < |old(shares)| ==>
                  old(shares)[j].empty || old(shares)[j].owner != owner || old(shares)[j].name != name
    {
      hide *;
      Opened();
      SharesFree.InvIs(Abs());
      SharesCore.PartsOf(Abs());
      ghost var s := Abs();
      GetAllowed(s, owner, name, space, page, pick);
      var i := Lookup(owner, name);
      if i == |shares| {
        return NotExists;
      }
      var sh := shares[i];
      NamedAt(s, i);
      SharesTheorems.GetStepIs(s, i, space, page, pick);
      var directory := if space in tables then tables[space] else map[];
      TablesOfNow(space);
      var ts := MapFrames(directory, pick, space, page, sh.frames, if sh.writable then PERM_WRITEABLE + PERM_USER else PERM_USER);
      shares := shares[i := sh.(refs := sh.refs + 1)];
      tables := tables[space := ts];
      views := views + {View(i, space, page)};
      Opened();
      r := Id(i);
    }

    method MapFrames(was: map<nat, nat>, pick: map<nat, nat>, space: nat, page: nat, fs: seq<nat>, perm: nat) returns (ts: map<nat, nat>)
      requires frames.refs != frames.va && WellFormed(frames.View()) && AreFrames(frames.View(), fs)
      requires NewTables(was, pick, page, |fs|) <= |frames.View().free|
      modifies frames.Repr()
      ensures frames.View() == GetRange(old(frames.View()), was, pick, space, page, fs, |fs|, perm)
      ensures ts == TablesAfter(was, pick, page, |fs|)
    {
      hide *;
      ghost var m := frames.View();
      ts := was;
      NoNewTables(was, pick, page);
      GetNone(m, was, pick, space, page, fs, perm);
      for k := 0 to |fs|
        invariant frames.refs != frames.va && WellFormed(frames.View())
        invariant NewTables(was, pick, page, k) <= |m.free| && ts == TablesAfter(was, pick, page, k)
        invariant frames.View() == GetRange(m, was, pick, space, page, fs, k, perm)
      {
        CostMonotone(was, pick, page, k + 1, |fs|);
        GetRangeNext(m, was, pick, space, page, fs, k, perm);
        ts := EnsureTable(ts, pick, Directory(page + k));
        Lengths();
        frames.Map(Slot(space, page + k), fs[k], Base(page + k), perm);
      }
    }

    /** The search loop of freeSharedObject. */
    method FindByStart(s: Slot) returns (i: nat)
      requires WellFormed(frames.View())
      ensures i == Search(shares, frames.View(), s, 0)
    {
      i := 0;
      ghost var m := frames.View();
      while i < |shares|
        invariant i <= |shares| && forall j :: 0 <= j < i ==> shares[j].empty || !StartsAt(shares[j], m, s)
      {
        if !shares[i].empty {
          var first := shares[i].frames;
          if s in frames.ptes {
            if first != [] && first[0] == frames.ptes[s].frame {
              break;
            }
          } else if first == [] {
            break;
          }
        }
        i := i + 1;
      }
      SearchIs(shares, m, s, i);
    }

    /** free_share_object, apart from the array slot. */
    method DropPages(tables: seq<nat>, dir: nat)
      requires frames.refs != frames.va && WellFormed(frames.View()) && AreFrames(frames.View(), tables)
      modifies frames.Repr()
      ensures frames.View() == UnmapFrame(DropTables(old(frames.View()), tables, |tables|), KernelPage(dir))
    {
      ghost var was := frames.View();
      hide UnmapFrame, WellFormed;
      for k := 0 to |tables|
        invariant frames.refs != frames.va && WellFormed(frames.View())
        invariant frames.View() == DropTables(was, tables, k)
      {
        SameLengths(frames.View());
        assert tables[k] < frames.va.Length && frames.va[tables[k]] == frames.View().va[tables[k]];
        frames.Unmap(KernelPage(frames.va[tables[k]] / PAGE_SIZE));
      }
      frames.Unmap(KernelPage(dir));
    }

    /** freeSharedObject */
    method FreeSharedObject(space: nat, page: nat) returns (r: Result)
      requires Valid() && Enabled(Abs(), Free(space, page))
      modifies this, frames.Repr()
      ensures old(Named(Abs())) && forall i :: 0 <= i < |old(shares)| && !old(shares)[i].empty ==> 0 < old(shares)[i].refs
      ensures var i := Search(old(shares), old(Abs()).m, Slot(space, page), 0);
        if i < |old(shares)| then r == Id(i) && Abs() == FreeStep(old(Abs()), i, space, page)
        else r == NotExists && Abs() == old(Abs())
    {
      hide *;
      Opened();
      SharesFree.InvIs(Abs());
      SharesCore.PartsOf(Abs());
      SharesTheorems.StepAllowed(Abs());
      ghost var s := Abs();
      SharesCore.NamedMemory(s);
      var i := FindByStart(Slot(space, page));
      if i == |shares| {
        return NotExists;
      }
      var sh := shares[i];
      NamedAt(s, i);
      PageOf(page);
      PageAligned(page);
      frames.UnmapPages(space, Base(page), sh.pages);
      var directory := if space in tables then tables[space] else map[];
      TablesOfNow(space);
      var ts := F.DropUnused(frames, space, directory, page, sh.pages);
      tables := tables[space := ts];
      SharesFree.FreeStepIs(s, i, space, page);
      if sh.refs - 1 == 0 {
        DropPages(sh.tables, sh.dir);
        shares := shares[i := NO_SHARE];
      } else {
        shares := shares[i := sh.(refs := sh.refs - 1)];
      }
      views := views - {View(i, space, page)};
      Opened();
      r := Id(i);
    }

    lemma Opened()
      ensures Valid() <==> frames.refs != frames.va && Inv(Abs())
      ensures Abs() == State(frames.View(), shares, views, tables)
      ensures this !in frames.Repr()
    {
    }
  }

  /** What Enabled promises a create that finds no such object. */
  lemma CreateAllowed(s: State, owner: int, name: string, size: int, writable: bool, space: nat, page: nat, at: seq<nat>, pick: map<nat, nat>)
    requires Inv(s) && Enabled(s, Create(owner, name, size, writable, space, page, at, pick))
    ensures 0 < size <= WORD - PAGE_SIZE && space != K.KERNEL && PAGE_SIZE > 0 && 0 <= RoundUp(size)
    ensures Exact(s.m, {}) && WellFormed(s.m)
    ensures Find(s.shares, owner, name) == |s.shares| ==>
              var n := RoundUp(size) / PAGE_SIZE;
              && FirstEmpty(s.shares, 0) < |s.shares| && |at| == 1 + TableCount(n) && s.m.free != []
              && n + |at| + NewTables(TablesOf(s.tables, space), pick, page, n) <= |s.m.free|
              && Room(s.m, pick, space, page, n, at)
  {
  }

  lemma GetAllowed(s: State, owner: int, name: string, space: nat, page: nat, pick: map<nat, nat>)
    requires Inv(s) && Enabled(s, Get(owner, name, space, page, pick))
    ensures var i := Find(s.shares, owner, name);
      i < |s.shares| ==> NewTables(TablesOf(s.tables, space), pick, page, s.shares[i].pages) <= |s.m.free|
  {
  }

  lemma RoomSpace(m: Memory, pick: map<nat, nat>, space: nat, page: nat, n: nat, at: seq<nat>)
    requires Room(m, pick, space, page, n, at)
    ensures space != K.KERNEL
  {
  }

  lemma StoreIndex(k: nat)
    requires k % TABLE_ENTRIES == 0
    ensures k / TABLE_ENTRIES == TableCount(k)
  {
  }

  lemma KernelApart(at: seq<nat>, c: nat, pick: map<nat, nat>, d: nat)
    requires c < |at|
    ensures d in pick && pick[d] != at[c] ==> KernelPage(pick[d]) != KernelPage(at[c])
    ensures KernelPage(at[c]).space == K.KERNEL
  {
  }

  lemma PageGrows(m: Memory, ts: map<nat, nat>, pick: map<nat, nat>, s: Slot, va: nat, d: nat, perm: nat)
    requires Exact(m, {}) && WellFormed(m) && 1 + TableCost(ts, pick, d) <= |m.free| && Empty(m, s) && s.space != K.KERNEL
    requires Missing(ts, pick, d) ==> Empty(m, KernelPage(pick[d]))
    ensures var t := MapNew(m, s, va, perm);
      && s in t.ptes && TableCost(ts, pick, d) <= |t.free| && WellFormed(t) && Grew(t, MakeTable(t, ts, pick, d))
      && MakeTable(t, ts, pick, d).boot == m.boot
      && forall u: Slot :: u in MakeTable(t, ts, pick, d).ptes <==>
           u in m.ptes || u == s || (Missing(ts, pick, d) && u == KernelPage(pick[d]))
  {
    MapNewKeeps(m, s, va, perm);
    hide Exact, WellFormed, MapNew, Grew, MakeTable;
    MakeTableGrows(MapNew(m, s, va, perm), ts, pick, d);
    GrewFacts(MapNew(m, s, va, perm), MakeTable(MapNew(m, s, va, perm), ts, pick, d));
  }

  lemma CreateStepIs(s: State, owner: int, name: string, n: nat, writable: bool, space: nat, page: nat, at: seq<nat>, pick: map<nat, nat>)
    requires WellFormed(s.m) && |at| == 1 + TableCount(n) && FirstEmpty(s.shares, 0) < |s.shares|
    requires n + |at| + NewTables(TablesOf(s.tables, space), pick, page, n) <= |s.m.free|
    ensures var t := MapNew(s.m, KernelPage(at[0]), Base(at[0]), PERM_WRITEABLE);
      var ts := TablesOf(s.tables, space);
      && n + TableCount(n) + NewTables(ts, pick, page, n) <= |t.free|
      && var m := StoreRange(t, ts, pick, space, page, n, at[1..]);
      CreateStep(s, owner, name, n, writable, space, page, at, pick) ==
        State(m, s.shares[FirstEmpty(s.shares, 0) := Share(owner, name, n, writable, 1, at[0],
                                                           TablesAt(m, at[1..]), FramesAt(m, space, page, n), false)],
              s.views + {View(FirstEmpty(s.shares, 0), space, page)}, s.tables[space := TablesAfter(ts, pick, page, n)])
  {
    NewFrameCount(s.m, KernelPage(at[0]), Base(at[0]), PERM_WRITEABLE);
  }

  lemma SameLengths(m: Memory)
    requires WellFormed(m)
    ensures |m.refs| == |m.va|
  {
  }

  lemma NamedAt(s: State, i: nat)
    requires Named(s) && i < |s.shares|
    ensures WellFormed(s.m) && AreFrames(s.m, s.shares[i].frames) && AreFrames(s.m, s.shares[i].tables)
    ensures |s.shares[i].frames| == s.shares[i].pages
  {
  }

  lemma PageAligned(page: nat)
    ensures Aligned(Base(page))
  {
  }
}
