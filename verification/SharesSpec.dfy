/**
 createSharedObject, getSharedObject and freeSharedObject of
 kern/shared_memory_manager.c as functions on memory, the shares array and the
 environments' page tables.
 */
module SharesSpec {
  import RR = RoundRobin
  import opened Blocks
  import opened Frames
  import opened FrameRanges
  import opened FrameTable
  import opened SharesMemory
  import opened FreeMemSpec
  import K = KernelHeapSpec

  /** `dir` is the kernel page of framesStorage, `tables` the frames its entries name. */
  datatype Share = Share(owner: int, name: string, pages: nat, writable: bool, refs: nat,
                         dir: nat, tables: seq<nat>, frames: seq<nat>, empty: bool)

  /** Where an environment sees an object: address space and first page. */
  datatype View = View(id: nat, space: nat, page: nat)

  /** `tables` holds, for each address space, the kernel page of each page table by directory index. */
  datatype State = State(m: Memory, shares: seq<Share>, views: set<View>, tables: map<nat, map<nat, nat>>)

  function TablesOf(tables: map<nat, map<nat, nat>>, space: nat): map<nat, nat> {
    if space in tables then tables[space] else map[]
  }

  predicate Is(sh: Share, owner: int, name: string) {
    !sh.empty && sh.owner == owner && sh.name == name
  }

  /** get_share_object_ID, |shares| standing for not found */
  function Find(shares: seq<Share>, owner: int, name: string): (i: nat)
    ensures i <= |shares| && (i < |shares| ==> Is(shares[i], owner, name))
    ensures forall j :: 0 <= j < i ==> !Is(shares[j], owner, name)
  {
    FindFrom(shares, owner, name, 0)
  }

  function FindFrom(shares: seq<Share>, owner: int, name: string, i: nat): (k: nat)
    requires i <= |shares|
    ensures i <= k <= |shares| && (k < |shares| ==> Is(shares[k], owner, name))
    ensures forall j :: i <= j < k ==> !Is(shares[j], owner, name)
    decreases |shares| - i
  {
    if i == |shares| || Is(shares[i], owner, name) then i else FindFrom(shares, owner, name, i + 1)
  }

  /** The first empty slot of the array. */
  function FirstEmpty(shares: seq<Share>, i: nat): (k: nat)
    requires i <= |shares|
    ensures i <= k <= |shares| && (k < |shares| ==> shares[k].empty)
    ensures forall j :: i <= j < k ==> !shares[j].empty
    decreases |shares| - i
  {
    if i == |shares| || shares[i].empty then i else FirstEmpty(shares, i + 1)
  }

  // ----- the calls -----

  datatype Result = Id(id: nat) | Exists | NotExists

  datatype Op =
    | Create(owner: int, name: string, size: int, writable: bool, space: nat, page: nat, at: seq<nat>, pick: map<nat, nat>)
    | Get(owner: int, name: string, space: nat, page: nat, pick: map<nat, nat>)
    | Free(space: nat, page: nat)

  function FrameAt(m: Memory, s: Slot): nat {
    if s in m.ptes then m.ptes[s].frame else 0
  }

  function FramesAt(m: Memory, space: nat, page: nat, n: nat): seq<nat> {
    seq<nat>(n, k requires 0 <= k < n => FrameAt(m, Slot(space, page + k)))
  }

  function TablesAt(m: Memory, at: seq<nat>): seq<nat> {
    seq<nat>(|at|, k requires 0 <= k < |at| => FrameAt(m, KernelPage(at[k])))
  }

  function Permission(writable: bool): nat {
    if writable then PERM_WRITEABLE + PERM_USER else PERM_USER
  }

  /** Memory after a create; at[0] becomes the store's directory. */
  function CreateMemory(m: Memory, ts: map<nat, nat>, pick: map<nat, nat>, space: nat, page: nat, n: nat, at: seq<nat>): (r: Memory)
    requires WellFormed(m) && |at| == 1 + TableCount(n) && n + |at| + NewTables(ts, pick, page, n) <= |m.free|
    ensures WellFormed(r)
  {
    NewFrameCount(m, KernelPage(at[0]), Base(at[0]), PERM_WRITEABLE);
    StoreRange(TakeKernelPage(m, at[0]), ts, pick, space, page, n, at[1..])
  }

  /** Whether the object's first stored frame is the one behind the slot; both missing counts as equal. */
  predicate StartsAt(sh: Share, m: Memory, s: Slot) {
    if s in m.ptes then sh.frames != [] && sh.frames[0] == m.ptes[s].frame else sh.frames == []
  }

  /** The search loop of freeSharedObject. */
  function Search(shares: seq<Share>, m: Memory, s: Slot, i: nat): (k: nat)
    requires i <= |shares|
    ensures i <= k <= |shares| && (k < |shares| ==> !shares[k].empty && StartsAt(shares[k], m, s))
    ensures forall j :: i <= j < k ==> shares[j].empty || !StartsAt(shares[j], m, s)
    decreases |shares| - i
  {
    if i == |shares| || (!shares[i].empty && StartsAt(shares[i], m, s)) then i else Search(shares, m, s, i + 1)
  }

  /** free_share_object: the tables, then the directory. */
  function DropStore(m: Memory, sh: Share): (r: Memory)
    requires WellFormed(m) && AreFrames(m, sh.tables)
    ensures WellFormed(r)
  {
    UnmapFrame(DropTables(m, sh.tables, |sh.tables|), KernelPage(sh.dir))
  }

  /**
   What the code asks of its callers: a size that does not round to zero, pages
   that are not mapped yet, room in the shares array and in memory, and, to
   free, the address where the object was mapped.  `at` and `pick` are the
   pages kmalloc gives for the object's store and for new page tables.
   */
  ghost predicate Enabled(s: State, op: Op) {
    match op
    case Create(owner, name, size, _, space, page, at, pick) =>
      && 0 < size <= WORD - PAGE_SIZE && space != K.KERNEL
      && var n := RoundUp(size) / PAGE_SIZE;
      && (Find(s.shares, owner, name) == |s.shares| ==>
            && FirstEmpty(s.shares, 0) < |s.shares|
            && |at| == 1 + TableCount(n) && Room(s.m, pick, space, page, n, at)
            && Coverable(TablesOf(s.tables, space), pick, page, n)
            && n + |at| + NewTables(TablesOf(s.tables, space), pick, page, n) <= |s.m.free|)
    case Get(owner, name, space, page, pick) =>
      && space != K.KERNEL
      && var i := Find(s.shares, owner, name);
      && (i < |s.shares| ==>
            && s.shares[i].refs + 1 < COUNT_LIMIT && Unmapped(s.m, space, page, s.shares[i].pages)
            && Picks(s.m, pick, []) && Coverable(TablesOf(s.tables, space), pick, page, s.shares[i].pages)
            && NewTables(TablesOf(s.tables, space), pick, page, s.shares[i].pages) <= |s.m.free|)
    case Free(space, page) =>
      var i := Search(s.shares, s.m, Slot(space, page), 0);
      i < |s.shares| ==> View(i, space, page) in s.views
  }

  /** Objects only name frames that exist. */
  ghost predicate Named(s: State) {
    && WellFormed(s.m)
    && forall i :: 0 <= i < |s.shares| ==> AreFrames(s.m, s.shares[i].frames) && AreFrames(s.m, s.shares[i].tables)
                                           && |s.shares[i].frames| == s.shares[i].pages
  }

  /** There is a page for every table the n pages need. */
  ghost predicate Coverable(ts: map<nat, nat>, pick: map<nat, nat>, page: nat, n: nat) {
    forall p: nat :: page <= p < page + n ==> Directory(p) in ts || Directory(p) in pick
  }

  ghost function CreateStep(s: State, owner: int, name: string, n: nat, writable: bool, space: nat, page: nat, at: seq<nat>, pick: map<nat, nat>): State
    requires WellFormed(s.m) && |at| == 1 + TableCount(n) && FirstEmpty(s.shares, 0) < |s.shares|
    requires n + |at| + NewTables(TablesOf(s.tables, space), pick, page, n) <= |s.m.free|
  {
    var j := FirstEmpty(s.shares, 0);
    var ts := TablesOf(s.tables, space);
    var m := CreateMemory(s.m, ts, pick, space, page, n, at);
    State(m, s.shares[j := Share(owner, name, n, writable, 1, at[0], TablesAt(m, at[1..]), FramesAt(m, space, page, n), false)],
          s.views + {View(j, space, page)}, s.tables[space := TablesAfter(ts, pick, page, n)])
  }

  ghost function GetStep(s: State, i: nat, space: nat, page: nat, pick: map<nat, nat>): State
    requires Named(s) && i < |s.shares|
    requires NewTables(TablesOf(s.tables, space), pick, page, s.shares[i].pages) <= |s.m.free|
  {
    var sh := s.shares[i];
    var ts := TablesOf(s.tables, space);
    State(GetRange(s.m, ts, pick, space, page, sh.frames, sh.pages, Permission(sh.writable)),
          s.shares[i := sh.(refs := sh.refs + 1)], s.views + {View(i, space, page)},
          s.tables[space := TablesAfter(ts, pick, page, sh.pages)])
  }

  const NO_SHARE: Share := Share(0, "", 0, false, 0, 0, [], [], true)

  ghost function FreeStep(s: State, i: nat, space: nat, page: nat): State
    requires Named(s) && i < |s.shares| && 0 < s.shares[i].refs
  {
    var sh := s.shares[i];
    var (m, ts) := DropEmptyTables(UnmapRange(s.m, space, page, sh.pages), space, TablesOf(s.tables, space), page, sh.pages);
    var views, tables := s.views - {View(i, space, page)}, s.tables[space := ts];
    if sh.refs == 1 then State(DropStore(m, sh), s.shares[i := NO_SHARE], views, tables)
    else State(m, s.shares[i := sh.(refs := sh.refs - 1)], views, tables)
  }

  ghost function Step(s: State, op: Op): (r: (State, Result))
    requires Named(s) && Enabled(s, op)
    requires forall i :: 0 <= i < |s.shares| && !s.shares[i].empty ==> 0 < s.shares[i].refs
  {
    match op
    case Create(owner, name, size, writable, space, page, at, pick) =>
      if Find(s.shares, owner, name) < |s.shares| then (s, Exists)
      else
        (CreateStep(s, owner, name, RoundUp(size) / PAGE_SIZE, writable, space, page, at, pick), Id(FirstEmpty(s.shares, 0)))
    case Get(owner, name, space, page, pick) =>
      var i := Find(s.shares, owner, name);
      if i < |s.shares| then (GetStep(s, i, space, page, pick), Id(i)) else (s, NotExists)
    case Free(space, page) =>
      var i := Search(s.shares, s.m, Slot(space, page), 0);
      if i < |s.shares| then (FreeStep(s, i, space, page), Id(i)) else (s, NotExists)
  }

  // ----- invariant -----

  /** Every frame of the object is counted once per environment that has the object. */
  ghost predicate DataOk(m: Memory, sh: Share) {
    && 0 < sh.pages == |sh.frames| && RR.NoRepeats(sh.frames) && 0 < sh.refs
    && forall k :: 0 <= k < |sh.frames| ==> Allocatable(m, sh.frames[k]) && m.refs[sh.frames[k]] == sh.refs
  }

  /** The store: a directory page and a page per 1024 frames, each on a frame of its own. */
  ghost predicate StoreOk(m: Memory, sh: Share)
    requires WellFormed(m)
  {
    && |sh.tables| == TableCount(sh.pages) && RR.NoRepeats(sh.tables)
    && OwnPages(m, sh.tables) && AreFrames(m, sh.tables)
    && KernelPage(sh.dir) in m.ptes && m.refs[m.ptes[KernelPage(sh.dir)].frame] == 1
    && KernelPage(sh.dir) !in TableSlots(m, sh.tables, |sh.tables|)
  }

  ghost function StorePages(m: Memory, sh: Share): set<Slot>
    requires WellFormed(m) && AreFrames(m, sh.tables)
  {
    TableSlots(m, sh.tables, |sh.tables|) + {KernelPage(sh.dir)}
  }

  /** Page k of the view is mapped to frame k of the object. */
  ghost predicate ViewAt(m: Memory, frames: seq<nat>, v: View, k: nat)
    requires k < |frames|
  {
    Slot(v.space, v.page + k) in m.ptes && m.ptes[Slot(v.space, v.page + k)].frame == frames[k]
  }

  ghost predicate ViewOk(m: Memory, shares: seq<Share>, v: View) {
    && v.id < |shares| && !shares[v.id].empty && v.space != K.KERNEL
    && forall k: nat :: k < |shares[v.id].frames| ==> ViewAt(m, shares[v.id].frames, v, k)
  }

  ghost function ViewsOf(views: set<View>, i: nat): set<View> {
    set v | v in views && v.id == i
  }

  ghost predicate Live(s: State, i: int) {
    0 <= i < |s.shares| && !s.shares[i].empty
  }

  /** No frame and no store page belongs to two objects. */
  ghost predicate SharesApart(m: Memory, a: Share, b: Share)
    requires WellFormed(m) && AreFrames(m, a.tables) && AreFrames(m, b.tables)
  {
    && (forall k, l :: 0 <= k < |a.frames| && 0 <= l < |b.frames| ==> a.frames[k] != b.frames[l])
    && StorePages(m, a) !! StorePages(m, b)
    && !(a.owner == b.owner && a.name == b.name)
  }

  /** Space e has a page table for directory entry d. */
  predicate HasTable(tables: map<nat, map<nat, nat>>, e: nat, d: nat) {
    e in tables && d in tables[e]
  }

  function TablePage(tables: map<nat, map<nat, nat>>, e: nat, d: nat): Slot
    requires HasTable(tables, e, d)
  {
    KernelPage(tables[e][d])
  }

  /** The table is a kernel page on a frame of its own, and no part of an object's store. */
  ghost predicate TableOk(s: State, e: nat, d: nat)
    requires Named(s) && HasTable(s.tables, e, d)
  {
    var t := TablePage(s.tables, e, d);
    && t in s.m.ptes && s.m.refs[s.m.ptes[t].frame] == 1
    && forall i :: Live(s, i) ==> t !in StorePages(s.m, s.shares[i])
  }

  /** Every mapped page has its table, and no two tables are on one page. */
  ghost predicate Tabled(s: State)
    requires Named(s)
  {
    && (forall e: nat, d: nat :: HasTable(s.tables, e, d) ==> TableOk(s, e, d))
    && (forall e: nat, d: nat, b: nat, c: nat :: HasTable(s.tables, e, d) && HasTable(s.tables, b, c) && (e != b || d != c) ==>
          TablePage(s.tables, e, d) != TablePage(s.tables, b, c))
    && (forall t: Slot :: t in s.m.ptes && t.space != K.KERNEL ==> HasTable(s.tables, t.space, Directory(t.page)))
  }

  /** Objects, views and reference counts agree, and so do pages and tables. */
  ghost predicate Inv(s: State) {
    Core(s) && Tabled(s)
  }

  ghost predicate Core(s: State) {
    && Exact(s.m, {}) && Named(s)
    && (forall i :: Live(s, i) ==> DataOk(s.m, s.shares[i]) && StoreOk(s.m, s.shares[i]))
    && (forall i, j :: Live(s, i) && Live(s, j) && i != j ==> SharesApart(s.m, s.shares[i], s.shares[j]))
    && (forall v :: v in s.views ==> ViewOk(s.m, s.shares, v))
    && (forall i: nat :: Live(s, i) ==> s.shares[i].refs == |ViewsOf(s.views, i)|)
  }
}
