/**
 What the shared-object calls answer, said on the objects' owners and names: a
 get finds the one live object of that owner and name, a create is refused
 exactly when there is one, and an object stays the same object, with the
 permission it was created with, until its creator frees it.
 */
module SharesAnswers {
  import RR = RoundRobin
  import opened Blocks
  import opened Frames
  import opened FrameRanges
  import opened FrameTable
  import opened SharesMemory
  import opened SharesSpec
  import opened SharesCore
  import opened SharesFree
  import opened SharesCreate
  import opened SharesTheorems
  import K = KernelHeapSpec

  // ----- which object -----

  lemma OneObject(s: State, i: nat, j: nat)
    requires Core(s) && i < |s.shares| && j < |s.shares| && !s.shares[i].empty && !s.shares[j].empty
    requires s.shares[i].owner == s.shares[j].owner && s.shares[i].name == s.shares[j].name
    ensures i == j
  {
    if i != j {
      LiveIs(s, i);
      LiveIs(s, j);
      ApartBoth(s, i, j);
    }
  }

  lemma FindIs(s: State, i: nat)
    requires Core(s) && i < |s.shares| && !s.shares[i].empty
    ensures Find(s.shares, s.shares[i].owner, s.shares[i].name) == i
  {
    var j := Find(s.shares, s.shares[i].owner, s.shares[i].name);
    assert Is(s.shares[i], s.shares[i].owner, s.shares[i].name);
    OneObject(s, i, j);
  }

  lemma NotFound(s: State, owner: int, name: string)
    requires forall j :: 0 <= j < |s.shares| ==> s.shares[j].empty || s.shares[j].owner != owner || s.shares[j].name != name
    ensures Find(s.shares, owner, name) == |s.shares|
  {
  }

  /** getSharedObject is about the live object of that owner and name, and fails exactly when there is none. */
  lemma GetAnswers(s: State, owner: int, name: string, space: nat, page: nat, pick: map<nat, nat>, i: nat)
    requires Inv(s) && Enabled(s, Get(owner, name, space, page, pick))
    ensures Named(s) && forall j :: 0 <= j < |s.shares| && !s.shares[j].empty ==> 0 < s.shares[j].refs
    ensures i < |s.shares| && !s.shares[i].empty && s.shares[i].owner == owner && s.shares[i].name == name ==>
              && NewTables(TablesOf(s.tables, space), pick, page, s.shares[i].pages) <= |s.m.free|
              && Step(s, Get(owner, name, space, page, pick)) == (GetStep(s, i, space, page, pick), Id(i))
    ensures (forall j :: 0 <= j < |s.shares| ==> s.shares[j].empty || s.shares[j].owner != owner || s.shares[j].name != name) <==>
              Step(s, Get(owner, name, space, page, pick)).1 == NotExists
    ensures Step(s, Get(owner, name, space, page, pick)).1 == NotExists ==> Step(s, Get(owner, name, space, page, pick)).0 == s
  {
    InvIs(s);
    StepAllowed(s);
    if i < |s.shares| && !s.shares[i].empty && s.shares[i].owner == owner && s.shares[i].name == name {
      FindIs(s, i);
    }
    var j := Find(s.shares, owner, name);
    if j == |s.shares| {
      assert forall k :: 0 <= k < |s.shares| ==> !Is(s.shares[k], owner, name);
    } else {
      assert Is(s.shares[j], owner, name);
    }
    hide Inv, Core, Tabled, Named, GetStep, Coverable, Picks, Unmapped;
  }

  /** The object a create of `size` bytes leaves: it has pages enough and not one too many. */
  predicate NewObject(sh: Share, owner: int, name: string, size: int, writable: bool) {
    && !sh.empty && sh.owner == owner && sh.name == name && sh.writable == writable && sh.refs == 1
    && size <= sh.pages * 4096 < size + 4096
  }

  /**
   createSharedObject is refused exactly when a live object has that owner and
   name; otherwise the lowest empty slot becomes the object, of the size asked
   for, and the creator has its first view.
   */
  lemma CreateAnswers(s: State, op: Op)
    requires Inv(s) && op.Create? && Enabled(s, op)
    ensures Named(s) && forall j :: 0 <= j < |s.shares| && !s.shares[j].empty ==> 0 < s.shares[j].refs
    ensures var (t, r) := Step(s, op);
      if exists j :: 0 <= j < |s.shares| && !s.shares[j].empty && s.shares[j].owner == op.owner && s.shares[j].name == op.name then
        r == Exists && t == s
      else
        exists i: nat :: i < |s.shares| == |t.shares| && s.shares[i].empty && (forall j :: 0 <= j < i ==> !s.shares[j].empty)
          && r == Id(i) && NewObject(t.shares[i], op.owner, op.name, op.size, op.writable) && t.shares == s.shares[i := t.shares[i]]
          && |op.at| == 1 + (t.shares[i].pages + 1023) / 1024
          && t.views == s.views + {View(i, op.space, op.page)}
  {
    hide *;
    StepAllowed2(s);
    if j: nat :| j < |s.shares| && !s.shares[j].empty && s.shares[j].owner == op.owner && s.shares[j].name == op.name {
      CreateRefused(s, op, j);
    } else {
      CreateMakes(s, op);
      TablesFor(Step(s, op).0.shares[FirstEmpty(s.shares, 0)].pages);
    }
  }

  lemma TablesFor(n: nat)
    ensures TableCount(n) == (n + 1023) / 1024
  {
  }

  lemma StepAllowed2(s: State)
    requires Inv(s)
    ensures Named(s) && forall j :: 0 <= j < |s.shares| && !s.shares[j].empty ==> 0 < s.shares[j].refs
  {
    hide *;
    InvIs(s);
    StepAllowed(s);
  }

  lemma CreateRefused(s: State, op: Op, j: nat)
    requires Inv(s) && op.Create? && Enabled(s, op) && Named(s)
    requires forall j :: 0 <= j < |s.shares| && !s.shares[j].empty ==> 0 < s.shares[j].refs
    requires j < |s.shares| && !s.shares[j].empty && s.shares[j].owner == op.owner && s.shares[j].name == op.name
    ensures Step(s, op) == (s, Exists)
  {
    InvIs(s);
    FindIs(s, j);
    hide Inv, Core, Tabled, Named, CreateStep, Coverable, Picks, Room, RoundUp, NewTables, Find;
  }

  lemma CreateMakes(s: State, op: Op)
    requires Inv(s) && op.Create? && Enabled(s, op) && Named(s)
    requires forall j :: 0 <= j < |s.shares| && !s.shares[j].empty ==> 0 < s.shares[j].refs
    requires forall j :: 0 <= j < |s.shares| ==> s.shares[j].empty || s.shares[j].owner != op.owner || s.shares[j].name != op.name
    ensures var (t, r) := Step(s, op); var i := FirstEmpty(s.shares, 0);
      && i < |s.shares| == |t.shares| && s.shares[i].empty && (forall j :: 0 <= j < i ==> !s.shares[j].empty)
      && r == Id(i) && NewObject(t.shares[i], op.owner, op.name, op.size, op.writable) && t.shares == s.shares[i := t.shares[i]]
      && t.views == s.views + {View(i, op.space, op.page)}
      && Inv(t) && t.shares[i].pages == RoundUp(op.size) / PAGE_SIZE
      && |op.at| == 1 + TableCount(t.shares[i].pages) && WellFormed(s.m)
      && t.shares[i].pages + |op.at| + NewTables(TablesOf(s.tables, op.space), op.pick, op.page, t.shares[i].pages) <= |s.m.free|
      && Room(s.m, op.pick, op.space, op.page, t.shares[i].pages, op.at)
      && t.shares[i].frames == FramesAt(t.m, op.space, op.page, t.shares[i].pages)
      && t.m == CreateMemory(s.m, TablesOf(s.tables, op.space), op.pick, op.space, op.page, t.shares[i].pages, op.at)
  {
    hide *;
    NotFound(s, op.owner, op.name);
    StepCreateIs(s, op);
    PageCount(op.size);
    CreateStepKeeps(s, op);
    NamedMemory(s);
    CreateFields(s, op.owner, op.name, RoundUp(op.size) / PAGE_SIZE, op.writable, op.space, op.page, op.at, op.pick);
    NewObjectFrom(Step(s, op).0.shares[FirstEmpty(s.shares, 0)], op.owner, op.name, op.size, op.writable);
  }

  lemma NewObjectFrom(sh: Share, owner: int, name: string, size: int, writable: bool)
    requires !sh.empty && sh.owner == owner && sh.name == name && sh.writable == writable && sh.refs == 1
    requires size <= sh.pages * 4096 < size + 4096
    ensures NewObject(sh, owner, name, size, writable)
  {
  }

  lemma StepCreateIs(s: State, op: Op)
    requires op.Create? && Enabled(s, op) && Named(s) && Find(s.shares, op.owner, op.name) == |s.shares|
    requires forall j :: 0 <= j < |s.shares| && !s.shares[j].empty ==> 0 < s.shares[j].refs
    ensures 0 < op.size <= WORD - PAGE_SIZE && 0 < PAGE_SIZE && 0 <= RoundUp(op.size) / PAGE_SIZE
    ensures var n := RoundUp(op.size) / PAGE_SIZE;
      && WellFormed(s.m) && |op.at| == 1 + TableCount(n) && FirstEmpty(s.shares, 0) < |s.shares|
      && n + |op.at| + NewTables(TablesOf(s.tables, op.space), op.pick, op.page, n) <= |s.m.free|
      && Room(s.m, op.pick, op.space, op.page, n, op.at)
      && Step(s, op) ==
         (CreateStep(s, op.owner, op.name, n, op.writable, op.space, op.page, op.at, op.pick), Id(FirstEmpty(s.shares, 0)))
  {
    hide RoundUp, CreateStep, NewTables, Room, Coverable, Find, FirstEmpty, WellFormed;
  }

  lemma CreateFields(s: State, owner: int, name: string, n: nat, writable: bool, space: nat, page: nat, at: seq<nat>, pick: map<nat, nat>)
    requires WellFormed(s.m) && |at| == 1 + TableCount(n) && FirstEmpty(s.shares, 0) < |s.shares|
    requires n + |at| + NewTables(TablesOf(s.tables, space), pick, page, n) <= |s.m.free|
    ensures var t, i := CreateStep(s, owner, name, n, writable, space, page, at, pick), FirstEmpty(s.shares, 0);
      && |t.shares| == |s.shares| && t.shares == s.shares[i := t.shares[i]] && t.views == s.views + {View(i, space, page)}
      && var sh := t.shares[i];
      && !sh.empty && sh.owner == owner && sh.name == name && sh.writable == writable && sh.refs == 1 && sh.pages == n
      && sh.frames == FramesAt(t.m, space, page, n)
      && t.m == CreateMemory(s.m, TablesOf(s.tables, space), pick, space, page, n, at)
  {
    hide CreateMemory, FramesAt, TablesAt, TablesAfter, NewTables, WellFormed;
  }

  lemma PageCount(size: int)
    requires 0 < size <= WORD - PAGE_SIZE
    ensures var n := RoundUp(size) / PAGE_SIZE; 0 < n && size <= n * 4096 < size + 4096
  {
  }

  /** freeSharedObject at an address where an object was handed out ends that view of that object. */
  lemma FreeAnswers(s: State, v: View)
    requires Inv(s) && v in s.views
    ensures Named(s) && forall j :: 0 <= j < |s.shares| && !s.shares[j].empty ==> 0 < s.shares[j].refs
    ensures Enabled(s, Free(v.space, v.page))
    ensures var (t, r) := Step(s, Free(v.space, v.page));
      r == Id(v.id) && t.views == s.views - {v}
  {
    InvIs(s);
    StepAllowed(s);
    SearchFinds(s, v);
    ViewFacts(s, v);
    assert View(v.id, v.space, v.page) == v;
    hide Inv, Core, Tabled, Named, UnmapRange, DropStore;
  }

  /** It does nothing when no live object's first frame is mapped at the address. */
  lemma FreeFindsNone(s: State, space: nat, page: nat)
    requires Inv(s) && Named(s) && Enabled(s, Free(space, page))
    requires forall j :: 0 <= j < |s.shares| && !s.shares[j].empty ==> 0 < s.shares[j].refs
    requires forall j :: 0 <= j < |s.shares| && !s.shares[j].empty ==>
               s.shares[j].frames == [] || Slot(space, page) !in s.m.ptes
               || s.m.ptes[Slot(space, page)].frame != s.shares[j].frames[0]
    ensures Step(s, Free(space, page)) == (s, NotExists)
  {
    InvIs(s);
    forall j: nat | j < |s.shares| && !s.shares[j].empty
      ensures !StartsAt(s.shares[j], s.m, Slot(space, page))
    {
      LiveIs(s, j);
      LiveFacts(s, j);
    }
    hide Inv, Core, Tabled, Named, FreeStep;
  }

  // ----- tables and kernel pages -----

  /** Every mapped user page has the page table of its 4 megabytes. */
  lemma MappedPageHasTable(s: State, u: Slot)
    requires Inv(s) && u in s.m.ptes && u.space != K.KERNEL
    ensures u.space in s.tables && u.page / 1024 in s.tables[u.space]
  {
    hide Core;
  }

  /** A kernel page for a store or a table is writable for the kernel only, and its frame remembers it. */
  lemma KernelPageIs(m: Memory, p: nat)
    requires Exact(m, {}) && WellFormed(m) && m.free != [] && Empty(m, KernelPage(p))
    ensures var r := TakeKernelPage(m, p);
      && r.ptes == m.ptes[KernelPage(p) := Pte(m.free[0], 2)]
      && m.free[0] < |r.va| && r.va[m.free[0]] == p * 4096
  {
    MapNewKeeps(m, KernelPage(p), Base(p), PERM_WRITEABLE);
    hide Exact, WellFormed, MapNew;
  }

  // ----- an object stays what it was -----

  /** The object of the view is live and is what sh was, but for its count. */
  ghost predicate SameObject(t: State, v: View, sh: Share) {
    && v in t.views && v.id < |t.shares| && !t.shares[v.id].empty
    && t.shares[v.id] == sh.(refs := t.shares[v.id].refs)
  }

  lemma StepSurvives(s: State, op: Op, v: View)
    requires Inv(s) && Named(s) && Enabled(s, op) && op != Free(v.space, v.page) && v in s.views && v.id < |s.shares|
    requires forall j :: 0 <= j < |s.shares| && !s.shares[j].empty ==> 0 < s.shares[j].refs
    ensures SameObject(Step(s, op).0, v, s.shares[v.id])
  {
    InvIs(s);
    hide Inv, Core, Tabled, Named, CreateStep, GetStep, FreeStep, Room, Coverable, Picks, RoundUp, Unmapped, NewTables;
    ViewFacts(s, v);
    LiveIs(s, v.id);
    match op
    case Create(owner, name, size, writable, space, page, at, pick) =>
      if Find(s.shares, owner, name) == |s.shares| {
        CreateStepKeeps(s, op);
        NamedMemory(s);
        CreateFields(s, owner, name, RoundUp(size) / PAGE_SIZE, writable, space, page, at, pick);
      }
    case Get(owner, name, space, page, pick) =>
      var i := Find(s.shares, owner, name);
      if i < |s.shares| {
        GetStepIs(s, i, space, page, pick);
      }
    case Free(space, page) =>
      var i := Search(s.shares, s.m, Slot(space, page), 0);
      if i < |s.shares| {
        FreeFields(s, i, space, page);
        if i == v.id && s.shares[i].refs == 1 {
          OnlyView(s, v, View(i, space, page));
        }
      }
  }

  lemma FreeFields(s: State, i: nat, space: nat, page: nat)
    requires Named(s) && i < |s.shares| && 0 < s.shares[i].refs
    ensures var t, sh := FreeStep(s, i, space, page), s.shares[i];
      && t.views == s.views - {View(i, space, page)}
      && t.shares == s.shares[i := if sh.refs == 1 then NO_SHARE else sh.(refs := sh.refs - 1)]
  {
    FreeStepIs(s, i, space, page);
    hide Named, FreeStep, UnmapRange, DropTables;
  }

  /** Over any run in which its creator does not free it. */
  lemma {:induction false} Survives(s: State, ops: seq<Op>, t: State, v: View)
    requires Inv(s) && Reaches(s, ops, t) && v in s.views && v.id < |s.shares| && Free(v.space, v.page) !in ops
    ensures Inv(t) && SameObject(t, v, s.shares[v.id])
    decreases |ops|
  {
    hide Inv, Step, Enabled, Named;
    if ops == [] {
      InvIs(s);
      hide Core, Tabled;
      ViewFacts(s, v);
      LiveIs(s, v.id);
    } else {
      assert ops[0] in ops && forall op :: op in ops[1..] ==> op in ops;
      StepKeeps(s, ops[0]);
      StepSurvives(s, ops[0], v);
      Survives(Step(s, ops[0]).0, ops[1..], t, v);
    }
  }

  // ----- permissions -----

  /** The first k pages are mapped writable for the user. */
  ghost predicate Writable(m: Memory, space: nat, page: nat, k: nat) {
    forall p: nat :: page <= p < page + k ==> Slot(space, p) in m.ptes && m.ptes[Slot(space, p)].perm == 2 + 4
  }

  lemma WritableGrew(m: Memory, r: Memory, space: nat, page: nat, k: nat)
    requires Writable(m, space, page, k) && Grew(m, r)
    ensures Writable(r, space, page, k)
  {
    GrewFacts(m, r);
    hide Grew, Exact, WellFormed, Gained;
  }

  lemma WritableNext(m: Memory, space: nat, page: nat, k: nat)
    requires Writable(m, space, page, k)
    requires Slot(space, page + k) in m.ptes && m.ptes[Slot(space, page + k)].perm == 2 + 4
    ensures Writable(m, space, page, k + 1)
  {
  }

  /** The k-th turn of the loop of createSharedObject can be made. */
  ghost predicate TurnReady(m: Memory, ts: map<nat, nat>, pick: map<nat, nat>, space: nat, page: nat, k: nat, at: seq<nat>) {
    && Exact(m, {}) && WellFormed(m) && StoreCost(ts, pick, page, k) <= |m.free| && TableCount(k + 1) <= |at|
    && space != K.KERNEL && Empty(m, Slot(space, page + k))
    && (TableCount(k) < TableCount(k + 1) ==> Empty(m, KernelPage(at[TableCount(k)])))
    && (Missing(ts, pick, Directory(page + k)) ==>
          && Empty(m, KernelPage(pick[Directory(page + k)]))
          && (TableCount(k) < TableCount(k + 1) ==> pick[Directory(page + k)] != at[TableCount(k)]))
  }

  lemma TurnFits(m: Memory, ts: map<nat, nat>, pick: map<nat, nat>, space: nat, page: nat, k: nat, at: seq<nat>)
    requires TurnReady(m, ts, pick, space, page, k, at)
    ensures WellFormed(m) && StoreCost(ts, pick, page, k) <= |m.free| && TableCount(k + 1) <= |at|
  {
    hide TableCount, StoreCost, Exact, Directory;
  }

  /** The page such a turn maps is writable for its environment. */
  lemma StoreOneMaps(m: Memory, ts: map<nat, nat>, pick: map<nat, nat>, space: nat, page: nat, k: nat, at: seq<nat>)
    requires TurnReady(m, ts, pick, space, page, k, at)
    requires WellFormed(m) && StoreCost(ts, pick, page, k) <= |m.free| && TableCount(k + 1) <= |at|
    ensures var r, u := StoreOne(m, ts, pick, space, page, k, at), Slot(space, page + k);
      u in r.ptes && r.ptes[u].perm == 2 + 4
  {
    TableCountStep(k);
    hide Exact, WellFormed, Grew, TableCount, Directory, Empty;
    var s, b := Slot(space, page + k), Directory(page + k);
    PermissionIs();
    MapNewKeeps(m, s, Base(page + k), PERM_WRITEABLE + PERM_USER);
    hide MapNew;
    var t := MapNew(m, s, Base(page + k), PERM_WRITEABLE + PERM_USER);
    var u := MakeTable(t, ts, pick, b);
    StillEmpty(m, t, s);
    MakeTableGrows(t, ts, pick, b);
    GrewFacts(t, u);
    if k % TABLE_ENTRIES == 0 {
      var e := KernelPage(at[k / TABLE_ENTRIES]);
      EmptyAfterTable(m, t, u, ts, pick, b, s, e);
      GrowOne(u, e, PERM_WRITEABLE);
      GrewFacts(u, StoreOne(m, ts, pick, space, page, k, at));
    }
  }

  lemma PermissionIs()
    ensures PERM_WRITEABLE == 2 && PERM_USER == 4
  {
  }

  lemma StillEmpty(m: Memory, t: Memory, s: Slot)
    requires t.boot == m.boot && s.space != K.KERNEL && forall u: Slot :: u in t.ptes <==> u in m.ptes || u == s
    ensures forall p: nat :: Empty(m, KernelPage(p)) ==> Empty(t, KernelPage(p))
  {
  }

  lemma EmptyAfterTable(m: Memory, t: Memory, u: Memory, ts: map<nat, nat>, pick: map<nat, nat>, d: nat, s: Slot, e: Slot)
    requires t.boot == m.boot && u.boot == t.boot && e.space == K.KERNEL && s.space != K.KERNEL && Empty(m, e)
    requires forall v: Slot :: v in t.ptes <==> v in m.ptes || v == s
    requires forall v: Slot :: v in u.ptes <==> v in t.ptes || (Missing(ts, pick, d) && v == KernelPage(pick[d]))
    requires Missing(ts, pick, d) ==> KernelPage(pick[d]) != e
    ensures Empty(u, e)
  {
  }

  lemma StoreTurnMaps(m: Memory, ts: map<nat, nat>, pick: map<nat, nat>, space: nat, page: nat, k: nat, at: seq<nat>)
    requires TurnReady(m, ts, pick, space, page, k, at) && Writable(m, space, page, k)
    requires WellFormed(m) && StoreCost(ts, pick, page, k) <= |m.free| && TableCount(k + 1) <= |at|
    ensures Writable(StoreOne(m, ts, pick, space, page, k, at), space, page, k + 1)
  {
    TurnGrows(m, ts, pick, space, page, k, at);
    hide *;
    var r := StoreOne(m, ts, pick, space, page, k, at);
    StoreOneMaps(m, ts, pick, space, page, k, at);
    WritableGrew(m, r, space, page, k);
    WritableNext(r, space, page, k);
  }

  lemma TurnGrows(m: Memory, ts: map<nat, nat>, pick: map<nat, nat>, space: nat, page: nat, k: nat, at: seq<nat>)
    requires TurnReady(m, ts, pick, space, page, k, at)
    requires WellFormed(m) && StoreCost(ts, pick, page, k) <= |m.free| && TableCount(k + 1) <= |at|
    ensures Grew(m, StoreOne(m, ts, pick, space, page, k, at))
  {
    hide TableCount, StoreCost, Exact, Directory, Empty, Missing, StoreOne, Grew, WellFormed;
    StoreOneGrows(m, ts, pick, space, page, k, at);
  }

  /** Every page createSharedObject maps is writable for the creator. */
  lemma {:induction false} StoreRangeMaps(m: Memory, ts: map<nat, nat>, pick: map<nat, nat>, space: nat, page: nat, n: nat, at: seq<nat>)
    requires Exact(m, {}) && n + TableCount(n) + NewTables(ts, pick, page, n) <= |m.free| && TableCount(n) <= |at|
    requires Room(m, pick, space, page, n, at)
    ensures WellFormed(m) && Writable(StoreRange(m, ts, pick, space, page, n, at), space, page, n)
  {
    hide *;
    ExactIsWellFormed(m, {});
    if n == 0 {
      NoneWritable(StoreRange(m, ts, pick, space, page, 0, at), space, page);
    } else {
      var k := n - 1;
      var us := TablesAfter(ts, pick, page, k);
      RoomShorter(m, pick, space, page, n, at);
      StoreRangeNext(m, ts, pick, space, page, k, at);
      StoreRangeMaps(m, ts, pick, space, page, k, at);
      StoreGrows(m, ts, pick, space, page, k, at);
      var t := StoreRange(m, ts, pick, space, page, k, at);
      GrewFacts(m, t);
      TurnIsReady(m, t, ts, us, pick, space, page, k, n, at);
      StoreTurnMaps(t, us, pick, space, page, k, at);
    }
  }

  lemma TurnIsReady(m: Memory, t: Memory, ts: map<nat, nat>, us: map<nat, nat>, pick: map<nat, nat>, space: nat, page: nat, k: nat, n: nat, at: seq<nat>)
    requires k < n && TableCount(k) <= |at| && TableCount(k + 1) <= |at| && Room(m, pick, space, page, n, at) && us == TablesAfter(ts, pick, page, k)
    requires Filled(m, t, ts, us, space, page, k, at, TableCount(k)) && Exact(t, {}) && WellFormed(t)
    requires StoreCost(us, pick, page, k) <= |t.free|
    ensures TurnReady(t, us, pick, space, page, k, at)
  {
    hide TableCount, StoreCost, Exact, WellFormed, TablesAfter, Filled, Empty, Directory;
    TablesAfterAre(ts, pick, page, k);
    FilledFacts(m, t, ts, us, pick, space, page, k, at, TableCount(k), n);
    MissingIs(ts, us, pick, Directory(page + k));
  }

  lemma NoneWritable(m: Memory, space: nat, page: nat)
    ensures Writable(m, space, page, 0)
  {
  }

  lemma WritableAt(m: Memory, space: nat, page: nat, n: nat, k: nat)
    requires Writable(m, space, page, n) && k < n
    ensures var u := Slot(space, page + k); u in m.ptes && m.ptes[u].perm == 2 + 4 && FrameAt(m, u) == m.ptes[u].frame
    ensures |FramesAt(m, space, page, n)| == n && FramesAt(m, space, page, n)[k] == FrameAt(m, Slot(space, page + k))
  {
    assert page <= page + k < page + n;
  }

  /** A page that was not mapped before is on a frame that remembers it. */
  lemma GrewRemembers(m: Memory, r: Memory, u: Slot)
    requires Grew(m, r) && u in r.ptes && u !in m.ptes
    ensures r.ptes[u].frame < |r.va| && r.va[r.ptes[u].frame] == u.page * 4096
  {
  }

  /** Memory after a create: the creator's pages are writable. */
  lemma CreateMemoryMaps(m: Memory, ts: map<nat, nat>, pick: map<nat, nat>, space: nat, page: nat, n: nat, at: seq<nat>)
    requires Exact(m, {}) && WellFormed(m) && Room(m, pick, space, page, n, at) && |at| == 1 + TableCount(n)
    requires n + |at| + NewTables(ts, pick, page, n) <= |m.free|
    ensures Writable(CreateMemory(m, ts, pick, space, page, n, at), space, page, n)
  {
    RestOf(at);
    CreateMemoryIs(m, ts, pick, space, page, n, at);
    FirstOf(m, pick, space, page, n, at);
    hide *;
    GrowOne(m, KernelPage(at[0]), PERM_WRITEABLE);
    var t := MapNew(m, KernelPage(at[0]), Base(at[0]), PERM_WRITEABLE);
    GrewFacts(m, t);
    RoomAfter(m, t, pick, space, page, n, at);
    StoreRangeMaps(t, ts, pick, space, page, n, at[1..]);
  }

  /** Page k of the range is mapped to the frame, with write permission or without, and the frame remembers it. */
  predicate MapsTo(m: Memory, space: nat, page: nat, k: nat, f: nat, writable: bool) {
    var u := Slot(space, page + k);
    u in m.ptes && m.ptes[u] == Pte(f, if writable then 2 + 4 else 4) && f < |m.va| && m.va[f] == (page + k) * 4096
  }

  /** The creator's pages are mapped to the object's frames in order, writable whatever the object is for others. */
  lemma CreateMaps(s: State, op: Op, k: nat)
    requires Inv(s) && op.Create? && Enabled(s, op) && Named(s)
    requires forall j :: 0 <= j < |s.shares| && !s.shares[j].empty ==> 0 < s.shares[j].refs
    requires forall j :: 0 <= j < |s.shares| ==> s.shares[j].empty || s.shares[j].owner != op.owner || s.shares[j].name != op.name
    ensures var (t, r) := Step(s, op);
      && r.Id? && r.id < |t.shares|
      && (k < t.shares[r.id].pages ==>
            k < |t.shares[r.id].frames| && MapsTo(t.m, op.space, op.page, k, t.shares[r.id].frames[k], true))
  {
    hide *;
    CreateMakes(s, op);
    InvIs(s);
    PartsOf(s);
    var (t, r) := Step(s, op);
    CreatedMaps(s.m, t.m, TablesOf(s.tables, op.space), op.pick, op.space, op.page, op.at, t.shares[r.id], k);
  }

  lemma CreatedMaps(m: Memory, r: Memory, ts: map<nat, nat>, pick: map<nat, nat>, space: nat, page: nat, at: seq<nat>, sh: Share, k: nat)
    requires Exact(m, {}) && WellFormed(m) && Room(m, pick, space, page, sh.pages, at) && |at| == 1 + TableCount(sh.pages)
    requires sh.pages + |at| + NewTables(ts, pick, page, sh.pages) <= |m.free|
    requires r == CreateMemory(m, ts, pick, space, page, sh.pages, at) && sh.frames == FramesAt(r, space, page, sh.pages)
    ensures k < sh.pages ==> k < |sh.frames| && MapsTo(r, space, page, k, sh.frames[k], true)
  {
    hide *;
    if k < sh.pages {
      CreateMemoryMaps(m, ts, pick, space, page, sh.pages, at);
      WritableAt(r, space, page, sh.pages, k);
      CreateGrows(m, ts, pick, space, page, sh.pages, at);
      NewPage(m, pick, space, page, sh.pages, at, k);
      GrewRemembers(m, r, Slot(space, page + k));
      SlotPage(space, page + k);
      MapsToFrom(r, space, page, k, sh.frames[k], true);
    }
  }

  lemma NewPage(m: Memory, pick: map<nat, nat>, space: nat, page: nat, n: nat, at: seq<nat>, k: nat)
    requires Room(m, pick, space, page, n, at) && k < n
    ensures Slot(space, page + k) !in m.ptes
  {
    assert InRange(Slot(space, page + k), space, page, n);
  }

  lemma SlotPage(space: nat, p: nat)
    ensures Slot(space, p).page == p
  {
  }

  lemma MapsToFrom(m: Memory, space: nat, page: nat, k: nat, f: nat, writable: bool)
    requires f < |m.va| && m.va[f] == (page + k) * 4096
    requires Slot(space, page + k) in m.ptes && m.ptes[Slot(space, page + k)].frame == f
    requires m.ptes[Slot(space, page + k)].perm == if writable then 2 + 4 else 4
    ensures MapsTo(m, space, page, k, f, writable)
  {
  }

  /**
   Whatever happens between, as long as the creator has not freed it: a get of
   the owner and name finds the object created, and maps its frames in order,
   writable exactly if it was created so.
   */
  lemma CreateThenGet(s: State, op: Op, ops: seq<Op>, t: State, space: nat, page: nat, pick: map<nat, nat>, k: nat)
    requires Inv(s) && op.Create? && Enabled(s, op) && Named(s)
    requires forall j :: 0 <= j < |s.shares| && !s.shares[j].empty ==> 0 < s.shares[j].refs
    requires forall j :: 0 <= j < |s.shares| ==> s.shares[j].empty || s.shares[j].owner != op.owner || s.shares[j].name != op.name
    requires Reaches(Step(s, op).0, ops, t) && Free(op.space, op.page) !in ops
    requires Enabled(t, Get(op.owner, op.name, space, page, pick))
    ensures Named(t) && forall j :: 0 <= j < |t.shares| && !t.shares[j].empty ==> 0 < t.shares[j].refs
    ensures var (u, r) := Step(s, op); var (w, q) := Step(t, Get(op.owner, op.name, space, page, pick));
      && r.Id? && q == r && r.id < |u.shares|
      && (k < u.shares[r.id].pages ==>
            k < |u.shares[r.id].frames| && MapsTo(w.m, space, page, k, u.shares[r.id].frames[k], op.writable))
  {
    hide *;
    CreateMakes(s, op);
    CreateMaps(s, op, k);
    var (u, r) := Step(s, op);
    var v := View(r.id, op.space, op.page);
    NewObjectIs(u.shares[r.id], op.owner, op.name, op.size, op.writable);
    Survives(u, ops, t, v);
    SameObjectIs(t, v, u.shares[r.id]);
    GetAnswers(t, op.owner, op.name, space, page, pick, r.id);
    GetReady(t, op.owner, op.name, space, page, pick, r.id);
    GetKeeps(t, r.id, space, page, pick);
    if k < u.shares[r.id].pages {
      GotAtIs(t.m, GetStep(t, r.id, space, page, pick).m, space, page, t.shares[r.id], k);
      GetRemembers(t, r.id, space, page, pick, k);
      PermissionValue(op.writable);
      MapsToFrom(GetStep(t, r.id, space, page, pick).m, space, page, k, u.shares[r.id].frames[k], op.writable);
    }
  }

  /** map_frame remembers the last address: after the loop each frame remembers its page. */
  lemma {:induction false} RangeRemembers(m: Memory, space: nat, page: nat, frames: seq<nat>, n: nat, perm: nat, k: nat)
    requires Exact(m, {}) && n <= |frames| && RR.NoRepeats(frames) && Unmapped(m, space, page, n)
    requires AreFrames(m, frames) && Mappable(m, frames) && k < n
    ensures WellFormed(m)
    ensures var r := MapRange(m, space, page, frames, n, perm);
      frames[k] < |r.va| && r.va[frames[k]] == (page + k) * 4096
  {
    hide *;
    ExactIsWellFormed(m, {});
    var j := n - 1;
    MapRangeNext(m, space, page, frames, j, perm);
    UnmappedShorter(m, space, page, n);
    MapRangeKeeps(m, space, page, frames, j, perm);
    var t := MapRange(m, space, page, frames, j, perm);
    MappableAt(m, frames, j);
    JoinedFacts(m, t, space, page, frames, j, perm);
    AllocatableAt(t, frames[j]);
    MapIs(t, Slot(space, page + j), frames[j], Base(page + j), perm);
    LengthsAre(t);
    BaseIs(page + j);
    if k < j {
      RangeRemembers(m, space, page, frames, j, perm, k);
      FramesDiffer(frames, k, j);
    }
  }

  lemma LengthsAre(m: Memory)
    requires WellFormed(m)
    ensures |m.refs| == |m.va|
  {
  }

  lemma BaseIs(p: nat)
    ensures Base(p) == p * 4096
  {
  }

  lemma FramesDiffer(frames: seq<nat>, i: nat, j: nat)
    requires RR.NoRepeats(frames) && i < j < |frames|
    ensures frames[i] != frames[j]
  {
  }

  /** After a get each frame of the object remembers the page it was mapped at by it. */
  lemma GetRemembers(s: State, i: nat, space: nat, page: nat, pick: map<nat, nat>, k: nat)
    requires Inv(s) && Live(s, i) && i < |s.shares| && space != K.KERNEL && Picks(s.m, pick, [])
    requires s.shares[i].refs + 1 < COUNT_LIMIT && Unmapped(s.m, space, page, s.shares[i].pages)
    requires NewTables(TablesOf(s.tables, space), pick, page, s.shares[i].pages) <= |s.m.free|
    requires Named(s) && k < s.shares[i].pages
    ensures var r := GetStep(s, i, space, page, pick).m;
      k < |s.shares[i].frames| && s.shares[i].frames[k] < |r.va| && r.va[s.shares[i].frames[k]] == (page + k) * 4096
  {
    InvIs(s);
    hide *;
    LiveFacts(s, i);
    PartsOf(s);
    var sh, ts := s.shares[i], TablesOf(s.tables, space);
    var n, perm := sh.pages, Permission(sh.writable);
    GetStepIs(s, i, space, page, pick);
    MappableOf(s, i);
    GetRangeIs(s.m, ts, pick, space, page, sh.frames, n, perm);
    MakeTablesGrow(s.m, ts, pick, page, n);
    var q := MakeTables(s.m, ts, pick, page, n);
    OnlyKernelPages(s.m, q, TablesAfter(ts, pick, page, n), ts, space);
    GrewMappable(s.m, q, sh.frames, space, page, n);
    GrewFacts(s.m, q);
    RangeRemembers(q, space, page, sh.frames, n, perm, k);
  }

  lemma NewObjectIs(sh: Share, owner: int, name: string, size: int, writable: bool)
    requires NewObject(sh, owner, name, size, writable)
    ensures !sh.empty && sh.owner == owner && sh.name == name && sh.writable == writable
  {
  }

  lemma SameObjectIs(t: State, v: View, sh: Share)
    requires SameObject(t, v, sh)
    ensures v.id < |t.shares| && t.shares[v.id] == sh.(refs := t.shares[v.id].refs) && !t.shares[v.id].empty
  {
  }

  lemma GetReady(s: State, owner: int, name: string, space: nat, page: nat, pick: map<nat, nat>, i: nat)
    requires Inv(s) && Enabled(s, Get(owner, name, space, page, pick)) && i < |s.shares| && !s.shares[i].empty
    requires s.shares[i].owner == owner && s.shares[i].name == name
    ensures Live(s, i) && space != K.KERNEL && Picks(s.m, pick, [])
    ensures s.shares[i].refs + 1 < COUNT_LIMIT && Unmapped(s.m, space, page, s.shares[i].pages)
    ensures Coverable(TablesOf(s.tables, space), pick, page, s.shares[i].pages)
    ensures NewTables(TablesOf(s.tables, space), pick, page, s.shares[i].pages) <= |s.m.free|
  {
    InvIs(s);
    FindIs(s, i);
    hide Inv, Core, Tabled, Picks, Unmapped, Coverable, NewTables, Find;
  }

  lemma PermissionValue(writable: bool)
    ensures Permission(writable) == if writable then 2 + 4 else 4
  {
  }
}
