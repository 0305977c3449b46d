/**
 What shared objects, their stores and their views rest on, and when a change
 of memory leaves them alone; getSharedObject's mapping of frames.
 */
module SharesCore {
  import RR = RoundRobin
  import opened Frames
  import opened FrameRanges
  import opened SharesMemory
  import opened SharesSpec
  import K = KernelHeapSpec

  // ----- what a change of memory leaves alone -----

  /** The slot keeps its entry and the frame behind it its count and address. */
  ghost predicate Undisturbed(m: Memory, r: Memory, s: Slot)
    requires WellFormed(m) && WellFormed(r)
  {
    && s in m.ptes && s in r.ptes && r.ptes[s] == m.ptes[s] && |r.refs| == |m.refs|
    && r.refs[m.ptes[s].frame] == m.refs[m.ptes[s].frame] && r.va[m.ptes[s].frame] == m.va[m.ptes[s].frame]
  }

  ghost predicate AllUndisturbed(m: Memory, r: Memory, slots: set<Slot>)
    requires WellFormed(m) && WellFormed(r)
  {
    forall s: Slot :: s in slots ==> Undisturbed(m, r, s)
  }

  lemma AllUndisturbedFrom(m: Memory, r: Memory, slots: set<Slot>)
    requires WellFormed(m) && WellFormed(r) && forall s: Slot :: s in slots ==> Undisturbed(m, r, s)
    ensures AllUndisturbed(m, r, slots)
  {
  }

  /** The frames remember the same pages in both memories, from slots that were not disturbed. */
  lemma {:induction false} TablesStay(m: Memory, r: Memory, tables: seq<nat>, n: nat)
    requires WellFormed(m) && WellFormed(r) && n <= |tables| && OwnPages(m, tables) && AreFrames(m, tables)
    requires |r.refs| == |m.refs|
    requires AllUndisturbed(m, r, TableSlots(m, tables, n))
    ensures AreFrames(r, tables) && TableSlots(r, tables, n) == TableSlots(m, tables, n)
    ensures forall i :: 0 <= i < n ==> OwnPage(r, tables[i])
  {
    if n > 0 {
      TablesStay(m, r, tables, n - 1);
      assert OwnPage(m, tables[n - 1]);
      assert Undisturbed(m, r, TableSlot(m, tables[n - 1]));
    }
  }

  /** A store whose pages are undisturbed is still sound, and still the same pages. */
  lemma StoreStays(m: Memory, r: Memory, sh: Share)
    requires WellFormed(m) && WellFormed(r) && StoreOk(m, sh) && |r.refs| == |m.refs|
    requires AllUndisturbed(m, r, StorePages(m, sh))
    ensures StoreOk(r, sh) && StorePages(r, sh) == StorePages(m, sh)
  {
    TablesStay(m, r, sh.tables, |sh.tables|);
    assert Undisturbed(m, r, KernelPage(sh.dir));
  }

  lemma SomeView(s: State, i: nat) returns (v: View)
    requires Core(s) && Live(s, i)
    ensures v in s.views && v.id == i && ViewOk(s.m, s.shares, v) && v.id < |s.shares|
  {
    assert |ViewsOf(s.views, i)| > 0;
    v :| v in ViewsOf(s.views, i);
  }

  /** The page of a store is on a frame that is nobody's data. */
  lemma StoreIsNotData(s: State, i: nat, t: Slot, j: nat, k: nat)
    requires Core(s) && Live(s, i) && Live(s, j) && t in StorePages(s.m, s.shares[i]) && k < |s.shares[j].frames|
    ensures t in s.m.ptes && s.m.refs[s.m.ptes[t].frame] == 1 && t.space == K.KERNEL
    ensures s.m.ptes[t].frame != s.shares[j].frames[k]
  {
    StorePageIs(s.m, s.shares[i], t);
    KernelIsNotData(s, t, j, k);
  }

  /** A kernel page on a frame of its own is not on an object's frame. */
  lemma KernelIsNotData(s: State, t: Slot, j: nat, k: nat)
    requires Core(s) && Live(s, j) && k < |s.shares[j].frames| && WellFormed(s.m)
    requires t in s.m.ptes && t.space == K.KERNEL && s.m.refs[s.m.ptes[t].frame] == 1
    ensures s.m.ptes[t].frame != s.shares[j].frames[k]
  {
    var v := SomeView(s, j);
    var u := Slot(v.space, v.page + k);
    assert ViewAt(s.m, s.shares[j].frames, v, k);
    assert u in s.m.ptes && s.m.ptes[u].frame == s.shares[j].frames[k];
    if s.m.ptes[t].frame == s.m.ptes[u].frame {
      TwoSlots(s.m, t, u);
      assert false;
    }
  }

  /** A store page is a kernel page on a frame of its own. */
  lemma StorePageIs(m: Memory, sh: Share, t: Slot)
    requires WellFormed(m) && StoreOk(m, sh) && t in StorePages(m, sh)
    ensures t in m.ptes && m.refs[m.ptes[t].frame] == 1 && t.space == K.KERNEL
  {
    TableSlotsAre(m, sh.tables, |sh.tables|);
    if t in TableSlots(m, sh.tables, |sh.tables|) {
      assert m.ptes[t].frame in sh.tables[..|sh.tables|];
      var i :| 0 <= i < |sh.tables| && sh.tables[i] == m.ptes[t].frame;
      assert OwnPage(m, sh.tables[i]);
    }
  }

  // ----- the invariant, one object at a time -----

  ghost predicate Objects(s: State)
    requires Named(s)
  {
    forall i :: Live(s, i) ==> DataOk(s.m, s.shares[i]) && StoreOk(s.m, s.shares[i])
  }

  ghost predicate Pairs(s: State)
    requires Named(s)
  {
    forall i, j :: Live(s, i) && Live(s, j) && i != j ==> SharesApart(s.m, s.shares[i], s.shares[j])
  }

  ghost predicate Views(s: State) {
    forall v :: v in s.views ==> ViewOk(s.m, s.shares, v)
  }

  ghost predicate Counts(s: State) {
    forall i: nat :: Live(s, i) ==> s.shares[i].refs == |ViewsOf(s.views, i)|
  }

  lemma CoreFrom(s: State)
    requires Exact(s.m, {}) && Named(s) && Objects(s) && Pairs(s) && Views(s) && Counts(s)
    ensures Core(s)
  {
  }

  lemma LiveIs(s: State, i: int)
    ensures Live(s, i) <==> 0 <= i < |s.shares| && !s.shares[i].empty
  {
  }

  lemma ObjectsFrom(s: State)
    requires Named(s) && forall i: nat :: Live(s, i) ==>
               i < |s.shares| && WellFormed(s.m) && DataOk(s.m, s.shares[i]) && StoreOk(s.m, s.shares[i])
    ensures Objects(s)
  {
  }

  lemma PairsFrom(s: State)
    requires Named(s) && forall i: nat, j: nat :: Live(s, i) && Live(s, j) && i != j ==>
               i < |s.shares| && j < |s.shares| && WellFormed(s.m) && AreFrames(s.m, s.shares[i].tables)
               && AreFrames(s.m, s.shares[j].tables) && SharesApart(s.m, s.shares[i], s.shares[j])
    ensures Pairs(s)
  {
  }

  lemma ViewsFrom(s: State)
    requires forall v :: v in s.views ==> ViewOk(s.m, s.shares, v)
    ensures Views(s)
  {
  }

  lemma CountAt(s: State, i: nat)
    requires Counts(s) && Live(s, i)
    ensures i < |s.shares| && s.shares[i].refs == |ViewsOf(s.views, i)|
  {
  }

  lemma CountsFrom(s: State)
    requires forall i: nat :: Live(s, i) ==> i < |s.shares| && s.shares[i].refs == |ViewsOf(s.views, i)|
    ensures Counts(s)
  {
  }

  lemma NoViews(views: set<View>, i: nat)
    requires forall v :: v in views ==> v.id != i
    ensures ViewsOf(views, i) == {}
  {
  }

  lemma DataAt(m: Memory, sh: Share, k: nat)
    requires DataOk(m, sh) && k < |sh.frames|
    ensures Allocatable(m, sh.frames[k]) && sh.frames[k] < |m.refs| && m.refs[sh.frames[k]] == sh.refs > 0
  {
  }

  lemma DataFrames(m: Memory, sh: Share)
    requires DataOk(m, sh)
    ensures AreFrames(m, sh.frames)
  {
  }

  /** What ViewAt says of the entry. */
  lemma ViewEntry(m: Memory, frames: seq<nat>, v: View, k: nat)
    requires k < |frames|
    ensures var s := Slot(v.space, v.page + k);
      ViewAt(m, frames, v, k) <==> s in m.ptes && m.ptes[s].frame == frames[k]
  {
  }

  lemma ApartBoth(s: State, a: nat, b: nat)
    requires Core(s) && Live(s, a) && Live(s, b) && a != b
    ensures a < |s.shares| && b < |s.shares| && WellFormed(s.m)
    ensures AreFrames(s.m, s.shares[a].tables) && AreFrames(s.m, s.shares[b].tables)
    ensures SharesApart(s.m, s.shares[a], s.shares[b]) && SharesApart(s.m, s.shares[b], s.shares[a])
  {
  }

  lemma PartsOf(s: State)
    requires Core(s)
    ensures Exact(s.m, {}) && Named(s) && Objects(s) && Pairs(s) && Views(s) && Counts(s)
  {
  }

  /** Objects that keep their names, frames and undisturbed stores stay apart. */
  lemma PairStays(m: Memory, r: Memory, a: Share, b: Share, a': Share, b': Share)
    requires WellFormed(m) && WellFormed(r) && |r.refs| == |m.refs| && StoreOk(m, a) && StoreOk(m, b) && SharesApart(m, a, b)
    requires a' == a.(refs := a'.refs) && b' == b.(refs := b'.refs)
    requires AllUndisturbed(m, r, StorePages(m, a)) && AllUndisturbed(m, r, StorePages(m, b))
    ensures AreFrames(r, a'.tables) && AreFrames(r, b'.tables) && SharesApart(r, a', b')
  {
    StoreStays(m, r, a);
    StoreStays(m, r, b);
  }

  // ----- getSharedObject -----

  lemma JoinedLeavesStores(s: State, r: Memory, i: nat, space: nat, page: nat, perm: nat, j: nat)
    requires Core(s) && Live(s, i) && Live(s, j) && WellFormed(r)
    requires Joined(s.m, r, space, page, s.shares[i].frames, |s.shares[i].frames|, perm)
    ensures AllUndisturbed(s.m, r, StorePages(s.m, s.shares[j]))
  {
    var fs := s.shares[i].frames;
    forall t: Slot | t in StorePages(s.m, s.shares[j])
      ensures Undisturbed(s.m, r, t)
    {
      StorePageIs(s.m, s.shares[j], t);
      forall k: nat | k < |fs|
        ensures s.m.ptes[t].frame != fs[k]
      {
        StoreIsNotData(s, j, t, i, k);
      }
      assert s.m.ptes[t].frame !in fs[..|fs|];
      hide Core, StorePages;
    }
  }

  lemma JoinedData(m: Memory, r: Memory, sh: Share, frames: seq<nat>, space: nat, page: nat, perm: nat)
    requires WellFormed(m) && WellFormed(r) && DataOk(m, sh) && Joined(m, r, space, page, frames, |frames|, perm)
    ensures frames == sh.frames ==> DataOk(r, sh.(refs := sh.refs + 1))
    ensures (forall k, l :: 0 <= k < |frames| && 0 <= l < |sh.frames| ==> frames[k] != sh.frames[l]) ==> DataOk(r, sh)
  {
    assert frames[..|frames|] == frames;
    forall k | 0 <= k < |sh.frames|
      ensures Allocatable(r, sh.frames[k]) && Allocatable(m, sh.frames[k])
      ensures frames == sh.frames ==> r.refs[sh.frames[k]] == m.refs[sh.frames[k]] + 1
    {
      assert frames == sh.frames ==> sh.frames[k] in frames;
    }
  }

  lemma JoinedViews(s: State, r: Memory, i: nat, space: nat, page: nat, perm: nat, shares: seq<Share>)
    requires Views(s) && WellFormed(s.m) && WellFormed(r) && i < |s.shares| && space != K.KERNEL && !s.shares[i].empty
    requires Joined(s.m, r, space, page, s.shares[i].frames, |s.shares[i].frames|, perm)
    requires shares == s.shares[i := s.shares[i].(refs := s.shares[i].refs + 1)]
    ensures forall v :: v in s.views + {View(i, space, page)} ==> ViewOk(r, shares, v)
  {
    var n := |s.shares[i].frames|;
    forall v | v in s.views + {View(i, space, page)}
      ensures ViewOk(r, shares, v)
    {
      if v in s.views {
        assert ViewOk(s.m, s.shares, v);
        assert shares[v.id].frames == s.shares[v.id].frames;
        forall k: nat | k < |s.shares[v.id].frames|
          ensures ViewAt(r, s.shares[v.id].frames, v, k)
        {
          assert ViewAt(s.m, s.shares[v.id].frames, v, k);
        }
      } else {
        forall k: nat | k < n
          ensures ViewAt(r, s.shares[i].frames, v, k)
        {
          assert InRange(Slot(space, page + k), space, page, n);
        }
      }
    }
  }

  lemma ViewsGrow(views: set<View>, v: View, i: nat)
    requires v !in views
    ensures |ViewsOf(views + {v}, i)| == |ViewsOf(views, i)| + if v.id == i then 1 else 0
  {
    assert ViewsOf(views + {v}, i) == if v.id == i then ViewsOf(views, i) + {v} else ViewsOf(views, i);
  }

  /** Mapping the object's frames, once the tables are there. */
  lemma GetCore(s: State, t: State, i: nat, space: nat, page: nat)
    requires Core(s) && Live(s, i) && space != K.KERNEL && i < |s.shares| && AreFrames(s.m, s.shares[i].frames)
    requires s.shares[i].refs + 1 < COUNT_LIMIT && Unmapped(s.m, space, page, s.shares[i].pages)
    requires WellFormed(s.m) && s.shares[i].pages == |s.shares[i].frames|
    requires var sh := s.shares[i];
      && t.m == MapRange(s.m, space, page, sh.frames, sh.pages, Permission(sh.writable))
      && t.shares == s.shares[i := sh.(refs := sh.refs + 1)] && t.views == s.views + {View(i, space, page)}
    ensures Core(t) && WellFormed(t.m)
    ensures Joined(s.m, t.m, space, page, s.shares[i].frames, s.shares[i].pages, Permission(s.shares[i].writable))
  {
    hide *;
    LiveFacts(s, i);
    var sh := s.shares[i];
    PartsOf(s);
    MapRangeKeeps(s.m, space, page, sh.frames, sh.pages, Permission(sh.writable));
    JoinedViews(s, t.m, i, space, page, Permission(sh.writable), t.shares);
    GetObjects(s, t, i, space, page, Permission(sh.writable));
    FirstUnmapped(s.m, space, page, sh.pages);
    NewView(s, View(i, space, page));
    GetPairs(s, t, i);
    GetCounts(s, t, i, View(i, space, page));
    ViewsFrom(t);
    CoreFrom(t);
  }

  lemma LiveFacts(s: State, i: nat)
    requires Core(s) && Live(s, i)
    ensures i < |s.shares| && !s.shares[i].empty && WellFormed(s.m)
    ensures var sh := s.shares[i];
      && DataOk(s.m, sh) && StoreOk(s.m, sh) && RR.NoRepeats(sh.frames) && AreFrames(s.m, sh.frames) && AreFrames(s.m, sh.tables)
      && |sh.frames| == sh.pages > 0 && sh.refs > 0 && sh.frames != []
      && (sh.refs + 1 < COUNT_LIMIT ==> Mappable(s.m, sh.frames))
  {
  }

  lemma FirstUnmapped(m: Memory, space: nat, page: nat, n: nat)
    requires Unmapped(m, space, page, n) && n > 0
    ensures Slot(space, page) !in m.ptes
  {
    assert InRange(Slot(space, page), space, page, n);
  }

  lemma GetObjects(s: State, t: State, i: nat, space: nat, page: nat, perm: nat)
    requires Core(s) && Live(s, i) && WellFormed(t.m)
    requires t.shares == s.shares[i := s.shares[i].(refs := s.shares[i].refs + 1)]
    requires Joined(s.m, t.m, space, page, s.shares[i].frames, |s.shares[i].frames|, perm)
    ensures Named(t) && Objects(t)
    ensures forall j: nat :: Live(s, j) ==> AllUndisturbed(s.m, t.m, StorePages(s.m, s.shares[j]))
  {
    assert Named(t);
    hide Core, Named, Joined, AllUndisturbed, StorePages, DataOk, StoreOk;
    forall j: nat | Live(s, j)
      ensures DataOk(t.m, t.shares[j]) && StoreOk(t.m, t.shares[j])
      ensures AllUndisturbed(s.m, t.m, StorePages(s.m, s.shares[j]))
    {
      GetObject(s, t.m, i, space, page, perm, j);
    }
  }

  lemma GetObject(s: State, r: Memory, i: nat, space: nat, page: nat, perm: nat, j: nat)
    requires Core(s) && Live(s, i) && Live(s, j) && WellFormed(r)
    requires Joined(s.m, r, space, page, s.shares[i].frames, |s.shares[i].frames|, perm)
    ensures var sh := if j == i then s.shares[i].(refs := s.shares[i].refs + 1) else s.shares[j];
      DataOk(r, sh) && StoreOk(r, sh)
    ensures AreFrames(s.m, s.shares[j].tables) && AllUndisturbed(s.m, r, StorePages(s.m, s.shares[j]))
  {
    hide *;
    LiveFacts(s, i);
    LiveFacts(s, j);
    JoinedLeavesStores(s, r, i, space, page, perm, j);
    JoinedLength(s.m, r, space, page, s.shares[i].frames, perm);
    StoreStays(s.m, r, s.shares[j]);
    SameStore(r, s.shares[j], s.shares[j].(refs := s.shares[j].refs + 1));
    GetData(s, r, i, space, page, perm, j);
  }

  lemma JoinedLength(m: Memory, r: Memory, space: nat, page: nat, frames: seq<nat>, perm: nat)
    requires WellFormed(m) && WellFormed(r) && Joined(m, r, space, page, frames, |frames|, perm)
    ensures |r.refs| == |m.refs|
  {
  }

  lemma GetData(s: State, r: Memory, i: nat, space: nat, page: nat, perm: nat, j: nat)
    requires Core(s) && Live(s, i) && Live(s, j) && WellFormed(r)
    requires Joined(s.m, r, space, page, s.shares[i].frames, |s.shares[i].frames|, perm)
    ensures DataOk(r, if j == i then s.shares[i].(refs := s.shares[i].refs + 1) else s.shares[j])
  {
    hide *;
    LiveFacts(s, i);
    LiveFacts(s, j);
    if i != j {
      FramesApart(s, i, j);
    }
    JoinedData(s.m, r, s.shares[j], s.shares[i].frames, space, page, perm);
  }

  lemma FramesApart(s: State, i: nat, j: nat)
    requires Core(s) && Live(s, i) && Live(s, j) && i != j
    ensures var fs, gs := s.shares[i].frames, s.shares[j].frames;
      forall k, l :: 0 <= k < |fs| && 0 <= l < |gs| ==> fs[k] != gs[l]
  {
    assert SharesApart(s.m, s.shares[i], s.shares[j]);
  }

  lemma SameStore(m: Memory, a: Share, b: Share)
    requires WellFormed(m) && StoreOk(m, a) && b == a.(refs := b.refs)
    ensures StoreOk(m, b)
  {
  }

  lemma GetCounts(s: State, t: State, i: nat, v: View)
    requires Counts(s) && Live(s, i) && v.id == i && v !in s.views && t.views == s.views + {v}
    requires t.shares == s.shares[i := s.shares[i].(refs := s.shares[i].refs + 1)]
    ensures Counts(t)
  {
    forall j: nat | Live(t, j)
      ensures t.shares[j].refs == |ViewsOf(t.views, j)|
    {
      assert Live(s, j);
      ViewsGrow(s.views, v, j);
    }
  }

  /** A view of unmapped pages is a new one. */
  lemma NewView(s: State, v: View)
    requires Views(s) && v.id < |s.shares| && Slot(v.space, v.page) !in s.m.ptes && s.shares[v.id].frames != []
    ensures v !in s.views
  {
    assert v in s.views ==> ViewAt(s.m, s.shares[v.id].frames, v, 0);
  }

  lemma GetPairs(s: State, t: State, i: nat)
    requires Core(s) && Live(s, i) && Named(t) && |t.m.refs| == |s.m.refs| && |t.shares| == |s.shares|
    requires t.shares == s.shares[i := s.shares[i].(refs := t.shares[i].refs)]
    requires forall j: nat :: Live(s, j) ==> AllUndisturbed(s.m, t.m, StorePages(s.m, s.shares[j]))
    ensures Pairs(t)
  {
    forall j: nat, k: nat | Live(t, j) && Live(t, k) && j != k
      ensures SharesApart(t.m, t.shares[j], t.shares[k])
    {
      assert Live(s, j) && Live(s, k);
      assert SharesApart(s.m, s.shares[j], s.shares[k]);
      PairStays(s.m, t.m, s.shares[j], s.shares[k], t.shares[j], t.shares[k]);
    }
  }

  lemma UndisturbedIs(m: Memory, r: Memory, t: Slot)
    requires WellFormed(m) && WellFormed(r) && Undisturbed(m, r, t)
    ensures t in m.ptes && t in r.ptes && r.ptes[t] == m.ptes[t] && |r.refs| == |m.refs|
    ensures m.ptes[t].frame < |m.refs| && r.refs[m.ptes[t].frame] == m.refs[m.ptes[t].frame]
  {
  }

  lemma StoreFacts(m: Memory, sh: Share)
    requires WellFormed(m) && StoreOk(m, sh)
    ensures RR.NoRepeats(sh.tables) && |sh.tables| == TableCount(sh.pages) && OwnPages(m, sh.tables) && AreFrames(m, sh.tables)
    ensures var dir := KernelPage(sh.dir);
      && dir in m.ptes && m.ptes[dir].frame < |m.refs| && m.refs[m.ptes[dir].frame] == 1
      && dir !in TableSlots(m, sh.tables, |sh.tables|)
      && StorePages(m, sh) == TableSlots(m, sh.tables, |sh.tables|) + {dir}
      && DropStore(m, sh) == UnmapFrame(DropTables(m, sh.tables, |sh.tables|), dir)
  {
  }

  // ----- changes of memory that leave every object alone -----

  lemma ViewFacts(s: State, v: View)
    requires Core(s) && v in s.views
    ensures Live(s, v.id) && v.space != K.KERNEL && v.id < |s.shares|
    ensures forall k: nat :: k < |s.shares[v.id].frames| ==> ViewAt(s.m, s.shares[v.id].frames, v, k)
  {
    assert ViewOk(s.m, s.shares, v);
  }

  /** A change of memory that leaves objects, stores and views as they are. */
  lemma CoreStays(s: State, t: State)
    requires Core(s) && WellFormed(s.m) && WellFormed(t.m) && Exact(t.m, {}) && |t.m.refs| == |s.m.refs|
    requires t.shares == s.shares && t.views == s.views
    requires forall j: nat :: Live(t, j) ==>
               && j < |s.shares| && Live(s, j) && DataOk(t.m, t.shares[j]) && AreFrames(s.m, s.shares[j].tables)
               && AllUndisturbed(s.m, t.m, StorePages(s.m, s.shares[j]))
    requires forall v, k: nat :: v in t.views && v.id < |s.shares| && k < |s.shares[v.id].frames| ==>
               ViewAt(t.m, s.shares[v.id].frames, v, k)
    ensures Core(t)
    ensures forall j: nat :: Live(t, j) ==> j < |t.shares| && AreFrames(t.m, t.shares[j].tables)
                                             && StorePages(t.m, t.shares[j]) == StorePages(s.m, s.shares[j])
  {
    hide *;
    PartsOf(s);
    NamedStays(s, t);
    forall j: nat | Live(t, j)
      ensures j < |t.shares| && StoreOk(t.m, t.shares[j]) && AreFrames(t.m, t.shares[j].tables)
      ensures AreFrames(s.m, s.shares[j].tables) && StorePages(t.m, t.shares[j]) == StorePages(s.m, s.shares[j])
    {
      LiveFacts(s, j);
      StoreStays(s.m, t.m, s.shares[j]);
      StoreOkFrames(t.m, t.shares[j]);
    }
    ObjectsFrom(t);
    forall j: nat, k: nat | Live(t, j) && Live(t, k) && j != k
      ensures j < |t.shares| && k < |t.shares| && AreFrames(t.m, t.shares[j].tables) && AreFrames(t.m, t.shares[k].tables)
      ensures SharesApart(t.m, t.shares[j], t.shares[k])
    {
      ApartBoth(s, j, k);
      LiveFacts(s, j);
      LiveFacts(s, k);
      PairStays(s.m, t.m, s.shares[j], s.shares[k], t.shares[j], t.shares[k]);
    }
    PairsFrom(t);
    forall v | v in t.views
      ensures ViewOk(t.m, t.shares, v)
    {
      ViewFacts(s, v);
      LiveFacts(s, v.id);
      ViewOkFrom(t.m, t.shares, v);
    }
    ViewsFrom(t);
    CountsStay(s, t);
    CoreFrom(t);
  }

  lemma NamedStays(s: State, t: State)
    requires Named(s) && WellFormed(t.m) && |t.m.refs| == |s.m.refs| && t.shares == s.shares
    ensures Named(t)
  {
  }

  lemma CountsStay(s: State, t: State)
    requires Counts(s) && t.shares == s.shares && t.views == s.views
    ensures Counts(t)
  {
  }

  lemma LiveSame(s: State, t: State)
    requires t.shares == s.shares
    ensures forall j: nat :: Live(t, j) <==> Live(s, j)
  {
  }

  lemma StoreOkFrames(m: Memory, sh: Share)
    requires WellFormed(m) && StoreOk(m, sh)
    ensures AreFrames(m, sh.tables)
  {
  }

  lemma ViewOkFrom(m: Memory, shares: seq<Share>, v: View)
    requires v.id < |shares| && !shares[v.id].empty && v.space != K.KERNEL
    requires forall k: nat :: k < |shares[v.id].frames| ==> ViewAt(m, shares[v.id].frames, v, k)
    ensures ViewOk(m, shares, v)
  {
  }

  lemma JoinedAt(m: Memory, r: Memory, space: nat, page: nat, frames: seq<nat>, perm: nat, k: nat)
    requires WellFormed(m) && WellFormed(r) && k < |frames| && Joined(m, r, space, page, frames, |frames|, perm)
    ensures var u := Slot(space, page + k);
      u in r.ptes && r.ptes[u] == Pte(frames[k], perm)
    ensures frames[k] < |m.refs| ==> |r.refs| == |m.refs| && r.refs[frames[k]] == m.refs[frames[k]] + 1
  {
    assert frames[k] in frames[..|frames|];
    assert InRange(Slot(space, page + k), space, page, |frames|);
  }

  lemma JoinedFree(m: Memory, r: Memory, space: nat, page: nat, frames: seq<nat>, n: nat, perm: nat)
    requires WellFormed(m) && WellFormed(r) && n <= |frames| && Joined(m, r, space, page, frames, n, perm)
    ensures r.free == m.free && |r.refs| == |m.refs|
  {
  }

  lemma NamedMemory(s: State)
    requires Named(s)
    ensures WellFormed(s.m)
  {
  }
}
