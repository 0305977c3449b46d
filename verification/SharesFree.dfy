/**
 freeSharedObject keeps objects, frames and page tables in agreement, and gives
 back exactly the frames nobody needs any more.
 */
module SharesFree {
  import RR = RoundRobin
  import opened Frames
  import opened FrameRanges
  import opened SharesMemory
  import opened SharesSpec
  import K = KernelHeapSpec
  import opened FreeMemSpec
  import opened FreeMemTheorems
  import opened SharesCore

  // ----- freeSharedObject -----

  lemma InRangeIs(t: Slot, v: View, n: nat)
    requires InRange(t, v.space, v.page, n)
    ensures 0 <= t.page - v.page < n && t == Slot(v.space, v.page + (t.page - v.page))
  {
  }

  /** The pages of a view are mapped to frames of their own. */
  lemma ViewOwnsFrames(m: Memory, frames: seq<nat>, v: View)
    requires RR.NoRepeats(frames) && forall k: nat :: k < |frames| ==> ViewAt(m, frames, v, k)
    ensures OwnFrames(m, v.space, v.page, |frames|)
    ensures forall f: nat :: Names(m, v.space, v.page, |frames|, f) <==> f in frames
    ensures forall t: Slot :: InRange(t, v.space, v.page, |frames|) ==> t in m.ptes && m.ptes[t].frame in frames
  {
    var n := |frames|;
    forall t: Slot | InRange(t, v.space, v.page, n)
      ensures t in m.ptes && m.ptes[t].frame == frames[t.page - v.page]
    {
      InRangeIs(t, v, n);
      assert ViewAt(m, frames, v, t.page - v.page);
    }
    forall f: nat | f in frames
      ensures Names(m, v.space, v.page, n, f)
    {
      var k: nat :| k < n && frames[k] == f;
      assert ViewAt(m, frames, v, k);
      assert InRange(Slot(v.space, v.page + k), v.space, v.page, n);
    }
  }

  /** freeSharedObject finds the object from any address it was handed out at. */
  lemma SearchFinds(s: State, v: View)
    requires Core(s) && v in s.views
    ensures Search(s.shares, s.m, Slot(v.space, v.page), 0) == v.id
  {
    ViewFacts(s, v);
    LiveFacts(s, v.id);
    var sh := s.shares[v.id];
    assert ViewAt(s.m, sh.frames, v, 0);
    assert StartsAt(sh, s.m, Slot(v.space, v.page));
    forall j: nat | j < |s.shares| && !s.shares[j].empty && StartsAt(s.shares[j], s.m, Slot(v.space, v.page))
      ensures j == v.id
    {
      LiveFacts(s, j);
      assert Live(s, j);
      if j != v.id {
        FramesApart(s, j, v.id);
      }
    }
  }

  lemma ObjectsShareNoPage(s: State, v: View, w: View, l: nat, k: nat)
    requires Core(s) && v in s.views && w in s.views && v.id < |s.shares| && w.id < |s.shares| && v.id != w.id
    requires l < |s.shares[v.id].frames| && k < |s.shares[w.id].frames|
    ensures Slot(v.space, v.page + l) != Slot(w.space, w.page + k)
  {
    ViewFacts(s, v);
    ViewFacts(s, w);
    var fs, gs := s.shares[v.id].frames, s.shares[w.id].frames;
    FramesApart(s, v.id, w.id);
    assert ViewAt(s.m, gs, w, k) && ViewAt(s.m, fs, v, l);
  }

  /** Views that share a page are the same view. */
  lemma SamePage(s: State, v: View, w: View, l: nat, k: nat)
    requires Core(s) && v in s.views && w in s.views && v.id < |s.shares| && w.id < |s.shares|
    requires l < |s.shares[v.id].frames| && k < |s.shares[w.id].frames|
    requires Slot(v.space, v.page + l) == Slot(w.space, w.page + k)
    ensures v == w
  {
    if v.id != w.id {
      ObjectsShareNoPage(s, v, w, l, k);
    } else {
      ViewFacts(s, v);
      ViewFacts(s, w);
      LiveFacts(s, v.id);
      var fs := s.shares[v.id].frames;
      assert ViewAt(s.m, fs, w, k) && ViewAt(s.m, fs, v, l);
    }
  }

  /** Two views never share a page. */
  lemma ViewsDisjoint(s: State, v: View, w: View, k: nat)
    requires Core(s) && v in s.views && w in s.views && v != w
    requires v.id < |s.shares| && w.id < |s.shares| && k < |s.shares[w.id].frames|
    ensures !InRange(Slot(w.space, w.page + k), v.space, v.page, |s.shares[v.id].frames|)
  {
    hide *;
    var t := Slot(w.space, w.page + k);
    if InRange(t, v.space, v.page, |s.shares[v.id].frames|) {
      InRangeIs(t, v, |s.shares[v.id].frames|);
      SamePage(s, v, w, t.page - v.page, k);
    }
  }

  /** What unmapping view v leaves of store j. */
  lemma ReleasedLeavesStores(s: State, r: Memory, v: View, j: nat)
    requires Core(s) && v in s.views && v.id < |s.shares| && Live(s, j) && WellFormed(r)
    requires Released(s.m, r, v.space, v.page, |s.shares[v.id].frames|)
    ensures |r.refs| == |s.m.refs| && AreFrames(s.m, s.shares[j].tables)
    ensures AllUndisturbed(s.m, r, StorePages(s.m, s.shares[j]))
  {
    ViewFacts(s, v);
    LiveFacts(s, v.id);
    LiveFacts(s, j);
    var fs := s.shares[v.id].frames;
    ViewOwnsFrames(s.m, fs, v);
    forall t: Slot | t in StorePages(s.m, s.shares[j])
      ensures Undisturbed(s.m, r, t)
    {
      StorePageIs(s.m, s.shares[j], t);
      forall k: nat | k < |fs|
        ensures s.m.ptes[t].frame != fs[k]
      {
        StoreIsNotData(s, j, t, v.id, k);
      }
      hide Core, StorePages, StoreOk;
    }
  }

  lemma ReleasedFrame(m: Memory, r: Memory, space: nat, page: nat, n: nat, fs: seq<nat>, f: nat)
    requires WellFormed(m) && WellFormed(r) && Released(m, r, space, page, n) && Allocatable(m, f)
    requires forall g: nat :: Names(m, space, page, n, g) <==> g in fs
    ensures Allocatable(r, f) && m.refs[f] == r.refs[f] + if f in fs then 1 else 0
  {
    hide Names;
  }

  lemma DataSame(m: Memory, r: Memory, sh: Share, refs: nat)
    requires DataOk(m, sh) && 0 < refs
    requires forall k: nat :: k < |sh.frames| ==> Allocatable(r, sh.frames[k]) && r.refs[sh.frames[k]] == refs
    ensures DataOk(r, sh.(refs := refs))
  {
  }

  lemma ReleasedData(s: State, r: Memory, v: View, j: nat)
    requires Core(s) && v in s.views && v.id < |s.shares| && Live(s, j) && WellFormed(r)
    requires Released(s.m, r, v.space, v.page, |s.shares[v.id].frames|)
    ensures j != v.id ==> DataOk(r, s.shares[j])
    ensures j == v.id ==> forall k: nat :: k < |s.shares[j].frames| ==>
              s.shares[j].frames[k] < |r.refs| && r.refs[s.shares[j].frames[k]] + 1 == s.shares[j].refs
    ensures j == v.id && 1 < s.shares[j].refs ==> DataOk(r, s.shares[j].(refs := s.shares[j].refs - 1))
  {
    hide *;
    ViewFacts(s, v);
    LiveFacts(s, v.id);
    LiveFacts(s, j);
    var sh := s.shares[j];
    var fs := s.shares[v.id].frames;
    ViewOwnsFrames(s.m, fs, v);
    if j != v.id {
      FramesApart(s, j, v.id);
    }
    forall k: nat | k < |sh.frames|
      ensures Allocatable(r, sh.frames[k]) && sh.frames[k] < |r.refs|
      ensures r.refs[sh.frames[k]] + (if j == v.id then 1 else 0) == sh.refs
    {
      DataAt(s.m, sh, k);
      ReleasedFrame(s.m, r, v.space, v.page, |fs|, fs, sh.frames[k]);
      AllocatableAt(r, sh.frames[k]);
    }
    if j != v.id {
      DataSame(s.m, r, sh, sh.refs);
    } else if 1 < sh.refs {
      DataSame(s.m, r, sh, sh.refs - 1);
    }
  }

  lemma ReleasedViews(s: State, r: Memory, v: View, w: View, k: nat)
    requires Core(s) && v in s.views && w in s.views && v != w && v.id < |s.shares| && w.id < |s.shares|
    requires WellFormed(r) && Released(s.m, r, v.space, v.page, |s.shares[v.id].frames|)
    requires k < |s.shares[w.id].frames|
    ensures ViewAt(r, s.shares[w.id].frames, w, k)
  {
    ViewFacts(s, w);
    ViewsDisjoint(s, v, w, k);
    assert ViewAt(s.m, s.shares[w.id].frames, w, k);
  }

  lemma ViewsShrink(views: set<View>, v: View, i: nat)
    requires v in views
    ensures |ViewsOf(views - {v}, i)| == |ViewsOf(views, i)| - if v.id == i then 1 else 0
  {
    assert ViewsOf(views - {v}, i) == if v.id == i then ViewsOf(views, i) - {v} else ViewsOf(views, i);
    assert v.id == i ==> v in ViewsOf(views, i);
  }

  lemma FreeStepIs(s: State, i: nat, space: nat, page: nat)
    requires Named(s) && i < |s.shares| && 0 < s.shares[i].refs
    ensures var sh := s.shares[i];
      && WellFormed(s.m)
      && var (m, ts) := DropEmptyTables(UnmapRange(s.m, space, page, sh.pages), space, TablesOf(s.tables, space), page, sh.pages);
      && AreFrames(m, sh.tables)
      && FreeStep(s, i, space, page) ==
         if sh.refs == 1 then
           State(UnmapFrame(DropTables(m, sh.tables, |sh.tables|), KernelPage(sh.dir)), s.shares[i := NO_SHARE],
                 s.views - {View(i, space, page)}, s.tables[space := ts])
         else State(m, s.shares[i := sh.(refs := sh.refs - 1)], s.views - {View(i, space, page)}, s.tables[space := ts])
    ensures NO_SHARE.empty
  {
  }

  lemma ReleasedLength(m: Memory, r: Memory, space: nat, page: nat, n: nat)
    requires WellFormed(m) && WellFormed(r) && Released(m, r, space, page, n)
    ensures |r.free| == |m.free| + Singles(m, space, page, n)
  {
  }

  /** The view's pages go, and the object, which others have, stays. */
  lemma UnmapCore(s: State, t: State, v: View)
    requires Core(s) && v in s.views && v.id < |s.shares| && 1 < s.shares[v.id].refs && WellFormed(s.m)
    requires var sh := s.shares[v.id];
      && t.m == UnmapRange(s.m, v.space, v.page, sh.pages)
      && t.shares == s.shares[v.id := sh.(refs := sh.refs - 1)] && t.views == s.views - {v}
    ensures Core(t) && |t.m.free| == |s.m.free|
  {
    hide *;
    ViewFacts(s, v);
    LiveFacts(s, v.id);
    PartsOf(s);
    var sh := s.shares[v.id];
    ViewOwnsFrames(s.m, sh.frames, v);
    UnmapRangeKeeps(s.m, v.space, v.page, sh.pages);
    FreeObjects(s, t, v);
    GetPairs(s, t, v.id);
    FreeViews(s, t, v);
    FreeCounts(s, t, v);
    CoreFrom(t);
    SharedFramesStay(s, v);
    ReleasedLength(s.m, t.m, v.space, v.page, sh.pages);
  }

  lemma SharedFramesStay(s: State, v: View)
    requires Core(s) && v in s.views && v.id < |s.shares| && 1 < s.shares[v.id].refs
    ensures WellFormed(s.m) && Singles(s.m, v.space, v.page, |s.shares[v.id].frames|) == 0
  {
    ViewFacts(s, v);
    LiveFacts(s, v.id);
    ViewOwnsFrames(s.m, s.shares[v.id].frames, v);
    NoSingles(s.m, v.space, v.page, |s.shares[v.id].frames|);
  }

  lemma FreedNamed(s: State, t: State, v: View)
    requires Named(s) && WellFormed(s.m) && WellFormed(t.m) && v.id < |s.shares|
    requires |t.shares| == |s.shares| && t.shares == s.shares[v.id := s.shares[v.id].(refs := t.shares[v.id].refs)]
    requires Released(s.m, t.m, v.space, v.page, |s.shares[v.id].frames|)
    ensures Named(t) && |t.m.refs| == |s.m.refs|
  {
    hide WellFormed, InRange;
  }

  lemma FreeObjects(s: State, t: State, v: View)
    requires Core(s) && v in s.views && v.id < |s.shares| && 1 < s.shares[v.id].refs && WellFormed(t.m)
    requires t.shares == s.shares[v.id := s.shares[v.id].(refs := s.shares[v.id].refs - 1)]
    requires Released(s.m, t.m, v.space, v.page, |s.shares[v.id].frames|)
    ensures Named(t) && Objects(t) && |t.m.refs| == |s.m.refs|
    ensures forall j: nat :: Live(s, j) ==> AllUndisturbed(s.m, t.m, StorePages(s.m, s.shares[j]))
  {
    hide *;
    ViewFacts(s, v);
    PartsOf(s);
    FreedNamed(s, t, v);
    LiveIs(s, v.id);
    forall j: nat | Live(s, j)
      ensures j < |t.shares| && DataOk(t.m, t.shares[j]) && StoreOk(t.m, t.shares[j])
      ensures AreFrames(s.m, s.shares[j].tables) && AllUndisturbed(s.m, t.m, StorePages(s.m, s.shares[j]))
    {
      LiveFacts(s, j);
      ReleasedLeavesStores(s, t.m, v, j);
      StoreStays(s.m, t.m, s.shares[j]);
      SameStore(t.m, s.shares[j], t.shares[j]);
      ReleasedData(s, t.m, v, j);
    }
    FreeObjectsFrom(s, t, v.id);
  }

  lemma FreeObjectsFrom(s: State, t: State, id: nat)
    requires Named(t) && WellFormed(t.m) && id < |s.shares| == |t.shares| && !s.shares[id].empty
    requires t.shares == s.shares[id := s.shares[id].(refs := t.shares[id].refs)]
    requires forall j: nat :: Live(s, j) ==> j < |t.shares| && DataOk(t.m, t.shares[j]) && StoreOk(t.m, t.shares[j])
    ensures Objects(t)
  {
    hide DataOk, StoreOk, Named;
  }

  lemma FreeViews(s: State, t: State, v: View)
    requires Core(s) && v in s.views && v.id < |s.shares| && WellFormed(t.m) && t.views == s.views - {v}
    requires |t.shares| == |s.shares|
    requires forall j :: 0 <= j < |s.shares| ==> t.shares[j].frames == s.shares[j].frames && t.shares[j].empty == s.shares[j].empty
    requires Released(s.m, t.m, v.space, v.page, |s.shares[v.id].frames|)
    ensures Views(t)
  {
    hide Core, Released, ViewAt;
    forall w | w in t.views
      ensures ViewOk(t.m, t.shares, w)
    {
      ViewFacts(s, w);
      forall k: nat | k < |s.shares[w.id].frames|
        ensures ViewAt(t.m, s.shares[w.id].frames, w, k)
      {
        ReleasedViews(s, t.m, v, w, k);
      }
    }
  }

  lemma FreeCounts(s: State, t: State, v: View)
    requires Counts(s) && v in s.views && v.id < |s.shares| && t.views == s.views - {v} && 0 < s.shares[v.id].refs
    requires t.shares == s.shares[v.id := s.shares[v.id].(refs := s.shares[v.id].refs - 1)]
    ensures Counts(t)
  {
    forall j: nat | Live(t, j)
      ensures t.shares[j].refs == |ViewsOf(t.views, j)|
    {
      assert Live(s, j);
      ViewsShrink(s.views, v, j);
    }
  }

  // ----- the last free -----

  /** free_share_object gives back the pages of the store. */
  lemma DropStoreLoses(m: Memory, sh: Share)
    requires Exact(m, {}) && WellFormed(m) && StoreOk(m, sh)
    ensures Exact(DropStore(m, sh), {}) && Lost(m, DropStore(m, sh), StorePages(m, sh))
    ensures |StorePages(m, sh)| == TableCount(sh.pages) + 1
  {
    hide *;
    StoreFacts(m, sh);
    var slots := TableSlots(m, sh.tables, |sh.tables|);
    var t := DropTables(m, sh.tables, |sh.tables|);
    TableSlotsAre(m, sh.tables, |sh.tables|);
    DropTablesLoses(m, sh.tables, |sh.tables|);
    LostLeaves(m, t, slots, KernelPage(sh.dir));
    LoseOne(t, KernelPage(sh.dir));
    LoseMore(m, t, UnmapFrame(t, KernelPage(sh.dir)), slots, {KernelPage(sh.dir)});
  }

  /** What is left when slots are lost is undisturbed. */
  lemma LostLeaves(m: Memory, r: Memory, slots: set<Slot>, t: Slot)
    requires WellFormed(m) && WellFormed(r) && Lost(m, r, slots) && t in m.ptes && t !in slots
    ensures |r.refs| == |m.refs| && Undisturbed(m, r, t)
    ensures t in r.ptes && r.ptes[t] == m.ptes[t]
    ensures r.ptes[t].frame < |r.refs| && r.refs[r.ptes[t].frame] == m.refs[m.ptes[t].frame]
    ensures Allocatable(m, m.ptes[t].frame) ==> Allocatable(r, m.ptes[t].frame)
  {
  }

  lemma UndisturbedTwice(m: Memory, t: Memory, r: Memory, slots: set<Slot>)
    requires WellFormed(m) && WellFormed(t) && WellFormed(r)
    requires AllUndisturbed(m, t, slots) && AllUndisturbed(t, r, slots)
    ensures AllUndisturbed(m, r, slots)
  {
    forall s: Slot | s in slots
      ensures Undisturbed(m, r, s)
    {
      assert Undisturbed(m, t, s) && Undisturbed(t, r, s);
    }
  }

  /** The object that goes was seen through view v only. */
  lemma OnlyView(s: State, v: View, w: View)
    requires Core(s) && v in s.views && w in s.views && v.id == w.id < |s.shares| && s.shares[v.id].refs == 1
    ensures v == w
  {
    ViewFacts(s, v);
    var a := ViewsOf(s.views, v.id);
    assert v in a && w in a && |a| == 1;
    assert |a - {v}| == 0;
    assert w !in a - {v};
  }

  /** The first half of the last free: the view's pages are gone, everything else stands. */
  ghost predicate HalfFreed(s: State, m: Memory, v: View)
    requires Named(s) && v.id < |s.shares|
  {
    && WellFormed(m) && Exact(m, {}) && |m.refs| == |s.m.refs|
    && Released(s.m, m, v.space, v.page, |s.shares[v.id].frames|)
    && (forall j: nat :: Live(s, j) ==> AllUndisturbed(s.m, m, StorePages(s.m, s.shares[j])))
    && StoreOk(m, s.shares[v.id]) && StorePages(m, s.shares[v.id]) == StorePages(s.m, s.shares[v.id])
  }

  lemma UnmapHalfFrees(s: State, v: View)
    requires Core(s) && v in s.views && v.id < |s.shares|
    ensures HalfFreed(s, UnmapRange(s.m, v.space, v.page, s.shares[v.id].pages), v)
  {
    ViewFacts(s, v);
    LiveFacts(s, v.id);
    hide Core, Named, Exact, WellFormed, Live, ViewAt, AreFrames, Released, UnmapRange, OwnFrames;
    hide AllUndisturbed, StoreOk, StorePages, DataOk, RR.NoRepeats, Mappable, Objects, Pairs, Views, Counts;
    PartsOf(s);
    var sh := s.shares[v.id];
    ViewOwnsFrames(s.m, sh.frames, v);
    UnmapRangeKeeps(s.m, v.space, v.page, sh.pages);
    var m := UnmapRange(s.m, v.space, v.page, sh.pages);
    forall j: nat | Live(s, j)
      ensures j < |s.shares| && AreFrames(s.m, s.shares[j].tables)
      ensures AllUndisturbed(s.m, m, StorePages(s.m, s.shares[j]))
    {
      LiveFacts(s, j);
      ReleasedLeavesStores(s, m, v, j);
    }
    StoreStays(s.m, m, sh);
  }

  lemma HalfFreedFacts(s: State, m: Memory, v: View, j: nat)
    requires Named(s) && v.id < |s.shares| && HalfFreed(s, m, v) && Live(s, j)
    ensures WellFormed(m) && Exact(m, {}) && |m.refs| == |s.m.refs| && AreFrames(m, s.shares[v.id].tables)
    ensures Released(s.m, m, v.space, v.page, |s.shares[v.id].frames|)
    ensures AllUndisturbed(s.m, m, StorePages(s.m, s.shares[j]))
    ensures StoreOk(m, s.shares[v.id]) && StorePages(m, s.shares[v.id]) == StorePages(s.m, s.shares[v.id])
  {
  }

  /** Another object after both halves of the last free. */
  lemma LastFreeObject(s: State, m: Memory, r: Memory, v: View, slots: set<Slot>, j: nat)
    requires Core(s) && v in s.views && v.id < |s.shares| && HalfFreed(s, m, v) && Disposable(s, v.id, slots)
    requires WellFormed(r) && Lost(m, r, slots) && Live(s, j) && j != v.id
    ensures DataOk(r, s.shares[j]) && StoreOk(r, s.shares[j]) && |r.refs| == |s.m.refs|
    ensures AllUndisturbed(s.m, r, StorePages(s.m, s.shares[j]))
  {
    hide *;
    PartsOf(s);
    HalfFreedFacts(s, m, v, j);
    ViewFacts(s, v);
    LiveFacts(s, v.id);
    LiveFacts(s, j);
    forall t: Slot | t in StorePages(s.m, s.shares[j])
      ensures Undisturbed(m, r, t)
    {
      InStore(s.m, m, s.shares[j], t);
      DisposableFacts(s, v.id, slots, j, t);
      LostLeaves(m, r, slots, t);
    }
    AllUndisturbedFrom(m, r, StorePages(s.m, s.shares[j]));
    UndisturbedTwice(s.m, m, r, StorePages(s.m, s.shares[j]));
    LostLength(m, r, slots);
    StoreStays(s.m, r, s.shares[j]);
    ReleasedData(s, m, v, j);
    LastFreeData(s, m, r, v, slots, j);
  }

  lemma LostLength(m: Memory, r: Memory, slots: set<Slot>)
    requires WellFormed(m) && WellFormed(r) && Lost(m, r, slots)
    ensures |r.refs| == |m.refs| && |r.free| == |m.free| + |slots|
  {
  }

  lemma InStore(m: Memory, r: Memory, sh: Share, t: Slot)
    requires WellFormed(m) && WellFormed(r) && AreFrames(m, sh.tables) && t in StorePages(m, sh)
    requires AllUndisturbed(m, r, StorePages(m, sh))
    ensures t in r.ptes
  {
    assert Undisturbed(m, r, t);
  }

  /** Kernel pages that belong to no object but the one that goes. */
  ghost predicate Disposable(s: State, id: nat, slots: set<Slot>)
    requires Named(s)
  {
    && (forall t: Slot :: t in slots ==> t.space == K.KERNEL)
    && (forall j: nat :: Live(s, j) && j != id ==> slots !! StorePages(s.m, s.shares[j]))
  }

  lemma DisposableFacts(s: State, id: nat, slots: set<Slot>, j: nat, t: Slot)
    requires Named(s) && Disposable(s, id, slots) && Live(s, j) && j != id
    ensures j < |s.shares| && WellFormed(s.m) && AreFrames(s.m, s.shares[j].tables)
    ensures t in StorePages(s.m, s.shares[j]) ==> t !in slots
  {
  }

  lemma NotDisposed(s: State, id: nat, slots: set<Slot>, t: Slot)
    requires Named(s) && Disposable(s, id, slots) && t.space != K.KERNEL
    ensures t !in slots
  {
  }

  lemma LastFreeData(s: State, m: Memory, r: Memory, v: View, slots: set<Slot>, j: nat)
    requires Core(s) && v in s.views && v.id < |s.shares| && HalfFreed(s, m, v) && Disposable(s, v.id, slots)
    requires j < |s.shares| && DataOk(m, s.shares[j])
    requires WellFormed(r) && Lost(m, r, slots) && Live(s, j) && j != v.id
    ensures DataOk(r, s.shares[j])
  {
    hide *;
    PartsOf(s);
    HalfFreedFacts(s, m, v, j);
    ViewFacts(s, v);
    LiveFacts(s, v.id);
    LiveFacts(s, j);
    var sh := s.shares[j];
    var w := SomeView(s, j);
    forall k: nat | k < |sh.frames|
      ensures Allocatable(r, sh.frames[k]) && sh.frames[k] < |r.refs| && r.refs[sh.frames[k]] == sh.refs
    {
      ReleasedViews(s, m, v, w, k);
      var t := Slot(w.space, w.page + k);
      ViewEntry(m, sh.frames, w, k);
      ViewFacts(s, w);
      NotDisposed(s, v.id, slots, t);
      LostLeaves(m, r, slots, t);
      DataAt(m, sh, k);
      AllocatableAt(r, sh.frames[k]);
    }
    DataSame(m, r, sh, sh.refs);
  }

  lemma LastFreeNamed(s: State, m: Memory, t: State, v: View, slots: set<Slot>)
    requires Core(s) && v.id < |s.shares| && HalfFreed(s, m, v) && Disposable(s, v.id, slots)
    requires t.shares == s.shares[v.id := NO_SHARE] && WellFormed(t.m) && Lost(m, t.m, slots)
    ensures Named(t)
  {
    hide Exact, Released, AllUndisturbed, StorePages, StoreOk, DataOk, SharesApart, ViewOk, ViewsOf;
    LostLength(m, t.m, slots);
  }

  lemma LastFreeObjects(s: State, m: Memory, t: State, v: View, slots: set<Slot>)
    requires Core(s) && v in s.views && v.id < |s.shares| && HalfFreed(s, m, v) && Disposable(s, v.id, slots) && Named(t)
    requires t.shares == s.shares[v.id := NO_SHARE] && WellFormed(t.m) && Lost(m, t.m, slots)
    ensures Objects(t)
  {
    hide Core, Named, Lost, HalfFreed, AllUndisturbed, StorePages, DataOk, StoreOk, SharesApart, AreFrames;
    forall j: nat | Live(t, j)
      ensures DataOk(t.m, t.shares[j]) && StoreOk(t.m, t.shares[j])
    {
      LastFreeObject(s, m, t.m, v, slots, j);
    }
  }

  lemma LastFreePairs(s: State, m: Memory, t: State, v: View, slots: set<Slot>)
    requires Core(s) && v in s.views && v.id < |s.shares| && HalfFreed(s, m, v) && Disposable(s, v.id, slots) && Named(t)
    requires t.shares == s.shares[v.id := NO_SHARE] && WellFormed(t.m) && Lost(m, t.m, slots)
    ensures Pairs(t)
  {
    hide Core, Lost, HalfFreed, StorePages, SharesApart, AreFrames;
    forall j: nat, k: nat | Live(t, j) && Live(t, k) && j != k
      ensures SharesApart(t.m, t.shares[j], t.shares[k])
    {
      LastFreePair(s, m, t, v, slots, j, k);
    }
  }

  lemma LastFreePair(s: State, m: Memory, t: State, v: View, slots: set<Slot>, j: nat, k: nat)
    requires Core(s) && v in s.views && v.id < |s.shares| && HalfFreed(s, m, v) && Disposable(s, v.id, slots)
    requires t.shares == s.shares[v.id := NO_SHARE] && WellFormed(t.m) && Lost(m, t.m, slots)
    requires Live(t, j) && Live(t, k) && j != k
    ensures AreFrames(t.m, t.shares[j].tables) && AreFrames(t.m, t.shares[k].tables)
    ensures SharesApart(t.m, t.shares[j], t.shares[k])
  {
    assert Live(s, j) && Live(s, k) && j != v.id && k != v.id;
    assert SharesApart(s.m, s.shares[j], s.shares[k]);
    hide *;
    LiveFacts(s, j);
    LiveFacts(s, k);
    LastFreeObject(s, m, t.m, v, slots, j);
    LastFreeObject(s, m, t.m, v, slots, k);
    PairStays(s.m, t.m, s.shares[j], s.shares[k], t.shares[j], t.shares[k]);
  }

  lemma LastFreeViews(s: State, m: Memory, t: State, v: View, slots: set<Slot>)
    requires Core(s) && v in s.views && v.id < |s.shares| && HalfFreed(s, m, v) && Disposable(s, v.id, slots) && s.shares[v.id].refs == 1
    requires t.shares == s.shares[v.id := NO_SHARE] && t.views == s.views - {v}
    requires WellFormed(t.m) && Lost(m, t.m, slots)
    ensures Views(t)
  {
    hide Core, HalfFreed, Lost, ViewAt, StorePages;
    forall w | w in t.views
      ensures ViewOk(t.m, t.shares, w)
    {
      ViewFacts(s, w);
      OtherObject(s, v, w);
      forall k: nat | k < |s.shares[w.id].frames|
        ensures ViewAt(t.m, s.shares[w.id].frames, w, k)
      {
        LastFreeView(s, m, t.m, v, slots, w, k);
      }
    }
  }

  lemma OtherObject(s: State, v: View, w: View)
    requires Core(s) && v in s.views && w in s.views && v != w && v.id < |s.shares| && s.shares[v.id].refs == 1
    ensures w.id != v.id
  {
    hide *;
    if w.id == v.id {
      OnlyView(s, v, w);
    }
  }

  lemma LastFreeView(s: State, m: Memory, r: Memory, v: View, slots: set<Slot>, w: View, k: nat)
    requires Core(s) && v in s.views && v.id < |s.shares| && HalfFreed(s, m, v) && Disposable(s, v.id, slots)
    requires WellFormed(r) && Lost(m, r, slots)
    requires w in s.views && w != v && w.id < |s.shares| && k < |s.shares[w.id].frames|
    ensures ViewAt(r, s.shares[w.id].frames, w, k)
  {
    hide *;
    PartsOf(s);
    ViewFacts(s, v);
    HalfFreedFacts(s, m, v, v.id);
    ReleasedViews(s, m, v, w, k);
    var u := Slot(w.space, w.page + k);
    ViewFacts(s, w);
    NotDisposed(s, v.id, slots, u);
    ViewEntry(m, s.shares[w.id].frames, w, k);
    LostLeaves(m, r, slots, u);
    ViewEntry(r, s.shares[w.id].frames, w, k);
  }

  lemma LastFreeCounts(s: State, t: State, v: View)
    requires Counts(s) && v in s.views && v.id < |s.shares|
    requires t.shares == s.shares[v.id := NO_SHARE] && t.views == s.views - {v}
    ensures Counts(t)
  {
    forall j: nat | Live(t, j)
      ensures t.shares[j].refs == |ViewsOf(t.views, j)|
    {
      assert Live(s, j) && j != v.id;
      ViewsShrink(s.views, v, j);
    }
  }

  lemma LastFreeFrames(s: State, m: Memory, t: State, v: View, slots: set<Slot>)
    requires Core(s) && v in s.views && v.id < |s.shares| && HalfFreed(s, m, v) && Disposable(s, v.id, slots) && s.shares[v.id].refs == 1
    requires WellFormed(t.m) && Exact(t.m, {}) && Lost(m, t.m, slots)
    ensures |t.m.free| == |s.m.free| + s.shares[v.id].pages + |slots|
    ensures forall k: nat :: k < |s.shares[v.id].frames| ==> s.shares[v.id].frames[k] in t.m.free
  {
    hide *;
    var sh := s.shares[v.id];
    ViewFacts(s, v);
    LiveFacts(s, v.id);
    PartsOf(s);
    HalfFreedFacts(s, m, v, v.id);
    OneReference(s, v);
    ReleasedLength(s.m, m, v.space, v.page, |sh.frames|);
    LostLength(m, t.m, slots);
    ReleasedData(s, m, v, v.id);
    forall k: nat | k < |sh.frames|
      ensures sh.frames[k] in t.m.free
    {
      DataAt(s.m, sh, k);
      ZeroIsFree(s.m, m, t.m, v, |sh.frames|, slots, sh.frames[k]);
    }
  }

  lemma OneReference(s: State, v: View)
    requires Core(s) && v in s.views && v.id < |s.shares| && s.shares[v.id].refs == 1
    ensures WellFormed(s.m) && Singles(s.m, v.space, v.page, |s.shares[v.id].frames|) == s.shares[v.id].pages
  {
    ViewFacts(s, v);
    LiveFacts(s, v.id);
    ViewOwnsFrames(s.m, s.shares[v.id].frames, v);
    AllSingles(s.m, v.space, v.page, |s.shares[v.id].frames|);
  }

  lemma ZeroIsFree(a: Memory, m: Memory, t: Memory, v: View, n: nat, slots: set<Slot>, f: nat)
    requires WellFormed(a) && WellFormed(m) && WellFormed(t) && Exact(t, {})
    requires Released(a, m, v.space, v.page, n) && Lost(m, t, slots)
    requires Allocatable(a, f) && f < |m.refs| && m.refs[f] == 0
    ensures f in t.free
  {
    assert Allocatable(t, f) && t.refs[f] == 0;
  }

  // ----- the environment's tables when a view goes -----

  /** Kernel pages on frames of their own are not touched when a view is unmapped. */
  lemma ReleasedLeavesPage(s: State, r: Memory, v: View, t: Slot)
    requires Core(s) && v in s.views && v.id < |s.shares| && WellFormed(s.m) && WellFormed(r)
    requires Released(s.m, r, v.space, v.page, |s.shares[v.id].frames|)
    requires t in s.m.ptes && t.space == K.KERNEL && s.m.refs[s.m.ptes[t].frame] == 1
    ensures Undisturbed(s.m, r, t)
  {
    ViewFacts(s, v);
    LiveFacts(s, v.id);
    var fs := s.shares[v.id].frames;
    ViewOwnsFrames(s.m, fs, v);
    forall k: nat | k < |fs|
      ensures s.m.ptes[t].frame != fs[k]
    {
      KernelIsNotData(s, t, v.id, k);
    }
    hide Core, Live, ViewAt, DataOk, StoreOk, OwnFrames, Mappable;
  }

  lemma TableFacts(s: State, e: nat, d: nat)
    requires Core(s) && Tabled(s) && HasTable(s.tables, e, d)
    ensures WellFormed(s.m)
    ensures var t := TablePage(s.tables, e, d);
      && t.space == K.KERNEL && t in s.m.ptes && s.m.ptes[t].frame < |s.m.refs| && s.m.refs[s.m.ptes[t].frame] == 1
      && forall i: nat :: Live(s, i) ==> i < |s.shares| && AreFrames(s.m, s.shares[i].tables) && t !in StorePages(s.m, s.shares[i])
  {
    assert TableOk(s, e, d);
  }

  lemma TablesOfIs(tables: map<nat, map<nat, nat>>, e: nat, d: nat)
    ensures d in TablesOf(tables, e) <==> HasTable(tables, e, d)
    ensures HasTable(tables, e, d) ==> TablePage(tables, e, d) == KernelPage(TablesOf(tables, e)[d])
  {
  }

  lemma TwoTables(s: State, e: nat, d: nat, b: nat, c: nat)
    requires Named(s) && Tabled(s) && HasTable(s.tables, e, d) && HasTable(s.tables, b, c) && (e != b || d != c)
    ensures TablePage(s.tables, e, d) != TablePage(s.tables, b, c)
  {
  }

  lemma TablesApart(s: State, e: nat, d: nat, c: nat)
    requires Named(s) && Tabled(s) && HasTable(s.tables, e, d) && HasTable(s.tables, e, c) && d != c
    ensures TablesOf(s.tables, e)[d] != TablesOf(s.tables, e)[c]
  {
    assert TablePage(s.tables, e, d) != TablePage(s.tables, e, c);
  }

  lemma TablesOkFrom(m: Memory, ts: map<nat, nat>)
    requires WellFormed(m)
    requires forall d: nat :: d in ts ==>
               KernelPage(ts[d]) in m.ptes && m.ptes[KernelPage(ts[d])].frame < |m.refs|
               && m.refs[m.ptes[KernelPage(ts[d])].frame] == 1
    requires forall d: nat, c: nat :: d in ts && c in ts && d != c ==> ts[d] != ts[c]
    ensures TablesOk(m, ts)
  {
  }

  lemma ViewTables(s: State, m: Memory, v: View)
    requires Core(s) && Tabled(s) && v in s.views && v.id < |s.shares| && WellFormed(s.m) && WellFormed(m)
    requires Released(s.m, m, v.space, v.page, |s.shares[v.id].frames|)
    ensures TablesOk(m, TablesOf(s.tables, v.space))
  {
    hide *;
    PartsOf(s);
    var ts := TablesOf(s.tables, v.space);
    forall d: nat | d in ts
      ensures KernelPage(ts[d]) in m.ptes && m.ptes[KernelPage(ts[d])].frame < |m.refs|
      ensures m.refs[m.ptes[KernelPage(ts[d])].frame] == 1
    {
      TablesOfIs(s.tables, v.space, d);
      TableFacts(s, v.space, d);
      ReleasedLeavesPage(s, m, v, KernelPage(ts[d]));
      UndisturbedIs(s.m, m, KernelPage(ts[d]));
    }
    forall d: nat, c: nat | d in ts && c in ts && d != c
      ensures ts[d] != ts[c]
    {
      TablesOfIs(s.tables, v.space, d);
      TablesOfIs(s.tables, v.space, c);
      TablesApart(s, v.space, d, c);
    }
    TablesOkFrom(m, ts);
  }

  /** The pages of dropped tables belong to no object. */
  lemma DroppedDisposable(s: State, v: View, left: map<nat, nat>, id: nat)
    requires Core(s) && Tabled(s)
    ensures Named(s) && Disposable(s, id, TablePages(TablesOf(s.tables, v.space), left))
  {
    PartsOf(s);
    var ts := TablesOf(s.tables, v.space);
    forall t: Slot | t in TablePages(ts, left)
      ensures t.space == K.KERNEL
      ensures forall j: nat :: Live(s, j) ==> j < |s.shares| && WellFormed(s.m) && AreFrames(s.m, s.shares[j].tables)
                                               && t !in StorePages(s.m, s.shares[j])
    {
      var d: nat :| d in ts && d !in left && t == KernelPage(ts[d]);
      TablesOfIs(s.tables, v.space, d);
      TableFacts(s, v.space, d);
    }
    hide Core, Tabled, StorePages, TablePages, AreFrames, WellFormed;
  }

  lemma MoreDisposable(s: State, id: nat, slots: set<Slot>)
    requires Core(s) && Live(s, id) && Named(s) && Disposable(s, id, slots)
    ensures id < |s.shares| && WellFormed(s.m) && AreFrames(s.m, s.shares[id].tables)
    ensures Disposable(s, id, slots + StorePages(s.m, s.shares[id]))
  {
    LiveFacts(s, id);
    forall t: Slot | t in StorePages(s.m, s.shares[id])
      ensures t.space == K.KERNEL
    {
      StorePageIs(s.m, s.shares[id], t);
    }
    forall j: nat | Live(s, j) && j != id
      ensures StorePages(s.m, s.shares[id]) !! StorePages(s.m, s.shares[j])
    {
      ApartBoth(s, id, j);
    }
    hide Core, StorePages;
  }

  /** A table that stays is on none of the pages that go. */
  lemma RemainingTable(s: State, v: View, left: map<nat, nat>, stores: set<Slot>, e: nat, d: nat)
    requires Core(s) && Tabled(s) && Live(s, v.id) && v.id < |s.shares| && WellFormed(s.m) && AreFrames(s.m, s.shares[v.id].tables)
    requires stores <= StorePages(s.m, s.shares[v.id])
    requires forall c: nat :: c in left ==> c in TablesOf(s.tables, v.space) && left[c] == TablesOf(s.tables, v.space)[c]
    requires HasTable(s.tables[v.space := left], e, d)
    ensures HasTable(s.tables, e, d) && TablePage(s.tables[v.space := left], e, d) == TablePage(s.tables, e, d)
    ensures TablePage(s.tables, e, d) !in TablePages(TablesOf(s.tables, v.space), left) + stores
  {
    PartsOf(s);
    TablesOfIs(s.tables, v.space, d);
    TableFacts(s, e, d);
    var t := TablePage(s.tables, e, d);
    var ts := TablesOf(s.tables, v.space);
    forall c: nat | c in ts && c !in left
      ensures KernelPage(ts[c]) != t
    {
      TablesOfIs(s.tables, v.space, c);
      if e != v.space || d != c {
        TwoTables(s, e, d, v.space, c);
      }
    }
    hide Core, Tabled, StorePages, AreFrames, WellFormed, KernelPage;
  }

  /** From one state to another in which tables, their pages and the stores that remain are the same. */
  lemma TabledFrom(s: State, t: State)
    requires Named(s) && Tabled(s) && Named(t)
    requires forall e: nat, d: nat :: HasTable(t.tables, e, d) ==>
               && HasTable(s.tables, e, d) && TablePage(t.tables, e, d) == TablePage(s.tables, e, d)
               && WellFormed(s.m) && WellFormed(t.m) && Undisturbed(s.m, t.m, TablePage(s.tables, e, d))
    requires forall i: nat :: Live(t, i) ==>
               && Live(s, i) && i < |t.shares| && i < |s.shares| && WellFormed(s.m) && WellFormed(t.m)
               && AreFrames(s.m, s.shares[i].tables) && AreFrames(t.m, t.shares[i].tables)
               && StorePages(t.m, t.shares[i]) == StorePages(s.m, s.shares[i])
    requires forall u: Slot :: u in t.m.ptes && u.space != K.KERNEL ==> HasTable(t.tables, u.space, Directory(u.page))
    ensures Tabled(t)
  {
    forall e: nat, d: nat | HasTable(t.tables, e, d)
      ensures TableOk(t, e, d)
    {
      assert TableOk(s, e, d);
      assert Undisturbed(s.m, t.m, TablePage(s.tables, e, d));
    }
    hide TableOk, Named, StorePages, HasTable, TablePage, Undisturbed, WellFormed, AreFrames, Directory;
  }

  lemma LeftFacts(m: Memory, space: nat, ts: map<nat, nat>, left: map<nat, nat>, lo: nat, n: nat)
    requires Left(m, space, ts, left, lo, n)
    ensures forall c: nat :: c in left ==> c in ts && left[c] == ts[c]
    ensures forall u: Slot :: u in m.ptes && u.space == space && Directory(u.page) in ts ==> Directory(u.page) in left
  {
    forall u: Slot | u in m.ptes && u.space == space && Directory(u.page) in ts
      ensures Directory(u.page) in left
    {
      assert !TableEmpty(m, space, Directory(u.page));
    }
  }

  /** Which slots are left when a view's pages and then some kernel pages are gone. */
  lemma OnlyOldSlots(a: Memory, m: Memory, r: Memory, space: nat, page: nat, n: nat, slots: set<Slot>, u: Slot)
    requires WellFormed(a) && WellFormed(m) && WellFormed(r) && Released(a, m, space, page, n) && Lost(m, r, slots)
    requires u in r.ptes
    ensures u in m.ptes && u in a.ptes
  {
  }

  lemma UndisturbedAgain(a: Memory, m: Memory, r: Memory, t: Slot)
    requires WellFormed(a) && WellFormed(m) && WellFormed(r) && Undisturbed(a, m, t) && Undisturbed(m, r, t)
    ensures Undisturbed(a, r, t)
  {
  }

  lemma UndisturbedIn(m: Memory, r: Memory, t: Slot)
    requires WellFormed(m) && WellFormed(r) && Undisturbed(m, r, t)
    ensures t in r.ptes
  {
  }

  lemma SlotHasTable(s: State, u: Slot)
    requires Named(s) && Tabled(s) && u in s.m.ptes && u.space != K.KERNEL
    ensures HasTable(s.tables, u.space, Directory(u.page))
  {
  }

  lemma HasTableAfter(tables: map<nat, map<nat, nat>>, space: nat, left: map<nat, nat>, e: nat, d: nat)
    ensures HasTable(tables[space := left], e, d) <==> if e == space then d in left else HasTable(tables, e, d)
  {
  }

  /** Tables and pages still match when the view is gone. */
  lemma FreeTabled(s: State, t: State, m: Memory, v: View, left: map<nat, nat>, stores: set<Slot>)
    requires Inv(s) && v in s.views && Live(s, v.id) && v.id < |s.shares| && Named(t)
    requires WellFormed(s.m) && WellFormed(m) && WellFormed(t.m) && AreFrames(s.m, s.shares[v.id].tables)
    requires Released(s.m, m, v.space, v.page, |s.shares[v.id].frames|)
    requires var ts := TablesOf(s.tables, v.space);
      && Left(m, v.space, ts, left, v.page, |s.shares[v.id].frames|) && t.tables == s.tables[v.space := left]
      && stores <= StorePages(s.m, s.shares[v.id]) && Lost(m, t.m, TablePages(ts, left) + stores)
    requires forall i: nat :: Live(t, i) ==>
               && Live(s, i) && i < |t.shares| && i < |s.shares|
               && AreFrames(s.m, s.shares[i].tables) && AreFrames(t.m, t.shares[i].tables)
               && StorePages(t.m, t.shares[i]) == StorePages(s.m, s.shares[i])
    ensures Tabled(t)
  {
    InvIs(s);
    hide *;
    PartsOf(s);
    var ts, n := TablesOf(s.tables, v.space), |s.shares[v.id].frames|;
    var slots := TablePages(ts, left) + stores;
    LeftFacts(m, v.space, ts, left, v.page, n);
    forall e: nat, d: nat | HasTable(t.tables, e, d)
      ensures HasTable(s.tables, e, d) && TablePage(t.tables, e, d) == TablePage(s.tables, e, d)
      ensures Undisturbed(s.m, t.m, TablePage(s.tables, e, d))
    {
      RemainingTable(s, v, left, stores, e, d);
      TableFacts(s, e, d);
      var p := TablePage(s.tables, e, d);
      ReleasedLeavesPage(s, m, v, p);
      UndisturbedIn(s.m, m, p);
      LostLeaves(m, t.m, slots, p);
      UndisturbedAgain(s.m, m, t.m, p);
    }
    forall u: Slot | u in t.m.ptes && u.space != K.KERNEL
      ensures HasTable(t.tables, u.space, Directory(u.page))
    {
      OnlyOldSlots(s.m, m, t.m, v.space, v.page, n, slots, u);
      SlotHasTable(s, u);
      TablesOfIs(s.tables, v.space, Directory(u.page));
      HasTableAfter(s.tables, v.space, left, u.space, Directory(u.page));
    }
    TabledFrom(s, t);
  }

  lemma InvIs(s: State)
    ensures Inv(s) <==> Core(s) && Tabled(s)
  {
  }

  // ----- both kinds of free -----

  /** The tables that go: those of the range that no mapped page needs any more. */
  ghost predicate TablesTrimmed(s: State, t: State, v: View, n: nat) {
    var ts, us := TablesOf(s.tables, v.space), TablesOf(t.tables, v.space);
    && (forall e: nat :: e != v.space ==> TablesOf(t.tables, e) == TablesOf(s.tables, e))
    && (forall d: nat :: d in us <==> d in ts && !(Touches(d, v.page, n) && TableEmpty(t.m, v.space, d)))
    && (forall d: nat :: d in us && d in ts ==> us[d] == ts[d])
    && |us| <= |ts|
  }

  lemma TrimmedFrom(s: State, t: State, m: Memory, v: View, n: nat, left: map<nat, nat>, slots: set<Slot>)
    requires WellFormed(m) && WellFormed(t.m) && v.space != K.KERNEL
    requires var ts := TablesOf(s.tables, v.space);
      && Left(m, v.space, ts, left, v.page, n) && t.tables == s.tables[v.space := left]
      && |TablePages(ts, left)| + |left| == |ts|
    requires Lost(m, t.m, slots) && forall u: Slot :: u in slots ==> u.space == K.KERNEL
    ensures TablesTrimmed(s, t, v, n)
  {
    forall d: nat
      ensures TableEmpty(t.m, v.space, d) <==> TableEmpty(m, v.space, d)
    {
    }
    hide TableEmpty, Touches, Lost, WellFormed, TablePages;
  }

  /** What the code does after unmapping a view, in terms of slots that go. */
  lemma TrimIs(s: State, m: Memory, v: View)
    requires Inv(s) && v in s.views && v.id < |s.shares| && WellFormed(s.m) && WellFormed(m) && Exact(m, {})
    requires Released(s.m, m, v.space, v.page, |s.shares[v.id].frames|)
    ensures var ts, n := TablesOf(s.tables, v.space), |s.shares[v.id].frames|;
      var (r, left) := DropEmptyTables(m, v.space, ts, v.page, n);
      && Exact(r, {}) && Lost(m, r, TablePages(ts, left)) && |TablePages(ts, left)| + |left| == |ts|
      && Left(m, v.space, ts, left, v.page, n) && v.space != K.KERNEL
  {
    InvIs(s);
    hide *;
    ViewFacts(s, v);
    ViewTables(s, m, v);
    var ts, n := TablesOf(s.tables, v.space), |s.shares[v.id].frames|;
    DropEmptyTablesIs(m, v.space, ts, v.page, n);
    var (r, left) := DropEmptyTables(m, v.space, ts, v.page, n);
    PrunedIs(m, r, ts, left);
  }

  lemma PrunedIs(m: Memory, r: Memory, ts: map<nat, nat>, left: map<nat, nat>)
    requires WellFormed(m) && WellFormed(r) && Pruned(m, r, ts, left)
    ensures Exact(r, {}) && Lost(m, r, TablePages(ts, left)) && |TablePages(ts, left)| + |left| == |ts|
  {
  }

  /** Kernel pages nobody's object is on can go. */
  lemma LostCore(s: State, t: State, slots: set<Slot>)
    requires Core(s) && WellFormed(s.m) && WellFormed(t.m) && Exact(t.m, {}) && Named(s)
    requires Lost(s.m, t.m, slots) && Disposable(s, |s.shares|, slots) && t.shares == s.shares && t.views == s.views
    ensures Core(t) && forall j: nat :: Live(t, j) ==> Live(s, j) && j < |s.shares|
    ensures forall j: nat :: Live(t, j) ==> j < |t.shares| && AreFrames(s.m, s.shares[j].tables) && AreFrames(t.m, t.shares[j].tables)
                                             && StorePages(t.m, t.shares[j]) == StorePages(s.m, s.shares[j])
  {
    hide *;
    PartsOf(s);
    LostLength(s.m, t.m, slots);
    forall j: nat | Live(t, j)
      ensures j < |t.shares| && Live(s, j) && DataOk(t.m, t.shares[j])
      ensures AreFrames(s.m, s.shares[j].tables) && AllUndisturbed(s.m, t.m, StorePages(s.m, s.shares[j]))
    {
      LiveIs(t, j);
      LiveIs(s, j);
      LiveFacts(s, j);
      LostStore(s, t.m, slots, j);
      LostData(s, t.m, slots, j);
    }
    forall v, k: nat | v in t.views && v.id < |s.shares| && k < |s.shares[v.id].frames|
      ensures ViewAt(t.m, s.shares[v.id].frames, v, k)
    {
      ViewFacts(s, v);
      LostView(s, t.m, slots, v, k);
    }
    CoreStays(s, t);
  }

  lemma LostView(s: State, r: Memory, slots: set<Slot>, v: View, k: nat)
    requires Core(s) && Named(s) && WellFormed(s.m) && WellFormed(r) && Lost(s.m, r, slots)
    requires Disposable(s, |s.shares|, slots) && v in s.views && v.id < |s.shares| && k < |s.shares[v.id].frames|
    ensures ViewAt(r, s.shares[v.id].frames, v, k)
  {
    hide *;
    ViewFacts(s, v);
    var fs := s.shares[v.id].frames;
    var u := Slot(v.space, v.page + k);
    NotDisposed(s, |s.shares|, slots, u);
    ViewEntry(s.m, fs, v, k);
    LostLeaves(s.m, r, slots, u);
    ViewEntry(r, fs, v, k);
  }

  lemma LostStore(s: State, r: Memory, slots: set<Slot>, j: nat)
    requires Core(s) && Named(s) && WellFormed(s.m) && WellFormed(r) && Lost(s.m, r, slots)
    requires Disposable(s, |s.shares|, slots) && Live(s, j) && j < |s.shares| && AreFrames(s.m, s.shares[j].tables)
    ensures AllUndisturbed(s.m, r, StorePages(s.m, s.shares[j]))
  {
    hide *;
    LiveFacts(s, j);
    forall t: Slot | t in StorePages(s.m, s.shares[j])
      ensures Undisturbed(s.m, r, t)
    {
      StorePageIs(s.m, s.shares[j], t);
      DisposableFacts(s, |s.shares|, slots, j, t);
      LostLeaves(s.m, r, slots, t);
    }
    AllUndisturbedFrom(s.m, r, StorePages(s.m, s.shares[j]));
  }

  lemma LostData(s: State, r: Memory, slots: set<Slot>, j: nat)
    requires Core(s) && Named(s) && WellFormed(s.m) && WellFormed(r) && Lost(s.m, r, slots)
    requires Disposable(s, |s.shares|, slots) && Live(s, j) && j < |s.shares|
    ensures DataOk(r, s.shares[j])
  {
    hide *;
    LiveFacts(s, j);
    var sh := s.shares[j];
    var w := SomeView(s, j);
    ViewFacts(s, w);
    forall k: nat | k < |sh.frames|
      ensures Allocatable(r, sh.frames[k]) && sh.frames[k] < |r.refs| && r.refs[sh.frames[k]] == sh.refs
    {
      var u := Slot(w.space, w.page + k);
      ViewEntry(s.m, sh.frames, w, k);
      NotDisposed(s, |s.shares|, slots, u);
      LostLeaves(s.m, r, slots, u);
      DataAt(s.m, sh, k);
      AllocatableAt(r, sh.frames[k]);
    }
    DataSame(s.m, r, sh, sh.refs);
  }

  /**
   Freeing one of several views lowers both counts and gives back no data frame;
   the page tables it leaves empty are freed, and only those.
   */
  lemma FreeOneKeeps(s: State, v: View)
    requires Inv(s) && v in s.views && v.id < |s.shares| && 1 < s.shares[v.id].refs
    ensures Named(s)
    ensures var t := FreeStep(s, v.id, v.space, v.page);
      && Inv(t) && TablesTrimmed(s, t, v, s.shares[v.id].pages)
      && t.shares == s.shares[v.id := s.shares[v.id].(refs := s.shares[v.id].refs - 1)]
      && |t.m.free| == |s.m.free| + |TablesOf(s.tables, v.space)| - |TablesOf(t.tables, v.space)|
  {
    InvIs(s);
    hide *;
    ViewFacts(s, v);
    LiveFacts(s, v.id);
    PartsOf(s);
    var sh := s.shares[v.id];
    ViewOwnsFrames(s.m, sh.frames, v);
    UnmapRangeKeeps(s.m, v.space, v.page, sh.pages);
    var m := UnmapRange(s.m, v.space, v.page, sh.pages);
    var q := State(m, s.shares[v.id := sh.(refs := sh.refs - 1)], s.views - {v}, s.tables);
    UnmapCore(s, q, v);
    var t := FreeStep(s, v.id, v.space, v.page);
    FreeStepIs(s, v.id, v.space, v.page);
    assert View(v.id, v.space, v.page) == v;
    TrimIs(s, m, v);
    var left := TablesOf(t.tables, v.space);
    TablesOfSet(s.tables, v.space, DropEmptyTables(m, v.space, TablesOf(s.tables, v.space), v.page, sh.pages).1);
    var gone := TablePages(TablesOf(s.tables, v.space), left);
    DroppedDisposable(s, v, left, |s.shares|);
    UnmapStores(s, q, v);
    PartsOf(q);
    SameDisposable(s, q, gone);
    LostCore(q, t, gone);
    LostLength(m, t.m, gone);
    assert gone + {} == gone;
    PartsOf(t);
    FreeTabled(s, t, m, v, left, {});
    OnlyKernel(s, |s.shares|, gone);
    TrimmedFrom(s, t, m, v, sh.pages, left, gone);
    InvIs(t);
  }

  lemma OnlyKernel(s: State, id: nat, slots: set<Slot>)
    requires Named(s) && Disposable(s, id, slots)
    ensures forall u: Slot :: u in slots ==> u.space == K.KERNEL
  {
  }

  lemma TablesOfSet(tables: map<nat, map<nat, nat>>, e: nat, ts: map<nat, nat>)
    ensures TablesOf(tables[e := ts], e) == ts
  {
  }

  /** The stores are the same pages when a view was unmapped. */
  lemma UnmapStores(s: State, q: State, v: View)
    requires Core(s) && v in s.views && v.id < |s.shares| && WellFormed(q.m) && Core(q)
    requires Released(s.m, q.m, v.space, v.page, |s.shares[v.id].frames|)
    requires |q.shares| == |s.shares| && q.shares == s.shares[v.id := s.shares[v.id].(refs := q.shares[v.id].refs)]
    ensures forall j: nat :: Live(q, j) <==> Live(s, j)
    ensures forall j: nat :: Live(q, j) ==>
              && j < |s.shares| && WellFormed(s.m) && AreFrames(s.m, s.shares[j].tables) && AreFrames(q.m, q.shares[j].tables)
              && StorePages(q.m, q.shares[j]) == StorePages(s.m, s.shares[j])
  {
    hide *;
    PartsOf(s);
    forall j: nat
      ensures Live(q, j) <==> Live(s, j)
    {
      LiveIs(s, j);
      LiveIs(q, j);
    }
    forall j: nat | Live(q, j)
      ensures j < |s.shares| && AreFrames(s.m, s.shares[j].tables) && AreFrames(q.m, q.shares[j].tables)
      ensures WellFormed(s.m) && StorePages(q.m, q.shares[j]) == StorePages(s.m, s.shares[j])
    {
      LiveFacts(s, j);
      ReleasedLeavesStores(s, q.m, v, j);
      StoreStays(s.m, q.m, s.shares[j]);
      StoreOkFrames(q.m, s.shares[j]);
      SameTables(q.m, s.shares[j], q.shares[j]);
    }
  }

  lemma SameTables(m: Memory, a: Share, b: Share)
    requires WellFormed(m) && AreFrames(m, a.tables) && b == a.(refs := b.refs)
    ensures AreFrames(m, b.tables) && StorePages(m, b) == StorePages(m, a)
  {
  }

  lemma SameDisposable(s: State, q: State, slots: set<Slot>)
    requires Named(s) && Named(q) && |q.shares| == |s.shares| && Disposable(s, |s.shares|, slots)
    requires forall j: nat :: Live(q, j) ==>
              && Live(s, j) && j < |s.shares| && WellFormed(s.m) && AreFrames(s.m, s.shares[j].tables) && AreFrames(q.m, q.shares[j].tables)
              && StorePages(q.m, q.shares[j]) == StorePages(s.m, s.shares[j])
    ensures Disposable(q, |q.shares|, slots)
  {
    hide StorePages, Named, AreFrames, WellFormed;
  }

  /** A frame all of whose slots were lost is free. */
  lemma LostIsFree(m: Memory, r: Memory, slots: set<Slot>, t: Slot)
    requires WellFormed(m) && WellFormed(r) && Exact(m, {}) && Exact(r, {}) && Lost(m, r, slots) && t in slots && t in m.ptes
    ensures m.ptes[t].frame in r.free
  {
    assert Allocatable(r, m.ptes[t].frame);
  }

  /**
   When the last environment frees an object, the object goes, and every frame
   of its data, of its store and of the page tables left empty is free again.
   */
  lemma LastFreeKeeps(s: State, v: View)
    requires Inv(s) && v in s.views && v.id < |s.shares| && s.shares[v.id].refs == 1
    ensures Named(s)
    ensures var t := FreeStep(s, v.id, v.space, v.page);
      var sh := s.shares[v.id];
      && Inv(t) && t.shares[v.id].empty && TablesTrimmed(s, t, v, sh.pages)
      && |t.m.free| == |s.m.free| + sh.pages + TableCount(sh.pages) + 1
                       + |TablesOf(s.tables, v.space)| - |TablesOf(t.tables, v.space)|
      && (forall k: nat :: k < |sh.frames| ==> sh.frames[k] in t.m.free)
      && (forall u: Slot :: u in StorePages(s.m, sh) ==> u in s.m.ptes && s.m.ptes[u].frame in t.m.free)
  {
    InvIs(s);
    hide *;
    ViewFacts(s, v);
    LiveFacts(s, v.id);
    PartsOf(s);
    var sh := s.shares[v.id];
    UnmapHalfFrees(s, v);
    var m := UnmapRange(s.m, v.space, v.page, sh.pages);
    HalfFreedFacts(s, m, v, v.id);
    var t := FreeStep(s, v.id, v.space, v.page);
    FreeStepIs(s, v.id, v.space, v.page);
    assert View(v.id, v.space, v.page) == v;
    TrimIs(s, m, v);
    var (r, left) := DropEmptyTables(m, v.space, TablesOf(s.tables, v.space), v.page, sh.pages);
    TablesOfSet(s.tables, v.space, left);
    var gone, stores := TablePages(TablesOf(s.tables, v.space), left), StorePages(s.m, sh);
    DroppedDisposable(s, v, left, v.id);
    DroppedNotStore(s, v, left);
    TrimmedStore(s, m, r, v, gone);
    DropStoreLoses(r, sh);
    StoreFacts(r, sh);
    LoseMore(m, r, t.m, gone, stores);
    var slots := gone + stores;
    MoreDisposable(s, v.id, gone);
    LastFreeNamed(s, m, t, v, slots);
    LastFreeObjects(s, m, t, v, slots);
    LastFreePairs(s, m, t, v, slots);
    LastFreeViews(s, m, t, v, slots);
    LastFreeCounts(s, t, v);
    CoreFrom(t);
    LastFreeFrames(s, m, t, v, slots);
    LastFreeStores(s, m, t, v, slots);
    FreeTabled(s, t, m, v, left, stores);
    OnlyKernel(s, v.id, slots);
    TrimmedFrom(s, t, m, v, sh.pages, left, slots);
    InvIs(t);
    forall u: Slot | u in stores
      ensures u in s.m.ptes && s.m.ptes[u].frame in t.m.free
    {
      StorePageIs(s.m, sh, u);
      UndisturbedOne(s.m, m, stores, u);
      LostIsFree(m, t.m, slots, u);
    }
  }

  lemma UndisturbedOne(m: Memory, r: Memory, slots: set<Slot>, t: Slot)
    requires WellFormed(m) && WellFormed(r) && AllUndisturbed(m, r, slots) && t in slots
    ensures t in m.ptes && t in r.ptes && r.ptes[t] == m.ptes[t]
  {
    assert Undisturbed(m, r, t);
  }

  lemma DroppedNotStore(s: State, v: View, left: map<nat, nat>)
    requires Core(s) && Tabled(s) && Live(s, v.id)
    ensures v.id < |s.shares| && WellFormed(s.m) && AreFrames(s.m, s.shares[v.id].tables)
    ensures TablePages(TablesOf(s.tables, v.space), left) !! StorePages(s.m, s.shares[v.id])
  {
    LiveFacts(s, v.id);
    DroppedDisposable(s, v, left, |s.shares|);
    hide Core, Tabled, TablePages, StorePages;
  }

  /** The object's store is still there when the tables are gone. */
  lemma TrimmedStore(s: State, m: Memory, r: Memory, v: View, gone: set<Slot>)
    requires Core(s) && Live(s, v.id) && v.id < |s.shares| && Named(s) && HalfFreed(s, m, v)
    requires WellFormed(s.m) && WellFormed(m) && WellFormed(r) && AreFrames(s.m, s.shares[v.id].tables)
    requires Lost(m, r, gone) && gone !! StorePages(s.m, s.shares[v.id])
    ensures StoreOk(r, s.shares[v.id]) && AreFrames(r, s.shares[v.id].tables)
    ensures StorePages(r, s.shares[v.id]) == StorePages(s.m, s.shares[v.id])
  {
    hide *;
    var sh := s.shares[v.id];
    HalfFreedFacts(s, m, v, v.id);
    StoreOkFrames(m, sh);
    forall t: Slot | t in StorePages(m, sh)
      ensures Undisturbed(m, r, t)
    {
      StorePageIs(m, sh, t);
      LostLeaves(m, r, gone, t);
    }
    AllUndisturbedFrom(m, r, StorePages(m, sh));
    LostLength(m, r, gone);
    StoreStays(m, r, sh);
    StoreOkFrames(r, sh);
  }

  lemma LastFreeStores(s: State, m: Memory, t: State, v: View, slots: set<Slot>)
    requires Core(s) && v in s.views && v.id < |s.shares| && HalfFreed(s, m, v) && Disposable(s, v.id, slots)
    requires t.shares == s.shares[v.id := NO_SHARE] && WellFormed(t.m) && Lost(m, t.m, slots) && Core(t)
    ensures WellFormed(s.m)
    ensures forall i: nat :: Live(t, i) ==>
              && Live(s, i) && i < |t.shares| && i < |s.shares|
              && AreFrames(s.m, s.shares[i].tables) && AreFrames(t.m, t.shares[i].tables)
              && StorePages(t.m, t.shares[i]) == StorePages(s.m, s.shares[i])
  {
    NoShareIsEmpty();
    hide *;
    PartsOf(s);
    forall i: nat | Live(t, i)
      ensures Live(s, i) && i < |t.shares| && i < |s.shares|
      ensures AreFrames(s.m, s.shares[i].tables) && AreFrames(t.m, t.shares[i].tables)
      ensures WellFormed(s.m) && StorePages(t.m, t.shares[i]) == StorePages(s.m, s.shares[i])
    {
      LiveIs(t, i);
      LiveIs(s, i);
      LiveFacts(s, i);
      LastFreeObject(s, m, t.m, v, slots, i);
      StoreStays(s.m, t.m, s.shares[i]);
      StoreOkFrames(t.m, s.shares[i]);
    }
  }

  lemma NoShareIsEmpty()
    ensures NO_SHARE.empty
  {
  }
}
