/** What freeMem does, exactly, and when it erases its whole range. */
module FreeMemTheorems {
  import opened Frames
  import opened SharesMemory
  import opened FreeMemSpec
  import K = KernelHeapSpec

  lemma {:induction false} EraseFileIs(pageFile: set<nat>, lo: nat, k: nat)
    ensures forall p: nat :: p in EraseFile(pageFile, lo, k) <==> p in pageFile && !InPages(p, lo, k)
  {
    if k > 0 {
      EraseFileIs(pageFile, lo, k - 1);
    }
  }

  lemma ListedNext(ws: seq<Entry>, j: nat, p: nat)
    requires j < |ws|
    ensures Listed(ws, j + 1, p) <==> Listed(ws, j, p) || ws[j].page == p
  {
  }

  /** The second pass unmaps the listed pages of the range and nothing else. */
  lemma {:induction false} DropListedIs(e: Env, lo: nat, n: nat, j: nat)
    requires Exact(e.m, {}) && WellFormed(e.m) && j <= |e.ws| && e.space != K.KERNEL
    ensures var r := DropListed(e.m, e.space, e.ws, lo, n, j);
      && Exact(r, {}) && r.boot == e.m.boot
      && (forall t: Slot :: t in r.ptes <==> t in e.m.ptes && !Gone(e, lo, n, j, t))
      && (forall t: Slot :: t in r.ptes && t in e.m.ptes ==> r.ptes[t] == e.m.ptes[t])
  {
    if j > 0 {
      var k := j - 1;
      DropListedIs(e, lo, n, k);
      var t := DropListed(e.m, e.space, e.ws, lo, n, k);
      var p := e.ws[k].page;
      NotFromBoot(t, Slot(e.space, p));
      hide Exact, WellFormed, Listed, InPages;
      UnmapKeeps(t, {}, Slot(e.space, p));
      forall u: Slot
        ensures Gone(e, lo, n, j, u) <==> Gone(e, lo, n, k, u) || (u == Slot(e.space, p) && InPages(p, lo, n))
      {
        ListedNext(e.ws, k, u.page);
      }
      UnmapKeys(t, Slot(e.space, p));
      hide UnmapFrame, Gone;
    }
  }

  /** Booting filled shared slots only. */
  lemma NotFromBoot(m: Memory, s: Slot)
    requires Exact(m, {}) && s.space != K.KERNEL
    ensures s !in m.boot
  {
  }

  lemma UnmapKeys(m: Memory, s: Slot)
    requires WellFormed(m)
    ensures var r := UnmapFrame(m, s);
      && (forall t: Slot :: t in r.ptes <==> t in m.ptes && t != s)
      && (forall t: Slot :: t in r.ptes && t in m.ptes ==> r.ptes[t] == m.ptes[t])
  {
  }

  // ----- the third pass -----

  /** Directory index d covers one of the first k pages of the range. */
  ghost predicate Touches(d: nat, lo: nat, k: nat) {
    exists p: nat :: lo <= p < lo + k && Directory(p) == d
  }

  ghost predicate Removable(m: Memory, space: nat, tables: map<nat, nat>, lo: nat, k: nat, d: nat) {
    d in tables && Touches(d, lo, k) && TableEmpty(m, space, d)
  }

  ghost predicate TablesOk(m: Memory, tables: map<nat, nat>)
    requires WellFormed(m)
  {
    && (forall d: nat :: d in tables ==>
          KernelPage(tables[d]) in m.ptes && m.refs[m.ptes[KernelPage(tables[d])].frame] == 1)
    && (forall d: nat, c: nat :: d in tables && c in tables && d != c ==> tables[d] != tables[c])
  }

  /** The tables left after k pages of the third pass. */
  ghost predicate Left(m: Memory, space: nat, tables: map<nat, nat>, left: map<nat, nat>, lo: nat, k: nat) {
    && (forall d: nat :: d in left <==> d in tables && !Removable(m, space, tables, lo, k, d))
    && (forall d: nat :: d in left && d in tables ==> left[d] == tables[d])
  }

  /** Memory after the pages of the removed tables went. */
  ghost predicate Pruned(m: Memory, r: Memory, tables: map<nat, nat>, left: map<nat, nat>)
    requires WellFormed(m) && WellFormed(r)
  {
    && Exact(r, {}) && Lost(m, r, TablePages(tables, left))
    && |TablePages(tables, left)| + |left| == |tables|
  }

  lemma TouchesNext(d: nat, lo: nat, k: nat)
    ensures Touches(d, lo, k + 1) <==> Touches(d, lo, k) || d == Directory(lo + k)
  {
  }

  lemma PrunedNone(m: Memory, space: nat, tables: map<nat, nat>, lo: nat)
    requires WellFormed(m) && Exact(m, {})
    ensures Pruned(m, m, tables, tables) && Left(m, space, tables, tables, lo, 0)
    ensures DropEmptyTables(m, space, tables, lo, 0) == (m, tables)
  {
    LostNone(m);
    assert TablePages(tables, tables) == {};
  }

  lemma SameEmptiness(m: Memory, r: Memory, space: nat, tables: map<nat, nat>, left: map<nat, nat>, d: nat)
    requires WellFormed(m) && WellFormed(r) && Pruned(m, r, tables, left) && space != K.KERNEL
    ensures TableEmpty(r, space, d) <==> TableEmpty(m, space, d)
  {
    hide Exact;
  }

  lemma LeftNext(m: Memory, space: nat, tables: map<nat, nat>, ts: map<nat, nat>, lo: nat, k: nat)
    requires Left(m, space, tables, ts, lo, k)
    ensures var d := Directory(lo + k);
      Left(m, space, tables, if d in ts && TableEmpty(m, space, d) then ts - {d} else ts, lo, k + 1)
  {
    forall c: nat
      ensures Touches(c, lo, k + 1) <==> Touches(c, lo, k) || c == Directory(lo + k)
    {
      TouchesNext(c, lo, k);
    }
    hide TableEmpty, Touches, Directory;
  }

  lemma LeftIn(m: Memory, space: nat, tables: map<nat, nat>, ts: map<nat, nat>, lo: nat, k: nat, d: nat)
    requires Left(m, space, tables, ts, lo, k) && d in ts
    ensures d in tables && ts[d] == tables[d] && forall c: nat :: c in ts ==> c in tables
  {
  }

  /** The third pass removes the tables that touch the range and have no entry left. */
  lemma {:induction false} DropEmptyTablesIs(m: Memory, space: nat, tables: map<nat, nat>, lo: nat, k: nat)
    requires WellFormed(m) && Exact(m, {}) && TablesOk(m, tables) && space != K.KERNEL
    ensures var (r, left) := DropEmptyTables(m, space, tables, lo, k);
      Pruned(m, r, tables, left) && Left(m, space, tables, left, lo, k)
  {
    hide *;
    if k == 0 {
      PrunedNone(m, space, tables, lo);
    } else {
      DropEmptyTablesIs(m, space, tables, lo, k - 1);
      var (t, ts) := DropEmptyTables(m, space, tables, lo, k - 1);
      var d := Directory(lo + (k - 1));
      DropEmptyNext(m, space, tables, lo, k - 1);
      LeftNext(m, space, tables, ts, lo, k - 1);
      SameEmptiness(m, t, space, tables, ts, d);
      if d in ts && TableEmpty(t, space, d) {
        LeftIn(m, space, tables, ts, lo, k - 1, d);
        PruneOne(m, t, tables, ts, d);
      }
    }
  }

  lemma DropEmptyNext(m: Memory, space: nat, tables: map<nat, nat>, lo: nat, k: nat)
    requires WellFormed(m)
    ensures var (t, ts) := DropEmptyTables(m, space, tables, lo, k);
      var d := Directory(lo + k);
      DropEmptyTables(m, space, tables, lo, k + 1) ==
        if d in ts && TableEmpty(t, space, d) then (UnmapFrame(t, KernelPage(ts[d])), ts - {d}) else (t, ts)
  {
  }

  lemma RemovedNext(m: Memory, tables: map<nat, nat>, ts: map<nat, nat>, d: nat)
    requires WellFormed(m) && TablesOk(m, tables) && d in ts && d in tables && ts[d] == tables[d]
    ensures KernelPage(ts[d]) !in TablePages(tables, ts) && |ts - {d}| == |ts| - 1
    ensures TablePages(tables, ts - {d}) == TablePages(tables, ts) + {KernelPage(ts[d])}
  {
    assert ts.Keys == (ts - {d}).Keys + {d};
    assert |ts| == |ts.Keys| && |ts - {d}| == |(ts - {d}).Keys|;
  }

  lemma PruneOne(m: Memory, t: Memory, tables: map<nat, nat>, ts: map<nat, nat>, d: nat)
    requires WellFormed(m) && WellFormed(t) && TablesOk(m, tables) && d in ts && d in tables && ts[d] == tables[d]
    requires Pruned(m, t, tables, ts)
    ensures Pruned(m, UnmapFrame(t, KernelPage(ts[d])), tables, ts - {d})
  {
    var s := KernelPage(ts[d]);
    var gone := TablePages(tables, ts);
    assert s in m.ptes && m.refs[m.ptes[s].frame] == 1;
    assert Exact(t, {}) && Lost(m, t, gone) && |gone| + |ts| == |tables|;
    RemovedNext(m, tables, ts, d);
    {
      hide *;
      LostOwn(m, t, gone, s);
      LoseOne(t, s);
      LoseMore(m, t, UnmapFrame(t, s), gone, {s});
    }
  }

  lemma LostOwn(m: Memory, t: Memory, gone: set<Slot>, s: Slot)
    requires WellFormed(m) && WellFormed(t) && Lost(m, t, gone) && s in m.ptes && s !in gone && m.refs[m.ptes[s].frame] == 1
    ensures s in t.ptes && t.ptes[s].frame < |t.refs| && t.refs[t.ptes[s].frame] == 1
  {
  }

  // ----- the whole call -----

  /** With fewer slots no frame counts for more. */
  lemma FewerSlots(m: Memory, r: Memory, f: nat)
    requires Exact(m, {}) && Exact(r, {}) && Allocatable(m, f) && Allocatable(r, f)
    requires forall t: Slot :: t in r.ptes ==> t in m.ptes && r.ptes[t] == m.ptes[t]
    ensures r.refs[f] <= m.refs[f]
  {
    SubsetCount(Mapping(r, f), Mapping(m, f));
  }

  lemma SubsetCount(a: set<Slot>, b: set<Slot>)
    requires a <= b
    ensures |a| <= |b|
  {
    assert b == a + (b - a);
  }

  ghost predicate SamePart(m: Memory, r: Memory) {
    |r.refs| == |m.refs| && r.reserved == m.reserved && r.boot == m.boot
    && forall t: Slot :: t in r.ptes ==> t in m.ptes && r.ptes[t] == m.ptes[t]
  }

  lemma {:induction false} DropListedPart(e: Env, lo: nat, n: nat, j: nat)
    requires Exact(e.m, {}) && WellFormed(e.m) && j <= |e.ws| && e.space != K.KERNEL
    ensures SamePart(e.m, DropListed(e.m, e.space, e.ws, lo, n, j))
  {
    if j > 0 {
      DropListedPart(e, lo, n, j - 1);
      NotFromBoot(e.m, Slot(e.space, e.ws[j - 1].page));
      hide InPages, Exact;
    }
  }

  /** The second pass leaves the tables' own pages alone. */
  lemma TablesSurvive(e: Env, r: Memory, lo: nat, n: nat, j: nat)
    requires EnvOk(e) && WellFormed(r) && Exact(r, {}) && SamePart(e.m, r) && j <= |e.ws|
    requires forall t: Slot :: t in r.ptes <==> t in e.m.ptes && !Gone(e, lo, n, j, t)
    ensures TablesOk(r, e.tables)
  {
    forall d: nat | d in e.tables
      ensures KernelPage(e.tables[d]) in r.ptes && r.refs[r.ptes[KernelPage(e.tables[d])].frame] == 1
    {
      var s := KernelPage(e.tables[d]);
      assert s in r.ptes && r.ptes[s] == e.m.ptes[s];
      var f := e.m.ptes[s].frame;
      assert Allocatable(e.m, f) && Allocatable(r, f);
      FewerSlots(e.m, r, f);
      assert s in Mapping(r, f);
    }
  }

  /** No page of table d is left. */
  ghost predicate Emptied(e: Env, lo: nat, n: nat, d: nat) {
    forall t: Slot :: t.space == e.space && Directory(t.page) == d && t in e.m.ptes ==> Gone(e, lo, n, |e.ws|, t)
  }

  /** The outcome of freeMem, field by field. */
  ghost predicate Freed(e: Env, r: Env, lo: nat, n: nat) {
    && r.space == e.space && EnvOk(r)
    && (forall p: nat :: p in r.pageFile <==> p in e.pageFile && !InPages(p, lo, n))
    && r.ws == Cleared(e.ws, lo, n, |e.ws|)
    && (forall d: nat :: d in r.tables <==> d in e.tables && !(Touches(d, lo, n) && Emptied(e, lo, n, d)))
    && (forall d: nat :: d in r.tables && d in e.tables ==> r.tables[d] == e.tables[d])
    && (forall t: Slot :: t in r.m.ptes <==>
          t in e.m.ptes && !Gone(e, lo, n, |e.ws|, t) && t !in TablePages(e.tables, r.tables))
    && (forall t: Slot :: t in r.m.ptes && t in e.m.ptes ==> r.m.ptes[t] == e.m.ptes[t])
  }

  /** freeMem erases its range from the page file, the working set and memory, and drops the tables it emptied. */
  lemma FreeMemIs(e: Env, lo: nat, n: nat)
    requires EnvOk(e)
    ensures Freed(e, FreeMem(e, lo, n), lo, n)
  {
    var m := DropListed(e.m, e.space, e.ws, lo, n, |e.ws|);
    var r := FreeMem(e, lo, n);
    hide *;
    EnvFacts(e);
    FreeMemParts(e, lo, n);
    DropListedIs(e, lo, n, |e.ws|);
    DropListedPart(e, lo, n, |e.ws|);
    TablesSurvive(e, m, lo, n, |e.ws|);
    DropEmptyTablesIs(m, e.space, e.tables, lo, n);
    EraseFileIs(e.pageFile, lo, n);
    FreedEnv(e, m, r, lo, n);
    FreedTables(e, m, r, lo, n);
    FreedSlots(e, m, r, lo, n);
    FreedAll(e, r, lo, n);
  }

  lemma FreedAll(e: Env, r: Env, lo: nat, n: nat)
    requires r.space == e.space && EnvOk(r) && r.ws == Cleared(e.ws, lo, n, |e.ws|)
    requires forall p: nat :: p in r.pageFile <==> p in e.pageFile && !InPages(p, lo, n)
    requires forall d: nat :: d in r.tables <==> d in e.tables && !(Touches(d, lo, n) && Emptied(e, lo, n, d))
    requires forall d: nat :: d in r.tables && d in e.tables ==> r.tables[d] == e.tables[d]
    requires forall t: Slot :: t in r.m.ptes <==>
               t in e.m.ptes && !Gone(e, lo, n, |e.ws|, t) && t !in TablePages(e.tables, r.tables)
    requires forall t: Slot :: t in r.m.ptes && t in e.m.ptes ==> r.m.ptes[t] == e.m.ptes[t]
    ensures Freed(e, r, lo, n)
  {
    hide EnvOk, InPages, Touches, Emptied, Gone, TablePages, Cleared;
  }

  lemma EnvFacts(e: Env)
    requires EnvOk(e)
    ensures Exact(e.m, {}) && WellFormed(e.m) && e.space != K.KERNEL
  {
  }

  lemma FreeMemParts(e: Env, lo: nat, n: nat)
    requires WellFormed(e.m)
    ensures var m := DropListed(e.m, e.space, e.ws, lo, n, |e.ws|);
      var r := FreeMem(e, lo, n);
      && (r.m, r.tables) == DropEmptyTables(m, e.space, e.tables, lo, n) && r.space == e.space
      && r.ws == Cleared(e.ws, lo, n, |e.ws|) && r.pageFile == EraseFile(e.pageFile, lo, n)
      && r.last == LastAfter(e.ws, e.last, lo, n, |e.ws|)
  {
  }

  lemma FreedTables(e: Env, m: Memory, r: Env, lo: nat, n: nat)
    requires Left(m, e.space, e.tables, r.tables, lo, n) && Exact(e.m, {}) && e.space != K.KERNEL && m.boot == e.m.boot
    requires forall t: Slot :: t in m.ptes <==> t in e.m.ptes && !Gone(e, lo, n, |e.ws|, t)
    ensures forall d: nat :: d in r.tables <==> d in e.tables && !(Touches(d, lo, n) && Emptied(e, lo, n, d))
    ensures forall d: nat :: d in r.tables && d in e.tables ==> r.tables[d] == e.tables[d]
  {
    forall d: nat
      ensures TableEmpty(m, e.space, d) <==> Emptied(e, lo, n, d)
    {
    }
    hide TableEmpty, Emptied, Touches, Gone;
  }

  lemma FreedSlots(e: Env, m: Memory, r: Env, lo: nat, n: nat)
    requires WellFormed(m) && WellFormed(r.m) && Pruned(m, r.m, e.tables, r.tables) && SamePart(e.m, m)
    requires forall t: Slot :: t in m.ptes <==> t in e.m.ptes && !Gone(e, lo, n, |e.ws|, t)
    ensures forall t: Slot :: t in r.m.ptes <==>
              t in e.m.ptes && !Gone(e, lo, n, |e.ws|, t) && t !in TablePages(e.tables, r.tables)
    ensures forall t: Slot :: t in r.m.ptes && t in e.m.ptes ==> r.m.ptes[t] == e.m.ptes[t]
  {
    hide Exact, WellFormed, TablePages, Gone;
  }

  lemma FreedEnv(e: Env, m: Memory, r: Env, lo: nat, n: nat)
    requires EnvOk(e) && WellFormed(m) && WellFormed(r.m) && r.space == e.space && TablesOk(m, e.tables) && SamePart(e.m, m)
    requires Pruned(m, r.m, e.tables, r.tables) && Left(m, e.space, e.tables, r.tables, lo, n)
    ensures EnvOk(r)
  {
    forall t: Slot | t in r.m.ptes && t.space == e.space
      ensures Directory(t.page) in r.tables
    {
      PageHasTable(e, m, r, lo, n, t);
    }
    forall d: nat | d in r.tables
      ensures KernelPage(r.tables[d]) in r.m.ptes && r.m.ptes[KernelPage(r.tables[d])].frame < |r.m.refs|
      ensures r.m.refs[r.m.ptes[KernelPage(r.tables[d])].frame] == 1
      ensures d in e.tables && r.tables[d] == e.tables[d]
    {
      TableHasPage(e, m, r, lo, n, d);
    }
  }

  lemma PageHasTable(e: Env, m: Memory, r: Env, lo: nat, n: nat, t: Slot)
    requires EnvOk(e) && WellFormed(m) && WellFormed(r.m) && SamePart(e.m, m)
    requires Pruned(m, r.m, e.tables, r.tables) && Left(m, e.space, e.tables, r.tables, lo, n)
    requires t in r.m.ptes && t.space == e.space
    ensures Directory(t.page) in r.tables
  {
    assert t in m.ptes;
    assert t in e.m.ptes;
    assert !TableEmpty(m, e.space, Directory(t.page));
    hide Exact, Lost, WellFormed, Directory, TableEmpty, Touches;
  }

  lemma TableHasPage(e: Env, m: Memory, r: Env, lo: nat, n: nat, d: nat)
    requires WellFormed(m) && WellFormed(r.m) && TablesOk(m, e.tables) && d in r.tables
    requires Pruned(m, r.m, e.tables, r.tables) && Left(m, e.space, e.tables, r.tables, lo, n)
    ensures KernelPage(r.tables[d]) in r.m.ptes && r.m.ptes[KernelPage(r.tables[d])].frame < |r.m.refs|
    ensures r.m.refs[r.m.ptes[KernelPage(r.tables[d])].frame] == 1
    ensures d in e.tables && r.tables[d] == e.tables[d]
  {
    LeftIn(m, e.space, e.tables, r.tables, lo, n, d);
    KeptTable(m, e.tables, r.tables, d);
    assert KernelPage(e.tables[d]) in m.ptes && m.refs[m.ptes[KernelPage(e.tables[d])].frame] == 1;
    assert Lost(m, r.m, TablePages(e.tables, r.tables));
    hide *;
    LostOwn(m, r.m, TablePages(e.tables, r.tables), KernelPage(e.tables[d]));
  }

  lemma KeptTable(m: Memory, tables: map<nat, nat>, left: map<nat, nat>, d: nat)
    requires WellFormed(m) && TablesOk(m, tables) && d in tables && d in left
    ensures KernelPage(tables[d]) !in TablePages(tables, left)
  {
  }

  // ----- when the whole range is erased -----

  /** No page of the range is mapped afterwards exactly when every mapped page of the range was in the working set. */
  lemma ErasesMemoryIff(e: Env, lo: nat, n: nat)
    requires EnvOk(e)
    ensures (forall p: nat :: InPages(p, lo, n) ==> Slot(e.space, p) !in FreeMem(e, lo, n).m.ptes) <==>
            (forall p: nat :: InPages(p, lo, n) && Slot(e.space, p) in e.m.ptes ==> Listed(e.ws, |e.ws|, p))
  {
    var r := FreeMem(e, lo, n);
    FreeMemIs(e, lo, n);
    forall p: nat | InPages(p, lo, n)
      ensures Slot(e.space, p) in r.m.ptes <==> Slot(e.space, p) in e.m.ptes && !Listed(e.ws, |e.ws|, p)
    {
      UserSlotStays(e, r, Slot(e.space, p));
      assert Gone(e, lo, n, |e.ws|, Slot(e.space, p)) <==> Listed(e.ws, |e.ws|, p);
    }
    hide FreeMem, Freed, EnvOk, Listed, InPages;
  }

  /** A page of the range that the working set does not list stays mapped. */
  lemma UnlistedSurvives(e: Env, lo: nat, n: nat, p: nat)
    requires EnvOk(e) && Slot(e.space, p) in e.m.ptes && !Listed(e.ws, |e.ws|, p)
    ensures Slot(e.space, p) in FreeMem(e, lo, n).m.ptes
  {
    FreeMemIs(e, lo, n);
    UserSlotStays(e, FreeMem(e, lo, n), Slot(e.space, p));
    hide FreeMem, EnvOk, Listed, InPages;
  }

  lemma UserSlotStays(e: Env, r: Env, t: Slot)
    requires EnvOk(e) && t.space == e.space
    ensures t !in TablePages(e.tables, r.tables)
  {
    hide Exact, WellFormed;
  }

  /** A range above page 0 is gone from the working set, and what is outside it stands. */
  lemma ErasesWorkingSet(e: Env, lo: nat, n: nat, i: nat)
    requires EnvOk(e) && i < |e.ws| && 0 < lo
    ensures |FreeMem(e, lo, n).ws| == |e.ws| && !InPages(FreeMem(e, lo, n).ws[i].page, lo, n)
    ensures !InPages(e.ws[i].page, lo, n) ==> FreeMem(e, lo, n).ws[i] == e.ws[i]
    ensures InPages(e.ws[i].page, lo, n) ==>
              var c := FreeMem(e, lo, n).ws[i]; c.page == 0 && c.empty && c.stamp == 0
  {
    FreeMemParts(e, lo, n);
    hide FreeMem, EnvOk;
  }

  /** The replacement index ends at the first cleared element, if that is below it. */
  lemma {:induction false} LastAfterIs(ws: seq<Entry>, last: nat, lo: nat, n: nat, j: nat)
    requires j <= |ws|
    ensures var l := LastAfter(ws, last, lo, n, j);
      && l <= last && (forall i: nat :: i < j && InPages(ws[i].page, lo, n) ==> l <= i)
      && (l == last || (l < j && InPages(ws[l].page, lo, n)))
  {
    if j > 0 {
      LastAfterIs(ws, last, lo, n, j - 1);
    }
  }

  /** Pages outside the range, and other spaces' pages, are mapped as before. */
  lemma OutsideUnchanged(e: Env, lo: nat, n: nat, t: Slot)
    requires EnvOk(e) && (if t.space == e.space then !InPages(t.page, lo, n) else t.space != K.KERNEL)
    ensures var r := FreeMem(e, lo, n);
      (t in r.m.ptes <==> t in e.m.ptes) && (t in r.m.ptes && t in e.m.ptes ==> r.m.ptes[t] == e.m.ptes[t])
  {
    FreeMemIs(e, lo, n);
    hide FreeMem, EnvOk, Listed;
  }

  // ----- how many frames come back -----

  /** The slots the first j elements of the working set unmap. */
  ghost function DroppedSlots(e: Env, lo: nat, n: nat, j: nat): set<Slot>
    requires j <= |e.ws|
  {
    set t | t in e.m.ptes && Gone(e, lo, n, j, t)
  }

  /** No frame of a page to be dropped is mapped anywhere else. */
  ghost predicate SinglyMapped(e: Env, lo: nat, n: nat)
    requires WellFormed(e.m)
  {
    forall t: Slot :: t in e.m.ptes && Gone(e, lo, n, |e.ws|, t) ==> e.m.refs[e.m.ptes[t].frame] == 1
  }

  lemma {:induction false} DropListedLoses(e: Env, lo: nat, n: nat, j: nat)
    requires EnvOk(e) && j <= |e.ws| && SinglyMapped(e, lo, n)
    ensures var r := DropListed(e.m, e.space, e.ws, lo, n, j);
      Exact(r, {}) && Lost(e.m, r, DroppedSlots(e, lo, n, j))
  {
    hide *;
    EnvFacts(e);
    if j == 0 {
      LostNone(e.m);
      DroppedNone(e, lo, n);
    } else {
      DropListedLoses(e, lo, n, j - 1);
      DroppedNext(e, lo, n, j - 1);
      var t := DropListed(e.m, e.space, e.ws, lo, n, j - 1);
      var s := Slot(e.space, e.ws[j - 1].page);
      var gone := DroppedSlots(e, lo, n, j - 1);
      if InPages(e.ws[j - 1].page, lo, n) && s in t.ptes {
        StillThere(e.m, t, gone, s);
        SingleSlot(e, lo, n, j - 1);
        LostOwn(e.m, t, gone, s);
        LoseOne(t, s);
        LoseMore(e.m, t, UnmapFrame(t, s), gone, {s});
      } else if InPages(e.ws[j - 1].page, lo, n) {
        NotFromBoot(t, s);
        NotThere(e.m, t, gone, s);
      } else {
        assert gone + {} == gone;
      }
    }
  }

  lemma DroppedNone(e: Env, lo: nat, n: nat)
    requires WellFormed(e.m)
    ensures DroppedSlots(e, lo, n, 0) == {} && DropListed(e.m, e.space, e.ws, lo, n, 0) == e.m
  {
  }

  lemma DroppedNext(e: Env, lo: nat, n: nat, k: nat)
    requires WellFormed(e.m) && k < |e.ws|
    ensures var s := Slot(e.space, e.ws[k].page);
      var t := DropListed(e.m, e.space, e.ws, lo, n, k);
      && DropListed(e.m, e.space, e.ws, lo, n, k + 1) == (if InPages(e.ws[k].page, lo, n) then UnmapFrame(t, s) else t)
      && DroppedSlots(e, lo, n, k + 1) ==
         DroppedSlots(e, lo, n, k) + if InPages(e.ws[k].page, lo, n) && s in e.m.ptes then {s} else {}
  {
    forall p: nat
      ensures Listed(e.ws, k + 1, p) <==> Listed(e.ws, k, p) || e.ws[k].page == p
    {
      ListedNext(e.ws, k, p);
    }
    hide Listed, InPages, UnmapFrame;
  }

  lemma SingleSlot(e: Env, lo: nat, n: nat, k: nat)
    requires WellFormed(e.m) && SinglyMapped(e, lo, n) && k < |e.ws|
    requires var s := Slot(e.space, e.ws[k].page); InPages(s.page, lo, n) && s in e.m.ptes
    ensures var s := Slot(e.space, e.ws[k].page); e.m.refs[e.m.ptes[s].frame] == 1
  {
    var s := Slot(e.space, e.ws[k].page);
    assert Listed(e.ws, |e.ws|, s.page);
    assert Gone(e, lo, n, |e.ws|, s);
  }

  lemma StillThere(m: Memory, t: Memory, gone: set<Slot>, s: Slot)
    requires WellFormed(m) && WellFormed(t) && Lost(m, t, gone) && s in t.ptes
    ensures s in m.ptes && s !in gone && t.ptes[s] == m.ptes[s]
  {
  }

  lemma NotThere(m: Memory, t: Memory, gone: set<Slot>, s: Slot)
    requires WellFormed(m) && WellFormed(t) && Lost(m, t, gone) && s !in t.ptes && s !in t.boot
    ensures UnmapFrame(t, s) == t && if s in m.ptes then gone + {s} == gone else gone + {} == gone
  {
  }

  /** Singly mapped pages: one frame comes back per resident page and one per page table removed. */
  lemma FramesReturned(e: Env, lo: nat, n: nat)
    requires EnvOk(e) && SinglyMapped(e, lo, n)
    ensures var r := FreeMem(e, lo, n);
      |r.m.free| == |e.m.free| + |DroppedSlots(e, lo, n, |e.ws|)| + |e.tables| - |r.tables|
  {
    var m := DropListed(e.m, e.space, e.ws, lo, n, |e.ws|);
    {
      hide *;
      EnvFacts(e);
      FreeMemParts(e, lo, n);
      DropListedIs(e, lo, n, |e.ws|);
      DropListedPart(e, lo, n, |e.ws|);
      TablesSurvive(e, m, lo, n, |e.ws|);
      DropEmptyTablesIs(m, e.space, e.tables, lo, n);
      DropListedLoses(e, lo, n, |e.ws|);
    }
  }
}
