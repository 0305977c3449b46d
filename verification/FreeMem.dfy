/**
 freeMem of kern/memory_manager.c as it runs: three loops over the page file,
 the working-set array and the page tables.
 */
module FreeMem {
  import opened Frames
  import opened FrameTable
  import opened SharesMemory
  import Spec = FreeMemSpec

  lemma SlotOfEntry(d: nat, k: nat)
    requires k < TABLE_ENTRIES
    ensures Directory(d * TABLE_ENTRIES + k) == d
  {
  }

  lemma EntryOfSlot(p: nat)
    ensures p == Directory(p) * TABLE_ENTRIES + p % TABLE_ENTRIES && p % TABLE_ENTRIES < TABLE_ENTRIES
  {
  }

  /** Scanning the 1024 entries of a table decides whether it is empty. */
  lemma ScanDecides(m: Memory, space: nat, d: nat, k: nat)
    requires k <= TABLE_ENTRIES && Free(m, space, d, k)
    requires k < TABLE_ENTRIES ==> !Empty(m, Slot(space, d * TABLE_ENTRIES + k))
    ensures Spec.TableEmpty(m, space, d) <==> k == TABLE_ENTRIES
  {
    if k < TABLE_ENTRIES {
      SlotOfEntry(d, k);
    } else {
      forall t: Slot | t.space == space && Directory(t.page) == d
        ensures Empty(m, t)
      {
        EntryOfSlot(t.page);
        assert Unused(m, space, d, t.page % TABLE_ENTRIES);
      }
    }
  }

  ghost predicate Unused(m: Memory, space: nat, d: nat, k: nat) {
    Empty(m, Slot(space, d * TABLE_ENTRIES + k))
  }

  /** The first k entries of table d are zero. */
  ghost predicate Free(m: Memory, space: nat, d: nat, k: nat) {
    forall i: nat :: i < k ==> Unused(m, space, d, i)
  }

  /** The scan of one page table for an entry in use. */
  method IsEmpty(frames: FrameTable, space: nat, d: nat) returns (found: bool)
    ensures found == Spec.TableEmpty(frames.View(), space, d)
  {
    found := true;
    var k := 0;
    ghost var m := frames.View();
    while k < TABLE_ENTRIES
      invariant k <= TABLE_ENTRIES && found && Free(m, space, d, k)
    {
      if Slot(space, d * TABLE_ENTRIES + k) in frames.ptes || Slot(space, d * TABLE_ENTRIES + k) in frames.boot {
        found := false;
        break;
      }
      assert Unused(m, space, d, k);
      k := k + 1;
    }
    ScanDecides(m, space, d, k);
  }

  /** The loop of freeMem and freeSharedObject over the tables of a range: those without an entry in use go. */
  method DropUnused(frames: FrameTable, space: nat, tables: map<nat, nat>, lo: nat, n: nat) returns (left: map<nat, nat>)
    requires frames.refs != frames.va && WellFormed(frames.View())
    modifies frames.Repr()
    ensures old(WellFormed(frames.View()))
    ensures (frames.View(), left) == Spec.DropEmptyTables(old(frames.View()), space, tables, lo, n)
  {
    ghost var m := frames.View();
    left := tables;
    hide UnmapFrame, WellFormed, Spec.TableEmpty;
    for i := 0 to n
      invariant frames.refs != frames.va && WellFormed(frames.View())
      invariant (frames.View(), left) == Spec.DropEmptyTables(m, space, tables, lo, i)
    {
      var d := Directory(lo + i);
      if d in left {
        var found := IsEmpty(frames, space, d);
        if found {
          frames.Unmap(KernelPage(left[d]));
          left := left - {d};
        }
      }
    }
  }

  class Environment {
    const frames: FrameTable
    const space: nat
    var tables: map<nat, nat>       // env_page_directory: kernel page of each table
    var ws: seq<Spec.Entry>         // ptr_pageWorkingSet
    var last: nat                   // page_last_WS_index
    var pageFile: set<nat>

    ghost function View(): Spec.Env
      reads this, frames, frames.refs, frames.va
    {
      Spec.Env(frames.View(), space, tables, ws, last, pageFile)
    }

    constructor (frames: FrameTable, space: nat, workingSet: nat)
      ensures this.frames == frames && this.space == space && tables == map[] && pageFile == {}
      ensures ws == seq(workingSet, _ => Spec.Entry(0, true, 0)) && last == 0
    {
      this.frames, this.space, tables, last, pageFile := frames, space, map[], 0, {};
      ws := seq(workingSet, _ => Spec.Entry(0, true, 0));
    }

    /** Pass 1: the range leaves the page file. */
    method EraseFile(lo: nat, n: nat)
      modifies `pageFile
      ensures pageFile == Spec.EraseFile(old(pageFile), lo, n)
    {
      for i := 0 to n
        invariant pageFile == Spec.EraseFile(old(pageFile), lo, i)
      {
        pageFile := pageFile - {lo + i};
      }
    }

    /** Pass 2: the listed pages of the range leave memory. */
    method DropListed(lo: nat, n: nat)
      requires frames.refs != frames.va && WellFormed(frames.View())
      modifies `ws, `last, frames.Repr()
      ensures old(WellFormed(frames.View())) && WellFormed(frames.View())
      ensures frames.View() == Spec.DropListed(old(frames.View()), space, old(ws), lo, n, |old(ws)|)
      ensures ws == Spec.Cleared(old(ws), lo, n, |old(ws)|) && last == Spec.LastAfter(old(ws), old(last), lo, n, |old(ws)|)
    {
      ghost var m, was := frames.View(), ws;
      hide UnmapFrame, WellFormed;
      for j := 0 to |ws|
        invariant frames.refs != frames.va && WellFormed(frames.View()) && |ws| == |was|
        invariant frames.View() == Spec.DropListed(m, space, was, lo, n, j)
        invariant ws == Spec.Cleared(was, lo, n, j) && last == Spec.LastAfter(was, old(last), lo, n, j)
      {
        assert ws[j] == was[j];
        if lo <= ws[j].page < lo + n {
          frames.Unmap(Slot(space, ws[j].page));
          ws := ws[j := Spec.Entry(0, true, 0)];
          if j < last {
            last := j;
          }
        }
      }
    }

    /** Pass 3: tables of the range without an entry in use are freed. */
    method DropEmptyTables(lo: nat, n: nat)
      requires frames.refs != frames.va && WellFormed(frames.View())
      modifies `tables, frames.Repr()
      ensures old(WellFormed(frames.View()))
      ensures (frames.View(), tables) == Spec.DropEmptyTables(old(frames.View()), space, old(tables), lo, n)
    {
      tables := DropUnused(frames, space, tables, lo, n);
    }

    /** freeMem on n whole pages from page lo on. */
    method FreeMem(lo: nat, n: nat)
      requires frames.refs != frames.va && WellFormed(frames.View())
      modifies this, frames.Repr()
      ensures old(WellFormed(frames.View()))
      ensures View() == Spec.FreeMem(old(View()), lo, n)
    {
      hide Spec.EraseFile, Spec.DropListed, Spec.DropEmptyTables, Spec.Cleared, Spec.LastAfter, WellFormed;
      EraseFile(lo, n);
      DropListed(lo, n);
      DropEmptyTables(lo, n);
    }
  }
}
