/**
 kern/file_manager.c as it runs: the free list, the directories and the disk
 changed in place.  Each call is proved to perform its step of PageFileSpec.
 */
module PageFile {
  import opened PageFileSpec
  import T = PageFileTheorems

  lemma PageIndex(i: nat, j: nat)
    requires j < ENTRIES
    ensures (i * ENTRIES + j) / ENTRIES == i && (i * ENTRIES + j) % ENTRIES == j
  {
  }

  /** Pages without a page table are skipped by removal and by counting alike. */
  lemma {:induction false} SkipTable(d: Disk, e: nat, i: nat, j: nat)
    requires Shaped(d) && j <= ENTRIES && !(e in d.pageDirs && i in d.pageDirs[e])
    ensures CountPages(d, e, i * ENTRIES + j) == CountPages(d, e, i * ENTRIES)
  {
    if j > 0 {
      SkipTable(d, e, i, j - 1);
      PageIndex(i, j - 1);
    }
  }

  lemma {:induction false} SkipRemoval(d: Disk, r: Disk, e: nat, i: nat, j: nat)
    requires Shaped(d) && j <= ENTRIES && r == RemovePages(d, e, i * ENTRIES) && !(e in r.pageDirs && i in r.pageDirs[e])
    ensures RemovePages(d, e, i * ENTRIES + j) == r
  {
    if j > 0 {
      SkipRemoval(d, r, e, i, j - 1);
      PageIndex(i, j - 1);
      T.RemovePagesNext(d, e, i * ENTRIES + (j - 1));
    }
  }

  lemma StaysShaped(d: Disk, e: nat)
    requires Shaped(d)
    ensures Shaped(d.(pageDirs := d.pageDirs - {e}))
  {
  }

  /** Fault: the environment has no page directory, and the code follows the null pointer. */
  datatype PageCount = Pages(n: nat) | Fault

  class PageFile {
    var free: seq<nat>                              // disk_free_frame_list
    var pageDirs: map<nat, map<nat, seq<nat>>>      // disk_env_pgdir of each environment
    var tableDirs: map<nat, map<nat, nat>>          // disk_env_tabledir
    var data: map<nat, Content>                     // the disk

    ghost function View(): Disk
      reads this
    {
      Disk(free, pageDirs, tableDirs, data)
    }

    /** initialize_disk_page_file */
    constructor ()
      ensures View() == T.Initial() && Inv(View())
    {
      free, pageDirs, tableDirs, data := [], map[], map[], map[];
      new;
      for i := 1 to PAGES_PER_FILE
        invariant |free| == i - 1 && forall k :: 0 <= k < |free| ==> free[k] == i - 1 - k
        invariant pageDirs == map[] && tableDirs == map[] && data == map[]
      {
        free := [i] + free;
      }
      assert free == T.Initial().free;
      T.InitialInv();
    }

    /** allocate_disk_frame; 0 when no frame is free */
    method AllocateDiskFrame() returns (dfn: nat)
      requires forall f :: f in free ==> f != 0
      modifies `free
      ensures if old(free) == [] then dfn == 0 && free == [] else dfn == old(free)[0] && free == old(free)[1..]
      ensures dfn == 0 <==> old(free) == []
    {
      if free == [] {
        return 0;
      }
      dfn := free[0];
      assert dfn in free;
      free := free[1..];
    }

    /** free_disk_frame */
    method FreeDiskFrame(dfn: nat)
      modifies `free
      ensures free == if dfn == 0 then old(free) else [dfn] + old(free)
    {
      if dfn != 0 {
        free := [dfn] + free;
      }
    }

    /** get_disk_page_directory and get_disk_page_table with create set */
    method EnsureTable(e: nat, i: nat)
      requires Shaped(View())
      modifies `pageDirs
      ensures old(Shaped(View())) && View() == WithTable(old(View()), e, i)
    {
      var dir: map<nat, seq<nat>> := if e in pageDirs then pageDirs[e] else map[];
      if i !in dir {
        dir := dir[i := seq(ENTRIES, _ => 0)];
      }
      pageDirs := pageDirs[e := dir];
    }

    method SetEntry(e: nat, page: nat, f: nat)
      requires Shaped(View()) && e in pageDirs && page / ENTRIES in pageDirs[e]
      modifies `pageDirs
      ensures old(Shaped(View())) && View() == SetPage(old(View()), e, page, f)
    {
      var i: nat := page / ENTRIES;
      var table: seq<nat> := pageDirs[e][i][page % ENTRIES := f];
      var dir: map<nat, seq<nat>> := pageDirs[e][i := table];
      pageDirs := pageDirs[e := dir];
    }

    /** The common part of pf_add_env_page and pf_add_empty_env_page: the page's frame, found or allocated; 0 for no space. */
    method ReservePage(e: nat, page: nat) returns (dfn: nat)
      requires Inv(View())
      modifies `free, `pageDirs
      ensures old(Shaped(View())) && Shaped(View()) && View() == Reserve(old(View()), e, page).0
      ensures dfn == 0 <==> Reserve(old(View()), e, page).1 == NoSpace
      ensures dfn != 0 ==> dfn == FrameOf(View(), PageOf(e, page)) && Reserve(old(View()), e, page).1 == Done
    {
      ghost var d := View();
      T.ReserveIs(d, e, page);
      assert forall f :: f in free ==> f != 0;
      hide Inv;
      EnsureTable(e, page / ENTRIES);
      dfn := pageDirs[e][page / ENTRIES][page % ENTRIES];
      if dfn == 0 {
        dfn := AllocateDiskFrame();
        if dfn != 0 {
          SetEntry(e, page, dfn);
        }
      }
    }

    /** pf_add_env_page */
    method AddEnvPage(e: nat, page: nat, c: Content) returns (s: Status)
      requires Inv(View()) && page < KERNEL_BASE_PAGE
      modifies this
      ensures old(Shaped(View())) && (View(), s) == AddPage(old(View()), e, page, c)
    {
      hide Inv, Reserve, FrameOf;
      var dfn := ReservePage(e, page);
      if dfn == 0 {
        return NoSpace;
      }
      data := data[dfn := c];
      s := Done;
    }

    /** pf_add_empty_env_page without initialisation */
    method AddEmptyEnvPage(e: nat, page: nat) returns (s: Status)
      requires Inv(View()) && page < KERNEL_BASE_PAGE
      modifies this
      ensures old(Shaped(View())) && (View(), s) == Reserve(old(View()), e, page)
    {
      hide Inv, Reserve, FrameOf;
      var dfn := ReservePage(e, page);
      s := if dfn == 0 then NoSpace else Done;
    }

    /** The lookup without creation; 0 when there is no such page. */
    method Lookup(e: nat, page: nat) returns (dfn: nat)
      requires Shaped(View())
      ensures dfn == FrameOf(View(), PageOf(e, page))
    {
      if e in pageDirs && page / ENTRIES in pageDirs[e] {
        return pageDirs[e][page / ENTRIES][page % ENTRIES];
      }
      dfn := 0;
    }

    /** pf_update_env_page */
    method UpdateEnvPage(e: nat, page: nat, c: Content) returns (s: Status)
      requires Shaped(View()) && page < KERNEL_BASE_PAGE
      modifies `data
      ensures old(Shaped(View())) && (View(), s) == UpdatePage(old(View()), e, page, c)
    {
      var dfn := Lookup(e, page);
      if dfn == 0 {
        return NotExist;
      }
      data := data[dfn := c];
      s := Done;
    }

    /** pf_read_env_page */
    method ReadEnvPage(e: nat, page: nat) returns (s: Status, c: Content)
      requires Shaped(View())
      ensures (s, c) == ReadBack(View(), PageOf(e, page))
    {
      var dfn := Lookup(e, page);
      if dfn == 0 {
        return NotExist, [];
      }
      s, c := Done, if dfn in data then data[dfn] else [];
    }

    /** pf_remove_env_page */
    method RemoveEnvPage(e: nat, page: nat)
      requires Shaped(View())
      modifies `free, `pageDirs
      ensures old(Shaped(View())) && View() == RemovePage(old(View()), e, page)
    {
      if e !in pageDirs || page / ENTRIES !in pageDirs[e] {
        return;
      }
      var dfn := pageDirs[e][page / ENTRIES][page % ENTRIES];
      SetEntry(e, page, 0);
      FreeDiskFrame(dfn);
    }

    /** __pf_write_env_table */
    method WriteEnvTable(e: nat, i: nat, c: Content) returns (s: Status)
      requires Inv(View())
      modifies this
      ensures old(Shaped(View())) && (View(), s) == WriteTable(old(View()), e, i, c)
    {
      assert forall f :: f in free ==> f != 0;
      hide Inv;
      ghost var d := View();
      var dir: map<nat, nat> := if e in tableDirs then tableDirs[e] else map[];
      var dfn := if i in dir then dir[i] else 0;
      assert dir == TableDirOf(d, e) && dfn == FrameOf(d, TableOf(e, i));
      tableDirs := tableDirs[e := dir];
      if dfn == 0 {
        dfn := AllocateDiskFrame();
        if dfn == 0 {
          return NoSpace;
        }
        var grown: map<nat, nat> := dir[i := dfn];
        tableDirs := tableDirs[e := grown];
        assert tableDirs == SetTable(d, e, i, dfn).tableDirs;
      } else {
        assert tableDirs == d.tableDirs;
      }
      data := data[dfn := c];
      s := Done;
    }

    /** __pf_remove_env_table */
    method RemoveEnvTable(e: nat, i: nat)
      requires Shaped(View())
      modifies `free, `tableDirs
      ensures old(Shaped(View())) && View() == RemoveTable(old(View()), e, i)
    {
      if e !in tableDirs {
        return;
      }
      var dfn := if i in tableDirs[e] then tableDirs[e][i] else 0;
      var dir: map<nat, nat> := tableDirs[e][i := 0];
      tableDirs := tableDirs[e := dir];
      FreeDiskFrame(dfn);
    }

    /** The loops of pf_free_env over tables and entries. */
    method RemoveAllPages(e: nat)
      requires Shaped(View())
      modifies `free, `pageDirs
      ensures old(Shaped(View())) && View() == RemovePages(old(View()), e, USER_DIRECTORIES * ENTRIES)
    {
      ghost var d := View();
      hide Shaped, RemovePage;
      for i := 0 to USER_DIRECTORIES
        invariant Shaped(View()) && View() == RemovePages(d, e, i * ENTRIES)
      {
        if e in pageDirs && i in pageDirs[e] {
          for j := 0 to ENTRIES
            invariant Shaped(View()) && View() == RemovePages(d, e, i * ENTRIES + j)
          {
            T.RemovePagesNext(d, e, i * ENTRIES + j);
            RemoveEnvPage(e, i * ENTRIES + j);
          }
        } else {
          SkipRemoval(d, View(), e, i, ENTRIES);
        }
        assert (i + 1) * ENTRIES == i * ENTRIES + ENTRIES;
      }
    }

    /** __pf_remove_env_all_tables */
    method RemoveAllTables(e: nat)
      requires Shaped(View())
      modifies `free, `tableDirs
      ensures old(Shaped(View())) && View() == RemoveTables(old(View()), e, USER_DIRECTORIES)
    {
      ghost var d := View();
      hide Shaped, RemoveTable;
      for i := 0 to USER_DIRECTORIES
        invariant Shaped(View()) && View() == RemoveTables(d, e, i)
      {
        RemoveEnvTable(e, i);
      }
    }

    /** pf_free_env; not ok when there is no page directory and its null pointer is followed */
    method FreeEnv(e: nat) returns (ok: bool)
      requires Shaped(View())
      modifies this
      ensures old(Shaped(View())) && (ok <==> e in old(pageDirs))
      ensures View() == if ok then PageFileSpec.FreeEnv(old(View()), e) else old(View())
    {
      hide Shaped, RemovePages, RemoveTables;
      ok := e in pageDirs;
      if !ok {
        return;
      }
      RemoveAllPages(e);
      StaysShaped(View(), e);
      pageDirs := pageDirs - {e};
      RemoveAllTables(e);
      tableDirs := tableDirs - {e};
    }

    /** pf_calculate_allocated_pages */
    method CalculateAllocatedPages(e: nat) returns (r: PageCount)
      requires Shaped(View())
      ensures r == if e in pageDirs then Pages(|T.UserPages(View(), e)|) else PageCount.Fault
    {
      if e !in pageDirs {
        return PageCount.Fault;
      }
      var counter := 0;
      ghost var d := View();
      for i := 0 to USER_DIRECTORIES
        invariant counter == CountPages(d, e, i * ENTRIES)
      {
        if e in pageDirs && i in pageDirs[e] {
          for j := 0 to ENTRIES
            invariant counter == CountPages(d, e, i * ENTRIES + j)
          {
            PageIndex(i, j);
            if pageDirs[e][i][j] != 0 {
              counter := counter + 1;
            }
          }
        } else {
          SkipTable(d, e, i, ENTRIES);
        }
        assert (i + 1) * ENTRIES == i * ENTRIES + ENTRIES;
      }
      T.CountsAreBelowTop(d, e);
      r := Pages(counter);
    }
  }
}
