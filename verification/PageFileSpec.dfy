/**
 The page file of kern/file_manager.c: which disk frame each environment page
 and each swapped-out page table has, and what is written there.

 Every nonzero number in a page or table directory is a disk frame of its own;
 with the free list these numbers make up 1 .. PAGES_PER_FILE - 1.  So what an
 environment wrote stays its own until it is removed.  A frame is not cleared
 when it is freed: a page reserved without being written reads what the frame's
 last owner left there.
 */
module PageFileSpec {
  import RR = RoundRobin

  const PAGES_PER_FILE: nat := 133120
  const ENTRIES: nat := 1024

  /** PDX(USER_TOP): pf_free_env and pf_calculate_allocated_pages stop here. */
  const USER_DIRECTORIES: nat := 955
  /** Pages below KERNEL_BASE: what pf_add_env_page accepts. */
  const KERNEL_BASE_PAGE: nat := 0xF0000

  type Content = seq<bv8>

  /** disk_env_pgdir and disk_env_tabledir of each environment, where they exist. */
  datatype Disk = Disk(free: seq<nat>, pageDirs: map<nat, map<nat, seq<nat>>>, tableDirs: map<nat, map<nat, nat>>,
                       data: map<nat, Content>)

  /** Where a disk frame number is kept. */
  datatype Place = PageOf(env: nat, page: nat) | TableOf(env: nat, index: nat)

  datatype Status = Done | NoSpace | NotExist

  ghost predicate Shaped(d: Disk) {
    forall e: nat, i: nat :: e in d.pageDirs && i in d.pageDirs[e] ==> |d.pageDirs[e][i]| == ENTRIES
  }

  /** The disk frame number kept at a place, 0 when there is none. */
  function FrameOf(d: Disk, p: Place): nat
    requires Shaped(d)
  {
    match p
    case PageOf(e, page) =>
      if e in d.pageDirs && page / ENTRIES in d.pageDirs[e] then d.pageDirs[e][page / ENTRIES][page % ENTRIES] else 0
    case TableOf(e, i) =>
      if e in d.tableDirs && i in d.tableDirs[e] then d.tableDirs[e][i] else 0
  }

  /** pf_read_env_page, __pf_read_env_table: what is on the frame, if there is one. */
  function ReadBack(d: Disk, p: Place): (Status, Content)
    requires Shaped(d)
  {
    var f := FrameOf(d, p);
    if f == 0 then (NotExist, []) else (Done, if f in d.data then d.data[f] else [])
  }

  // ----- directories -----

  function DirOf(d: Disk, e: nat): map<nat, seq<nat>> {
    if e in d.pageDirs then d.pageDirs[e] else map[]
  }

  function Zeros(): seq<nat> {
    seq(ENTRIES, _ => 0)
  }

  /** get_disk_page_directory and get_disk_page_table with create set. */
  function WithTable(d: Disk, e: nat, i: nat): (r: Disk)
    requires Shaped(d)
    ensures Shaped(r) && e in r.pageDirs && i in r.pageDirs[e]
  {
    var dir := DirOf(d, e);
    d.(pageDirs := d.pageDirs[e := if i in dir then dir else dir[i := Zeros()]])
  }

  function SetPage(d: Disk, e: nat, page: nat, f: nat): (r: Disk)
    requires Shaped(d) && e in d.pageDirs && page / ENTRIES in d.pageDirs[e]
    ensures Shaped(r)
  {
    var i: nat := page / ENTRIES;
    var table: seq<nat> := d.pageDirs[e][i][page % ENTRIES := f];
    var dir: map<nat, seq<nat>> := d.pageDirs[e][i := table];
    d.(pageDirs := d.pageDirs[e := dir])
  }

  function TableDirOf(d: Disk, e: nat): map<nat, nat> {
    if e in d.tableDirs then d.tableDirs[e] else map[]
  }

  function SetTable(d: Disk, e: nat, i: nat, f: nat): (r: Disk)
    requires Shaped(d)
    ensures Shaped(r)
  {
    d.(tableDirs := d.tableDirs[e := TableDirOf(d, e)[i := f]])
  }

  function Write(d: Disk, f: nat, c: Content): (r: Disk)
    requires Shaped(d)
    ensures Shaped(r)
  {
    d.(data := d.data[f := c])
  }

  function FreeFrame(d: Disk, f: nat): (r: Disk)
    requires Shaped(d)
    ensures Shaped(r)
  {
    if f == 0 then d else d.(free := [f] + d.free)
  }

  // ----- the operations -----

  /** The part of pf_add_env_page and pf_add_empty_env_page before anything is written. */
  function Reserve(d: Disk, e: nat, page: nat): (r: (Disk, Status))
    requires Shaped(d)
    ensures Shaped(r.0)
  {
    var t := WithTable(d, e, page / ENTRIES);
    if FrameOf(t, PageOf(e, page)) != 0 then (t, Done)
    else if t.free == [] then (t, NoSpace)
    else (SetPage(t, e, page, t.free[0]).(free := t.free[1..]), Done)
  }

  /** pf_add_env_page */
  function AddPage(d: Disk, e: nat, page: nat, c: Content): (r: (Disk, Status))
    requires Shaped(d)
    ensures Shaped(r.0)
  {
    var (t, s) := Reserve(d, e, page);
    if s == NoSpace then (t, s) else (Write(t, FrameOf(t, PageOf(e, page)), c), Done)
  }

  /** pf_update_env_page */
  function UpdatePage(d: Disk, e: nat, page: nat, c: Content): (r: (Disk, Status))
    requires Shaped(d)
    ensures Shaped(r.0)
  {
    var f := FrameOf(d, PageOf(e, page));
    if f == 0 then (d, NotExist) else (Write(d, f, c), Done)
  }

  /** pf_remove_env_page */
  function RemovePage(d: Disk, e: nat, page: nat): (r: Disk)
    requires Shaped(d)
    ensures Shaped(r)
  {
    if e in d.pageDirs && page / ENTRIES in d.pageDirs[e] then
      FreeFrame(SetPage(d, e, page, 0), FrameOf(d, PageOf(e, page)))
    else d
  }

  /** __pf_write_env_table */
  function WriteTable(d: Disk, e: nat, i: nat, c: Content): (r: (Disk, Status))
    requires Shaped(d)
    ensures Shaped(r.0)
  {
    var f := FrameOf(d, TableOf(e, i));
    if f != 0 then (Write(d, f, c), Done)
    else if d.free == [] then (d.(tableDirs := d.tableDirs[e := TableDirOf(d, e)]), NoSpace)
    else (Write(SetTable(d, e, i, d.free[0]).(free := d.free[1..]), d.free[0], c), Done)
  }

  /** __pf_remove_env_table */
  function RemoveTable(d: Disk, e: nat, i: nat): (r: Disk)
    requires Shaped(d)
    ensures Shaped(r)
  {
    if e in d.tableDirs then FreeFrame(SetTable(d, e, i, 0), FrameOf(d, TableOf(e, i))) else d
  }

  /** The loops of pf_free_env over the first k pages, in the order of their addresses. */
  function RemovePages(d: Disk, e: nat, k: nat): (r: Disk)
    requires Shaped(d)
    ensures Shaped(r)
  {
    if k == 0 then d else RemovePage(RemovePages(d, e, k - 1), e, k - 1)
  }

  /** __pf_remove_env_all_tables over the first k directory entries */
  function RemoveTables(d: Disk, e: nat, k: nat): (r: Disk)
    requires Shaped(d)
    ensures Shaped(r)
  {
    if k == 0 then d else RemoveTable(RemoveTables(d, e, k - 1), e, k - 1)
  }

  /** pf_free_env: what lies above PDX(USER_TOP) goes with the directory, not to the free list. */
  function FreeEnv(d: Disk, e: nat): (r: Disk)
    requires Shaped(d)
    ensures Shaped(r)
  {
    var p := RemovePages(d, e, USER_DIRECTORIES * ENTRIES);
    var q := p.(pageDirs := p.pageDirs - {e});
    var t := RemoveTables(q, e, USER_DIRECTORIES);
    t.(tableDirs := t.tableDirs - {e})
  }

  /** pf_calculate_allocated_pages over the first k pages */
  function CountPages(d: Disk, e: nat, k: nat): nat
    requires Shaped(d)
  {
    if k == 0 then 0 else CountPages(d, e, k - 1) + if FrameOf(d, PageOf(e, k - 1)) != 0 then 1 else 0
  }

  function CountTables(d: Disk, e: nat, k: nat): nat
    requires Shaped(d)
  {
    if k == 0 then 0 else CountTables(d, e, k - 1) + if FrameOf(d, TableOf(e, k - 1)) != 0 then 1 else 0
  }

  // ----- invariant -----

  ghost predicate IsFrame(f: nat) {
    1 <= f < PAGES_PER_FILE
  }

  ghost predicate Kept(d: Disk, p: Place, f: nat)
    requires Shaped(d)
  {
    FrameOf(d, p) == f
  }

  /** Nonzero numbers are frames, each kept once, and together with the free list they are all the frames. */
  ghost predicate Inv(d: Disk) {
    && Shaped(d) && RR.NoRepeats(d.free)
    && (forall f: nat :: f in d.free ==> IsFrame(f))
    && (forall p: Place :: FrameOf(d, p) != 0 ==> IsFrame(FrameOf(d, p)) && FrameOf(d, p) !in d.free)
    && (forall p: Place, q: Place :: FrameOf(d, p) != 0 && FrameOf(d, p) == FrameOf(d, q) ==> p == q)
    && (forall f: nat :: IsFrame(f) && f !in d.free ==> exists p: Place :: Kept(d, p, f))
  }
}
