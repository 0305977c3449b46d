/** Disk frames are conserved and pages are isolated, over every run of the page file. */
module PageFileTheorems {
  import RR = RoundRobin
  import opened PageFileSpec

  /** d and r keep the same number everywhere but at p, where r keeps f. */
  ghost predicate ChangedAt(d: Disk, r: Disk, p: Place, f: nat)
    requires Shaped(d) && Shaped(r)
  {
    FrameOf(r, p) == f && forall q: Place :: q != p ==> FrameOf(r, q) == FrameOf(d, q)
  }

  ghost predicate SamePlaces(d: Disk, r: Disk)
    requires Shaped(d) && Shaped(r)
  {
    forall q: Place :: FrameOf(r, q) == FrameOf(d, q)
  }

  // ----- what the directory updates change -----

  lemma SetPageChanges(d: Disk, e: nat, page: nat, f: nat)
    requires Shaped(d) && e in d.pageDirs && page / ENTRIES in d.pageDirs[e]
    ensures ChangedAt(d, SetPage(d, e, page, f), PageOf(e, page), f)
  {
    var r := SetPage(d, e, page, f);
    forall q: Place | q != PageOf(e, page)
      ensures FrameOf(r, q) == FrameOf(d, q)
    {
      match q
      case PageOf(c, p) =>
        assert c == e && p / ENTRIES == page / ENTRIES ==> p % ENTRIES != page % ENTRIES;
      case TableOf(_, _) =>
    }
  }

  lemma SetTableChanges(d: Disk, e: nat, i: nat, f: nat)
    requires Shaped(d)
    ensures ChangedAt(d, SetTable(d, e, i, f), TableOf(e, i), f)
  {
  }

  lemma WithTableSame(d: Disk, e: nat, i: nat)
    requires Shaped(d)
    ensures SamePlaces(d, WithTable(d, e, i))
  {
  }

  // ----- the invariant -----

  lemma HeadOnce(q: seq<nat>)
    requires RR.NoRepeats(q) && q != []
    ensures RR.NoRepeats(q[1..]) && forall x: nat :: x in q[1..] <==> x in q && x != q[0]
  {
    assert q == [q[0]] + q[1..];
  }

  lemma PushOnce(q: seq<nat>, f: nat)
    requires RR.NoRepeats(q) && f !in q
    ensures RR.NoRepeats([f] + q) && forall x: nat :: x in [f] + q <==> x in q || x == f
  {
  }

  /** Moving the first free frame to an empty place keeps the partition. */
  lemma TakeKeeps(d: Disk, r: Disk, p: Place)
    requires Inv(d) && Shaped(r) && d.free != [] && r.free == d.free[1..]
    requires FrameOf(d, p) == 0 && ChangedAt(d, r, p, d.free[0])
    ensures Inv(r)
  {
    var f := d.free[0];
    assert f in d.free;
    HeadOnce(d.free);
    hide FrameOf, RR.NoRepeats;
    forall g: nat | IsFrame(g) && g !in r.free
      ensures exists q: Place :: Kept(r, q, g)
    {
      if g == f {
        assert Kept(r, p, g);
      } else {
        var q: Place :| Kept(d, q, g);
        assert Kept(r, q, g);
      }
    }
  }

  /** Moving a place's frame to the free list keeps the partition. */
  lemma GiveKeeps(d: Disk, r: Disk, p: Place)
    requires Inv(d) && Shaped(r) && FrameOf(d, p) != 0 && r.free == [FrameOf(d, p)] + d.free
    requires ChangedAt(d, r, p, 0)
    ensures Inv(r)
  {
    PushOnce(d.free, FrameOf(d, p));
    hide FrameOf, RR.NoRepeats;
    forall g: nat | IsFrame(g) && g !in r.free
      ensures exists q: Place :: Kept(r, q, g)
    {
      var q: Place :| Kept(d, q, g);
      assert q != p;
      assert Kept(r, q, g);
    }
  }

  lemma SameKeeps(d: Disk, r: Disk)
    requires Inv(d) && Shaped(r) && r.free == d.free && SamePlaces(d, r)
    ensures Inv(r)
  {
    hide FrameOf;
    forall g: nat | IsFrame(g) && g !in r.free
      ensures exists q: Place :: Kept(r, q, g)
    {
      var q: Place :| Kept(d, q, g);
      assert Kept(r, q, g);
    }
  }

  // ----- single operations -----

  lemma IsShaped(d: Disk)
    requires Inv(d)
    ensures Shaped(d)
  {
  }

  lemma ReserveIs(d: Disk, e: nat, page: nat)
    requires Inv(d)
    ensures var (r, s) := Reserve(d, e, page);
      && Inv(r) && r.data == d.data && s in {Done, NoSpace}
      && (s == NoSpace <==> FrameOf(d, PageOf(e, page)) == 0 && d.free == [])
      && (s == Done ==> FrameOf(r, PageOf(e, page)) != 0)
      && (forall q: Place :: q != PageOf(e, page) ==> FrameOf(r, q) == FrameOf(d, q))
      && (FrameOf(d, PageOf(e, page)) != 0 ==> FrameOf(r, PageOf(e, page)) == FrameOf(d, PageOf(e, page)))
      && |r.free| == |d.free| - if FrameOf(d, PageOf(e, page)) == 0 && d.free != [] then 1 else 0
  {
    var p := PageOf(e, page);
    var t := WithTable(d, e, page / ENTRIES);
    WithTableSame(d, e, page / ENTRIES);
    SameKeeps(d, t);
    assert t.free == d.free && t.data == d.data;
    if FrameOf(t, p) == 0 && t.free != [] {
      assert t.free[0] in t.free;
      SetPageChanges(t, e, page, t.free[0]);
      var r := SetPage(t, e, page, t.free[0]).(free := t.free[1..]);
      SameFrames(SetPage(t, e, page, t.free[0]), r);
      assert t.free[0] != 0;
      hide FrameOf, SetPage, WithTable, Inv;
      TakeKeeps(t, r, p);
    }
  }

  /** Places do not depend on the free list or on what is written. */
  lemma SameFrames(d: Disk, r: Disk)
    requires Shaped(d) && r.pageDirs == d.pageDirs && r.tableDirs == d.tableDirs
    ensures Shaped(r) && SamePlaces(d, r)
  {
  }

  /** Two places that both keep a frame keep different ones. */
  lemma DifferentFrames(d: Disk, p: Place, q: Place)
    requires Inv(d) && p != q && FrameOf(d, p) != 0
    ensures FrameOf(d, p) != FrameOf(d, q)
  {
  }

  /** A write to the frame at p is read back at p and nowhere else. */
  lemma WriteIsolated(d: Disk, p: Place, c: Content)
    requires Inv(d) && FrameOf(d, p) != 0
    ensures var r := Write(d, FrameOf(d, p), c);
      Inv(r) && ReadBack(r, p) == (Done, c) && forall q: Place :: q != p ==> ReadBack(r, q) == ReadBack(d, q)
  {
    var r := Write(d, FrameOf(d, p), c);
    SameFrames(d, r);
    SameKeeps(d, r);
    forall q: Place | q != p
      ensures ReadBack(r, q) == ReadBack(d, q)
    {
      DifferentFrames(d, p, q);
    }
    hide FrameOf, Inv;
  }

  /** The same number at a place, and the same contents, read the same. */
  lemma ReadSame(d: Disk, r: Disk, q: Place)
    requires Shaped(d) && Shaped(r) && FrameOf(r, q) == FrameOf(d, q) && r.data == d.data
    ensures ReadBack(r, q) == ReadBack(d, q)
  {
  }

  /** pf_add_env_page: what is written is read back, nothing else that anyone reads changes, and frames are conserved. */
  lemma AddPageIs(d: Disk, e: nat, page: nat, c: Content)
    requires Inv(d)
    ensures var (r, s) := AddPage(d, e, page, c);
      && Inv(r)
      && (s == NoSpace <==> FrameOf(d, PageOf(e, page)) == 0 && d.free == [])
      && (s != NoSpace ==> s == Done && ReadBack(r, PageOf(e, page)) == (Done, c))
      && (forall q: Place :: q != PageOf(e, page) ==> ReadBack(r, q) == ReadBack(d, q) && FrameOf(r, q) == FrameOf(d, q))
  {
    hide *;
    var p := PageOf(e, page);
    IsShaped(d);
    ReserveIs(d, e, page);
    var (t, s) := Reserve(d, e, page);
    IsShaped(t);
    AddPageParts(d, e, page, c);
    if s == Done {
      WriteIsolated(t, p, c);
      WriteSame(t, FrameOf(t, p), c);
    }
    forall q: Place | q != p
      ensures ReadBack(AddPage(d, e, page, c).0, q) == ReadBack(d, q)
      ensures FrameOf(AddPage(d, e, page, c).0, q) == FrameOf(d, q)
    {
      ReadSame(d, t, q);
      if s == Done {
        ReadsSame(t, Write(t, FrameOf(t, p), c), q);
      }
    }
  }

  lemma AddPageParts(d: Disk, e: nat, page: nat, c: Content)
    requires Shaped(d)
    ensures var (t, s) := Reserve(d, e, page);
      AddPage(d, e, page, c) == if s == NoSpace then (t, s) else (Write(t, FrameOf(t, PageOf(e, page)), c), Done)
  {
  }

  lemma WriteSame(d: Disk, f: nat, c: Content)
    requires Shaped(d)
    ensures Shaped(Write(d, f, c)) && SamePlaces(d, Write(d, f, c))
  {
    SameFrames(d, Write(d, f, c));
  }

  lemma ReadsSame(d: Disk, r: Disk, q: Place)
    requires Shaped(d) && Shaped(r) && SamePlaces(d, r)
    ensures FrameOf(r, q) == FrameOf(d, q)
  {
  }

  /** pf_update_env_page */
  lemma UpdatePageIs(d: Disk, e: nat, page: nat, c: Content)
    requires Inv(d)
    ensures var (r, s) := UpdatePage(d, e, page, c);
      && Inv(r)
      && (s == NotExist <==> FrameOf(d, PageOf(e, page)) == 0)
      && (s != NotExist ==> s == Done && ReadBack(r, PageOf(e, page)) == (Done, c))
      && (forall q: Place :: q != PageOf(e, page) ==> ReadBack(r, q) == ReadBack(d, q))
  {
    if FrameOf(d, PageOf(e, page)) != 0 {
      WriteIsolated(d, PageOf(e, page), c);
    }
    hide FrameOf, Inv;
  }

  /** Giving up one place, whose frame goes to the head of the free list. */
  ghost predicate Dropped(d: Disk, r: Disk, p: Place)
    requires Shaped(d) && Shaped(r)
  {
    && Inv(r) && r.data == d.data && ChangedAt(d, r, p, 0)
    && r.free == if FrameOf(d, p) == 0 then d.free else [FrameOf(d, p)] + d.free
  }

  /** pf_remove_env_page */
  lemma RemovePageIs(d: Disk, e: nat, page: nat)
    requires Inv(d)
    ensures Dropped(d, RemovePage(d, e, page), PageOf(e, page))
  {
    var p := PageOf(e, page);
    var r := RemovePage(d, e, page);
    if e in d.pageDirs && page / ENTRIES in d.pageDirs[e] {
      var t := SetPage(d, e, page, 0);
      SetPageChanges(d, e, page, 0);
      SameFrames(t, r);
      Give(d, t, r, p);
    }
  }

  lemma Give(d: Disk, t: Disk, r: Disk, p: Place)
    requires Inv(d) && Shaped(t) && ChangedAt(d, t, p, 0) && t.free == d.free && t.data == d.data
    requires r == FreeFrame(t, FrameOf(d, p)) && SamePlaces(t, r)
    ensures Dropped(d, r, p)
  {
    IsShaped(d);
    hide FrameOf, Inv;
    if FrameOf(d, p) == 0 {
      SameKeeps(d, r);
    } else {
      GiveKeeps(d, r, p);
    }
  }

  /** __pf_remove_env_table */
  lemma RemoveTableIs(d: Disk, e: nat, i: nat)
    requires Inv(d)
    ensures Dropped(d, RemoveTable(d, e, i), TableOf(e, i))
  {
    var p := TableOf(e, i);
    var r := RemoveTable(d, e, i);
    if e in d.tableDirs {
      var t := SetTable(d, e, i, 0);
      SetTableChanges(d, e, i, 0);
      SameFrames(t, r);
      Give(d, t, r, p);
    }
  }

  /** __pf_write_env_table */
  lemma WriteTableIs(d: Disk, e: nat, i: nat, c: Content)
    requires Inv(d)
    ensures var (r, s) := WriteTable(d, e, i, c);
      && Inv(r)
      && (s == NoSpace <==> FrameOf(d, TableOf(e, i)) == 0 && d.free == [])
      && (s != NoSpace ==> s == Done && ReadBack(r, TableOf(e, i)) == (Done, c))
      && (forall q: Place :: q != TableOf(e, i) ==> ReadBack(r, q) == ReadBack(d, q) && FrameOf(r, q) == FrameOf(d, q))
  {
    var p := TableOf(e, i);
    var f := FrameOf(d, p);
    if f != 0 {
      SameFrames(d, Write(d, f, c));
      WriteIsolated(d, p, c);
      hide FrameOf, Inv;
    } else if d.free == [] {
      var r := d.(tableDirs := d.tableDirs[e := TableDirOf(d, e)]);
      assert SamePlaces(d, r);
      SameKeeps(d, r);
    } else {
      var t := SetTable(d, e, i, d.free[0]).(free := d.free[1..]);
      assert d.free[0] in d.free;
      SetTableChanges(d, e, i, d.free[0]);
      SameFrames(SetTable(d, e, i, d.free[0]), t);
      assert WriteTable(d, e, i, c) == (Write(t, d.free[0], c), Done);
      assert d.free[0] != 0;
      hide FrameOf, Inv, WriteTable, SetTable;
      IsShaped(d);
      TakeKeeps(d, t, p);
      WriteIsolated(t, p, c);
      SameFrames(t, Write(t, d.free[0], c));
      forall q: Place | q != p
        ensures ReadBack(t, q) == ReadBack(d, q)
      {
        ReadSame(d, t, q);
      }
    }
  }

  // ----- freeing an environment -----

  ghost predicate PagesBelow(q: Place, e: nat, k: nat) {
    q.PageOf? && q.env == e && q.page < k
  }

  ghost predicate TablesBelow(q: Place, e: nat, k: nat) {
    q.TableOf? && q.env == e && q.index < k
  }

  /** The loop of pf_free_env empties the places below k and returns the frames pf_calculate_allocated_pages counts. */
  lemma {:induction false} RemovePagesIs(d: Disk, e: nat, k: nat)
    requires Inv(d)
    ensures var r := RemovePages(d, e, k);
      && Inv(r) && r.data == d.data && |r.free| == |d.free| + CountPages(d, e, k)
      && forall q: Place :: FrameOf(r, q) == if PagesBelow(q, e, k) then 0 else FrameOf(d, q)
  {
    hide *;
    IsShaped(d);
    if k == 0 {
      RemovePagesNone(d, e);
    } else {
      RemovePagesIs(d, e, k - 1);
      RemovePagesNext(d, e, k - 1);
      var t := RemovePages(d, e, k - 1);
      IsShaped(t);
      RemovePageIs(t, e, k - 1);
      RemovePagesStep(d, t, RemovePages(d, e, k), e, k - 1);
    }
  }

  lemma RemovePagesNone(d: Disk, e: nat)
    requires Shaped(d)
    ensures RemovePages(d, e, 0) == d && CountPages(d, e, 0) == 0 && forall q: Place :: !PagesBelow(q, e, 0)
  {
  }

  lemma RemovePagesNext(d: Disk, e: nat, k: nat)
    requires Shaped(d)
    ensures RemovePages(d, e, k + 1) == RemovePage(RemovePages(d, e, k), e, k)
    ensures CountPages(d, e, k + 1) == CountPages(d, e, k) + if FrameOf(d, PageOf(e, k)) != 0 then 1 else 0
  {
    hide RemovePage, FrameOf;
  }

  lemma RemovePagesStep(d: Disk, t: Disk, r: Disk, e: nat, k: nat)
    requires Shaped(d) && Shaped(t) && Shaped(r) && t.data == d.data
    requires Dropped(t, r, PageOf(e, k)) && forall q: Place :: FrameOf(t, q) == if PagesBelow(q, e, k) then 0 else FrameOf(d, q)
    ensures Inv(r) && r.data == d.data && |r.free| == |t.free| + if FrameOf(d, PageOf(e, k)) != 0 then 1 else 0
    ensures forall q: Place :: FrameOf(r, q) == if PagesBelow(q, e, k + 1) then 0 else FrameOf(d, q)
  {
    assert !PagesBelow(PageOf(e, k), e, k);
    assert forall q: Place :: PagesBelow(q, e, k + 1) <==> PagesBelow(q, e, k) || q == PageOf(e, k);
    hide Inv, FrameOf, PagesBelow;
  }

  lemma {:induction false} RemoveTablesIs(d: Disk, e: nat, k: nat)
    requires Inv(d)
    ensures var r := RemoveTables(d, e, k);
      && Inv(r) && r.data == d.data && |r.free| == |d.free| + CountTables(d, e, k)
      && forall q: Place :: FrameOf(r, q) == if TablesBelow(q, e, k) then 0 else FrameOf(d, q)
  {
    hide *;
    IsShaped(d);
    if k == 0 {
      RemoveTablesNone(d, e);
    } else {
      RemoveTablesIs(d, e, k - 1);
      RemoveTablesNext(d, e, k - 1);
      var t := RemoveTables(d, e, k - 1);
      IsShaped(t);
      RemoveTableIs(t, e, k - 1);
      RemoveTablesStep(d, t, RemoveTables(d, e, k), e, k - 1);
    }
  }

  lemma RemoveTablesNone(d: Disk, e: nat)
    requires Shaped(d)
    ensures RemoveTables(d, e, 0) == d && CountTables(d, e, 0) == 0 && forall q: Place :: !TablesBelow(q, e, 0)
  {
  }

  lemma RemoveTablesNext(d: Disk, e: nat, k: nat)
    requires Shaped(d)
    ensures RemoveTables(d, e, k + 1) == RemoveTable(RemoveTables(d, e, k), e, k)
    ensures CountTables(d, e, k + 1) == CountTables(d, e, k) + if FrameOf(d, TableOf(e, k)) != 0 then 1 else 0
  {
    hide RemoveTable, FrameOf;
  }

  lemma RemoveTablesStep(d: Disk, t: Disk, r: Disk, e: nat, k: nat)
    requires Shaped(d) && Shaped(t) && Shaped(r) && t.data == d.data
    requires Dropped(t, r, TableOf(e, k)) && forall q: Place :: FrameOf(t, q) == if TablesBelow(q, e, k) then 0 else FrameOf(d, q)
    ensures Inv(r) && r.data == d.data && |r.free| == |t.free| + if FrameOf(d, TableOf(e, k)) != 0 then 1 else 0
    ensures forall q: Place :: FrameOf(r, q) == if TablesBelow(q, e, k + 1) then 0 else FrameOf(d, q)
  {
    assert !TablesBelow(TableOf(e, k), e, k);
    assert forall q: Place :: TablesBelow(q, e, k + 1) <==> TablesBelow(q, e, k) || q == TableOf(e, k);
    hide Inv, FrameOf, TablesBelow;
  }

  /** The environment keeps nothing at or above USER_TOP, 0xEEC0_0000: no page, and no table of 1024 pages. */
  ghost predicate BelowTop(d: Disk, e: nat)
    requires Shaped(d)
  {
    && (forall page: nat :: 0xEEC0_0000 <= page * 4096 ==> FrameOf(d, PageOf(e, page)) == 0)
    && (forall i: nat :: 0xEEC0_0000 <= i * 1024 * 4096 ==> FrameOf(d, TableOf(e, i)) == 0)
  }

  /** The environment's pages below USER_TOP that have a disk frame. */
  ghost function UserPages(d: Disk, e: nat): set<nat>
    requires Shaped(d)
  {
    set page: nat | page < 0x10_0000 && page * 4096 < 0xEEC0_0000 && FrameOf(d, PageOf(e, page)) != 0
  }

  /** Its swapped-out page tables of addresses below USER_TOP. */
  ghost function UserTables(d: Disk, e: nat): set<nat>
    requires Shaped(d)
  {
    set i: nat | i < 1024 && i * 1024 * 4096 < 0xEEC0_0000 && FrameOf(d, TableOf(e, i)) != 0
  }

  lemma {:induction false} CountPagesIs(d: Disk, e: nat, k: nat)
    requires Shaped(d)
    ensures CountPages(d, e, k) == |set page: nat | page < k && FrameOf(d, PageOf(e, page)) != 0|
  {
    hide FrameOf;
    var a := set page: nat | page < k && FrameOf(d, PageOf(e, page)) != 0;
    if k == 0 {
      assert a == {};
    } else {
      CountPagesIs(d, e, k - 1);
      var b := set page: nat | page < k - 1 && FrameOf(d, PageOf(e, page)) != 0;
      assert a == b + if FrameOf(d, PageOf(e, k - 1)) != 0 then {k - 1} else {};
    }
  }

  lemma {:induction false} CountTablesIs(d: Disk, e: nat, k: nat)
    requires Shaped(d)
    ensures CountTables(d, e, k) == |set i: nat | i < k && FrameOf(d, TableOf(e, i)) != 0|
  {
    hide FrameOf;
    var a := set i: nat | i < k && FrameOf(d, TableOf(e, i)) != 0;
    if k == 0 {
      assert a == {};
    } else {
      CountTablesIs(d, e, k - 1);
      var b := set i: nat | i < k - 1 && FrameOf(d, TableOf(e, i)) != 0;
      assert a == b + if FrameOf(d, TableOf(e, k - 1)) != 0 then {k - 1} else {};
    }
  }

  /** How far the loops go: they count every page and table below USER_TOP, and none above. */
  lemma CountsAreBelowTop(d: Disk, e: nat)
    requires Shaped(d)
    ensures CountPages(d, e, USER_DIRECTORIES * ENTRIES) == |UserPages(d, e)|
    ensures CountTables(d, e, USER_DIRECTORIES) == |UserTables(d, e)|
  {
    hide FrameOf, CountPages, CountTables;
    CountPagesIs(d, e, USER_DIRECTORIES * ENTRIES);
    CountTablesIs(d, e, USER_DIRECTORIES);
    assert UserPages(d, e) == set page: nat | page < USER_DIRECTORIES * ENTRIES && FrameOf(d, PageOf(e, page)) != 0;
    assert UserTables(d, e) == set i: nat | i < USER_DIRECTORIES && FrameOf(d, TableOf(e, i)) != 0;
  }

  lemma DropPageDir(p: Disk, e: nat)
    requires Shaped(p)
    ensures var q := p.(pageDirs := p.pageDirs - {e});
      Shaped(q) && forall x: Place :: FrameOf(q, x) == if x.PageOf? && x.env == e then 0 else FrameOf(p, x)
  {
  }

  lemma DropTableDir(p: Disk, e: nat)
    requires Shaped(p)
    ensures var q := p.(tableDirs := p.tableDirs - {e});
      Shaped(q) && forall x: Place :: FrameOf(q, x) == if x.TableOf? && x.env == e then 0 else FrameOf(p, x)
  {
  }

  lemma {:induction false} CountTablesSame(d: Disk, r: Disk, e: nat, k: nat)
    requires Shaped(d) && Shaped(r) && forall i: nat :: FrameOf(r, TableOf(e, i)) == FrameOf(d, TableOf(e, i))
    ensures CountTables(r, e, k) == CountTables(d, e, k)
  {
    if k > 0 {
      CountTablesSame(d, r, e, k - 1);
    }
    hide FrameOf;
  }

  /**
   pf_free_env on an environment below USER_TOP: it keeps nothing any more, its
   frames are free again, as many as pf_calculate_allocated_pages counts plus
   its swapped-out tables, and everybody else reads what they read before.
   */
  lemma FreeEnvIs(d: Disk, e: nat)
    requires Inv(d) && BelowTop(d, e)
    ensures var r := FreeEnv(d, e);
      && Inv(r) && |r.free| == |d.free| + |UserPages(d, e)| + |UserTables(d, e)|
      && forall q: Place :: if q.env == e then FrameOf(r, q) == 0 else FrameOf(r, q) == FrameOf(d, q) && ReadBack(r, q) == ReadBack(d, q)
  {
    IsShaped(d);
    CountsAreBelowTop(d, e);
    hide RemovePages, RemoveTables, CountPages, CountTables, FrameOf, Inv, UserPages, UserTables;
    var p := RemovePages(d, e, USER_DIRECTORIES * ENTRIES);
    RemovePagesIs(d, e, USER_DIRECTORIES * ENTRIES);
    var q := p.(pageDirs := p.pageDirs - {e});
    DropPageDir(p, e);
    assert SamePlaces(p, q);
    SameKeeps(p, q);
    var t := RemoveTables(q, e, USER_DIRECTORIES);
    RemoveTablesIs(q, e, USER_DIRECTORIES);
    CountTablesSame(d, q, e, USER_DIRECTORIES);
    var r := FreeEnv(d, e);
    DropTableDir(t, e);
    assert SamePlaces(t, r);
    SameKeeps(t, r);
    forall x: Place | x.env != e
      ensures ReadBack(r, x) == ReadBack(d, x) && FrameOf(r, x) == FrameOf(d, x)
    {
      ReadSame(d, r, x);
    }
  }

  lemma {:induction false} TablesOnlyFree(d: Disk, e: nat, k: nat)
    requires Shaped(d)
    ensures forall f: nat :: f in d.free ==> f in RemoveTables(d, e, k).free
  {
    if k > 0 {
      TablesOnlyFree(d, e, k - 1);
      hide FrameOf, Shaped;
    }
  }

  /** A frame of d kept nowhere in r, which keeps at most what d keeps, is on r's free list. */
  lemma NotKeptIsFree(d: Disk, r: Disk, p: Place)
    requires Inv(d) && Inv(r) && FrameOf(d, p) != 0 && FrameOf(r, p) == 0
    requires forall q: Place :: FrameOf(r, q) == 0 || FrameOf(r, q) == FrameOf(d, q)
    ensures FrameOf(d, p) in r.free
  {
    var f := FrameOf(d, p);
    forall q: Place
      ensures !Kept(r, q, f)
    {
      if q != p {
        DifferentFrames(d, p, q);
      }
    }
    assert IsFrame(f);
    hide FrameOf, Shaped;
  }

  /**
   pf_free_env on any environment: nothing of it has a frame any more, every
   frame of a page or table below USER_TOP is on the free list, and nobody
   else's places change.
   */
  lemma FreeEnvReturns(d: Disk, e: nat, page: nat, i: nat)
    requires Inv(d)
    ensures var r := FreeEnv(d, e);
      && (forall q: Place :: FrameOf(r, q) == if q.env == e then 0 else FrameOf(d, q))
      && (page * 4096 < 0xEEC0_0000 && FrameOf(d, PageOf(e, page)) != 0 ==> FrameOf(d, PageOf(e, page)) in r.free)
      && (i * 1024 * 4096 < 0xEEC0_0000 && FrameOf(d, TableOf(e, i)) != 0 ==> FrameOf(d, TableOf(e, i)) in r.free)
  {
    hide RemovePages, RemoveTables, FrameOf, Inv;
    IsShaped(d);
    var p := RemovePages(d, e, USER_DIRECTORIES * ENTRIES);
    RemovePagesIs(d, e, USER_DIRECTORIES * ENTRIES);
    IsShaped(p);
    var q := p.(pageDirs := p.pageDirs - {e});
    DropPageDir(p, e);
    var t := RemoveTables(q, e, USER_DIRECTORIES);
    FreeTablesChange(q, e, USER_DIRECTORIES);
    DropTableDir(t, e);
    if page * 4096 < 0xEEC0_0000 && FrameOf(d, PageOf(e, page)) != 0 {
      NotKeptIsFree(d, p, PageOf(e, page));
      TablesOnlyFree(q, e, USER_DIRECTORIES);
    }
    if i * 1024 * 4096 < 0xEEC0_0000 && FrameOf(d, TableOf(e, i)) != 0 {
      TableIsFreed(q, e, i, USER_DIRECTORIES);
    }
  }

  lemma RemoveTableOnly(d: Disk, e: nat, i: nat)
    requires Shaped(d)
    ensures var r := RemoveTable(d, e, i);
      && (forall q: Place :: FrameOf(r, q) == if q == TableOf(e, i) then 0 else FrameOf(d, q))
      && (FrameOf(d, TableOf(e, i)) != 0 ==> FrameOf(d, TableOf(e, i)) in r.free)
  {
    if e in d.tableDirs {
      SetTableChanges(d, e, i, 0);
      SameFrames(SetTable(d, e, i, 0), RemoveTable(d, e, i));
    }
  }

  lemma {:induction false} FreeTablesChange(d: Disk, e: nat, k: nat)
    requires Shaped(d)
    ensures forall q: Place :: FrameOf(RemoveTables(d, e, k), q) == if TablesBelow(q, e, k) then 0 else FrameOf(d, q)
  {
    if k == 0 {
      RemoveTablesNone(d, e);
    } else {
      FreeTablesChange(d, e, k - 1);
      RemoveTablesNext(d, e, k - 1);
      RemoveTableOnly(RemoveTables(d, e, k - 1), e, k - 1);
      hide FrameOf, RemoveTables, RemoveTable;
    }
  }

  lemma {:induction false} TableIsFreed(d: Disk, e: nat, i: nat, k: nat)
    requires Shaped(d) && i < k && FrameOf(d, TableOf(e, i)) != 0
    ensures FrameOf(d, TableOf(e, i)) in RemoveTables(d, e, k).free
  {
    hide FrameOf, RemoveTables;
    RemoveTablesNext(d, e, k - 1);
    if i < k - 1 {
      TableIsFreed(d, e, i, k - 1);
    } else {
      FreeTablesChange(d, e, i);
      RemoveTableOnly(RemoveTables(d, e, i), e, i);
    }
  }

  // ----- what is lost above USER_TOP -----

  /** A frame nobody can find again. */
  ghost predicate Leaked(d: Disk, f: nat)
    requires Shaped(d)
  {
    IsFrame(f) && f !in d.free && forall p: Place :: !Kept(d, p, f)
  }

  lemma LeakBreaksInv(d: Disk, f: nat)
    requires Shaped(d) && Leaked(d, f)
    ensures !Inv(d)
  {
  }

  lemma LeakStays(d: Disk, e: nat, i: nat, f: nat)
    requires Shaped(d) && Leaked(d, f)
    ensures Leaked(RemoveTable(d, e, i), f)
  {
    var r := RemoveTable(d, e, i);
    if e in d.tableDirs {
      SetTableChanges(d, e, i, 0);
      SameFrames(SetTable(d, e, i, 0), r);
      assert !Kept(d, TableOf(e, i), f);
    }
    forall p: Place
      ensures !Kept(r, p, f)
    {
      assert !Kept(d, p, f);
      assert FrameOf(r, p) == FrameOf(d, p) || FrameOf(r, p) == 0;
    }
  }

  lemma {:induction false} LeakStaysAll(d: Disk, e: nat, k: nat, f: nat)
    requires Shaped(d) && Leaked(d, f)
    ensures Leaked(RemoveTables(d, e, k), f)
  {
    if k > 0 {
      LeakStaysAll(d, e, k - 1, f);
      LeakStays(RemoveTables(d, e, k - 1), e, k - 1, f);
    }
  }

  lemma DropLeaks(p: Disk, q: Disk, x: Place)
    requires Inv(p) && Shaped(q) && q.free == p.free && FrameOf(p, x) != 0 && FrameOf(q, x) == 0
    requires forall y: Place :: FrameOf(q, y) == 0 || FrameOf(q, y) == FrameOf(p, y)
    ensures Leaked(q, FrameOf(p, x))
  {
    forall y: Place
      ensures !Kept(q, y, FrameOf(p, x))
    {
      if y != x {
        DifferentFrames(p, x, y);
      }
    }
  }

  /** A page above USER_TOP: its frame is lost when the environment is freed. */
  lemma PageAboveLeaks(d: Disk, e: nat, page: nat)
    requires Inv(d) && 0xEEC0_0000 <= page * 4096 && FrameOf(d, PageOf(e, page)) != 0
    ensures !Inv(FreeEnv(d, e))
  {
    hide RemovePages, RemoveTables, FrameOf, Inv;
    IsShaped(d);
    var p := RemovePages(d, e, USER_DIRECTORIES * ENTRIES);
    RemovePagesIs(d, e, USER_DIRECTORIES * ENTRIES);
    var q := p.(pageDirs := p.pageDirs - {e});
    DropPageDir(p, e);
    var f := FrameOf(d, PageOf(e, page));
    DropLeaks(p, q, PageOf(e, page));
    LeakStaysAll(q, e, USER_DIRECTORIES, f);
    var t := RemoveTables(q, e, USER_DIRECTORIES);
    DropTableDir(t, e);
    var r := FreeEnv(d, e);
    assert forall x: Place :: Kept(r, x, f) ==> f == 0 || Kept(t, x, f);
    LeakBreaksInv(r, f);
  }

  lemma TableAboveLeaks(d: Disk, e: nat, i: nat)
    requires Inv(d) && 0xEEC0_0000 <= i * 1024 * 4096 && FrameOf(d, TableOf(e, i)) != 0
    requires forall page: nat :: 0xEEC0_0000 <= page * 4096 ==> FrameOf(d, PageOf(e, page)) == 0
    ensures !Inv(FreeEnv(d, e))
  {
    hide RemovePages, RemoveTables, FrameOf, Inv;
    IsShaped(d);
    var p := RemovePages(d, e, USER_DIRECTORIES * ENTRIES);
    RemovePagesIs(d, e, USER_DIRECTORIES * ENTRIES);
    var q := p.(pageDirs := p.pageDirs - {e});
    DropPageDir(p, e);
    assert SamePlaces(p, q);
    SameKeeps(p, q);
    var t := RemoveTables(q, e, USER_DIRECTORIES);
    RemoveTablesIs(q, e, USER_DIRECTORIES);
    DropTableDir(t, e);
    DropLeaks(t, FreeEnv(d, e), TableOf(e, i));
    LeakBreaksInv(FreeEnv(d, e), FrameOf(d, TableOf(e, i)));
  }

  /** Freeing an environment conserves the disk frames exactly when it keeps nothing at or above USER_TOP. */
  lemma FreeEnvKeepsIff(d: Disk, e: nat)
    requires Inv(d)
    ensures Inv(FreeEnv(d, e)) <==> BelowTop(d, e)
  {
    hide FreeEnv, FrameOf, Inv;
    IsShaped(d);
    if BelowTop(d, e) {
      FreeEnvIs(d, e);
    } else if page: nat :| 0xEEC0_0000 <= page * 4096 && FrameOf(d, PageOf(e, page)) != 0 {
      PageAboveLeaks(d, e, page);
    } else {
      var i: nat :| 0xEEC0_0000 <= i * 1024 * 4096 && FrameOf(d, TableOf(e, i)) != 0;
      TableAboveLeaks(d, e, i);
    }
  }

  // ----- runs -----

  datatype Op =
    | Add(env: nat, page: nat, c: Content)
    | AddEmpty(env: nat, page: nat)
    | Update(env: nat, page: nat, c: Content)
    | Remove(env: nat, page: nat)
    | PutTable(env: nat, index: nat, c: Content)
    | DropTable(env: nat, index: nat)
    | Free(env: nat)

  function Step(d: Disk, op: Op): (r: Disk)
    requires Shaped(d)
    ensures Shaped(r)
  {
    match op
    case Add(e, page, c) => AddPage(d, e, page, c).0
    case AddEmpty(e, page) => Reserve(d, e, page).0
    case Update(e, page, c) => UpdatePage(d, e, page, c).0
    case Remove(e, page) => RemovePage(d, e, page)
    case PutTable(e, i, c) => WriteTable(d, e, i, c).0
    case DropTable(e, i) => RemoveTable(d, e, i)
    case Free(e) => FreeEnv(d, e)
  }

  function Run(d: Disk, ops: seq<Op>): (r: Disk)
    requires Shaped(d)
    ensures Shaped(r)
  {
    if ops == [] then d else Step(Run(d, ops[..|ops| - 1]), ops[|ops| - 1])
  }

  /** What the code can do without following a null pointer: pf_free_env needs a page directory. */
  ghost predicate Allowed(d: Disk, op: Op) {
    op.Free? ==> op.env in d.pageDirs
  }

  /** The operation is about this place. */
  predicate About(op: Op, q: Place) {
    match op
    case Add(e, page, _) => q == PageOf(e, page)
    case AddEmpty(e, page) => q == PageOf(e, page)
    case Update(e, page, _) => q == PageOf(e, page)
    case Remove(e, page) => q == PageOf(e, page)
    case PutTable(e, i, _) => q == TableOf(e, i)
    case DropTable(e, i) => q == TableOf(e, i)
    case Free(e) => q.env == e
  }

  /** The operation does not free an environment that keeps something at or above USER_TOP. */
  ghost predicate FreesAll(d: Disk, op: Op)
    requires Shaped(d)
  {
    op.Free? ==> BelowTop(d, op.env)
  }

  /**
   One operation conserves the frames if and only if it does not free an
   environment that keeps something at or above USER_TOP, and then what it is not
   about reads as it did.
   */
  lemma StepKeepsIff(d: Disk, op: Op)
    requires Inv(d)
    ensures Shaped(d) && (Inv(Step(d, op)) <==> FreesAll(d, op))
    ensures FreesAll(d, op) ==> forall q: Place :: !About(op, q) ==> ReadBack(Step(d, op), q) == ReadBack(d, q)
  {
    hide Inv, FrameOf, AddPage, UpdatePage, RemovePage, WriteTable, RemoveTable, FreeEnv, Reserve, ReadBack;
    IsShaped(d);
    match op
    case Add(e, page, c) => AddPageIs(d, e, page, c);
    case AddEmpty(e, page) =>
      ReserveIs(d, e, page);
      forall q: Place | q != PageOf(e, page)
        ensures ReadBack(Reserve(d, e, page).0, q) == ReadBack(d, q)
      {
        ReadSame(d, Reserve(d, e, page).0, q);
      }
    case Update(e, page, c) =>
      UpdatePageIs(d, e, page, c);
      UpdateSame(d, e, page, c);
    case Remove(e, page) =>
      RemovePageIs(d, e, page);
      DroppedReads(d, RemovePage(d, e, page), PageOf(e, page));
    case PutTable(e, i, c) => WriteTableIs(d, e, i, c);
    case DropTable(e, i) =>
      RemoveTableIs(d, e, i);
      DroppedReads(d, RemoveTable(d, e, i), TableOf(e, i));
    case Free(e) =>
      FreeEnvKeepsIff(d, e);
      if BelowTop(d, e) {
        FreeEnvIs(d, e);
      }
  }

  lemma UpdateSame(d: Disk, e: nat, page: nat, c: Content)
    requires Shaped(d)
    ensures SamePlaces(d, UpdatePage(d, e, page, c).0)
  {
  }

  lemma DroppedReads(d: Disk, r: Disk, p: Place)
    requires Shaped(d) && Shaped(r) && Dropped(d, r, p)
    ensures forall q: Place :: q != p ==> ReadBack(r, q) == ReadBack(d, q)
  {
    hide Inv, FrameOf;
  }

  /** initialize_disk_page_file: frames 1 .. PAGES_PER_FILE - 1 are free, the highest first. */
  function Initial(): Disk {
    Disk(seq(PAGES_PER_FILE - 1, i requires 0 <= i < PAGES_PER_FILE - 1 => PAGES_PER_FILE - 1 - i), map[], map[], map[])
  }

  lemma InitialInv()
    ensures Inv(Initial()) && |Initial().free| == 133119
  {
    var d := Initial();
    forall f: nat | IsFrame(f)
      ensures f in d.free
    {
      assert d.free[PAGES_PER_FILE - 1 - f] == f;
    }
  }

  /** Every operation of the run can be done, and frees only environments that keep nothing at or above USER_TOP. */
  ghost predicate Legal(d: Disk, ops: seq<Op>)
    requires Shaped(d)
  {
    ops == [] ||
    (var t, op := Run(d, ops[..|ops| - 1]), ops[|ops| - 1];
     Legal(d, ops[..|ops| - 1]) && Allowed(t, op) && FreesAll(t, op))
  }

  /**
   Over every run frames are conserved and no two places share one, pages above
   USER_TOP included; and what is kept at a place reads the same as long as no
   operation is about that place, whatever everybody else adds, writes, removes
   or frees.
   */
  lemma {:induction false} RunKeeps(d: Disk, ops: seq<Op>)
    requires Inv(d) && Shaped(d) && Legal(d, ops)
    ensures Inv(Run(d, ops))
    ensures forall q: Place :: (forall i :: 0 <= i < |ops| ==> !About(ops[i], q)) ==>
                                 ReadBack(Run(d, ops), q) == ReadBack(d, q)
  {
    hide Inv, Step, ReadBack, About, Allowed, FreesAll, Shaped;
    if ops != [] {
      var before, op := ops[..|ops| - 1], ops[|ops| - 1];
      RunKeeps(d, before);
      StepKeepsIff(Run(d, before), op);
      forall q: Place | forall i :: 0 <= i < |ops| ==> !About(ops[i], q)
        ensures ReadBack(Run(d, ops), q) == ReadBack(d, q)
      {
        assert forall i :: 0 <= i < |before| ==> before[i] == ops[i];
        assert !About(op, q);
      }
    }
  }

  // ----- frames are handed on as they are -----

  /** A page reserved without being written reads whatever was last written on the frame it gets. */
  lemma EmptyPageReads(d: Disk, e: nat, page: nat)
    requires Inv(d) && Shaped(d) && FrameOf(d, PageOf(e, page)) == 0 && d.free != []
    ensures var f := d.free[0];
      ReadBack(Reserve(d, e, page).0, PageOf(e, page)) == (Done, if f in d.data then d.data[f] else [])
  {
    ReserveIs(d, e, page);
    var t := WithTable(d, e, page / ENTRIES);
    WithTableSame(d, e, page / ENTRIES);
    SetPageChanges(t, e, page, t.free[0]);
  }

  /** So an environment can read a page another has removed. */
  lemma RemovedPageReadsAgain(d: Disk, a: nat, p: nat, b: nat, q: nat)
    requires Inv(d) && Shaped(d) && FrameOf(d, PageOf(a, p)) != 0 && FrameOf(d, PageOf(b, q)) == 0
    ensures var r := RemovePage(d, a, p);
      Shaped(r) && ReadBack(Reserve(r, b, q).0, PageOf(b, q)) == ReadBack(d, PageOf(a, p))
  {
    var r := RemovePage(d, a, p);
    RemovePageIs(d, a, p);
    IsShaped(r);
    assert r.free == [FrameOf(d, PageOf(a, p))] + d.free && r.data == d.data;
    hide Inv, RemovePage, Reserve;
    EmptyPageReads(r, b, q);
  }
}
