/**
 The three block lists of an allocator and the steps both allocators share.

 Every descriptor of the static array (blocks_info_user, blocks_info) is on
 exactly one of the free list, the taken list and the pool of spare
 descriptors, apart from the ones in `out`, which a step is holding.
 */
module BlockLists {
  import opened Queue
  import opened Blocks
  import opened Tiling

  /** Where insert_sorted puts a block that starts at a. */
  function SortedPosition(bs: seq<Block>, a: int): (k: nat)
    requires |bs| > 0
    ensures k <= |bs|
  {
    if a <= bs[0].start then 0
    else if bs[|bs| - 1].start <= a then |bs|
    else FirstAbove(bs, a)
  }

  function FirstAbove(bs: seq<Block>, a: int): (k: nat)
    ensures k <= |bs|
    ensures forall i :: 0 <= i < k ==> bs[i].start <= a
    ensures k < |bs| ==> a < bs[k].start
  {
    FirstAboveFrom(bs, a, 0)
  }

  function FirstAboveFrom(bs: seq<Block>, a: int, i: nat): (k: nat)
    requires i <= |bs|
    ensures i <= k <= |bs|
    ensures forall j :: i <= j < k ==> bs[j].start <= a
    ensures k < |bs| ==> a < bs[k].start
    decreases |bs| - i
  {
    if i == |bs| || a < bs[i].start then i else FirstAboveFrom(bs, a, i + 1)
  }

  lemma FirstAboveIs(bs: seq<Block>, a: int, i: nat)
    requires i <= |bs| && (forall k :: 0 <= k < i ==> bs[k].start <= a) && (i < |bs| ==> a < bs[i].start)
    ensures FirstAbove(bs, a) == i
  {
  }

  lemma PositionIs(bs: seq<Block>, a: int, i: nat)
    requires i <= |bs| && (forall k :: 0 <= k < i ==> bs[k].start < a) && (i < |bs| ==> a <= bs[i].start)
    ensures Position(bs, a) == i
  {
  }

  /** On a canonical list insert_sorted finds the place that keeps the list sorted. */
  lemma SortedPositionIsPosition(bs: seq<Block>, b: Block)
    requires Canonical(bs) && |bs| > 0 && 0 < b.size && ApartFromAll(bs, b)
    ensures SortedPosition(bs, b.start) == FirstAbove(bs, b.start) == Position(bs, b.start)
  {
    assert forall i :: 0 <= i < |bs| ==> Apart(bs[i], b) && bs[i].start != b.start;
    assert forall i :: 0 <= i < |bs| ==> bs[i].start <= bs[|bs| - 1].start;
    assert forall i :: 0 <= i < |bs| ==> bs[0].start <= bs[i].start;
    assert forall i, j :: 0 <= i < j < |bs| ==> bs[i].start < bs[j].start;
    hide Canonical, ApartFromAll, Position, FirstAbove;
  }

  /** Index of the first block of at least n bytes that starts at or after a. */
  function FitFrom(bs: seq<Block>, n: int, a: int, i: nat): (k: nat)
    requires i <= |bs|
    ensures i <= k <= |bs|
    ensures forall j :: i <= j < k ==> !(n <= bs[j].size && a <= bs[j].start)
    ensures k < |bs| ==> n <= bs[k].size && a <= bs[k].start
    decreases |bs| - i
  {
    if i == |bs| || (n <= bs[i].size && a <= bs[i].start) then i else FitFrom(bs, n, a, i + 1)
  }

  lemma FitFromIs(bs: seq<Block>, n: int, a: int, i: nat)
    requires i <= |bs| && (i < |bs| ==> n <= bs[i].size && a <= bs[i].start)
    requires forall j :: 0 <= j < i ==> !(n <= bs[j].size && a <= bs[j].start)
    ensures FitFrom(bs, n, a, 0) == i
  {
  }

  lemma FirstFitIs(bs: seq<Block>, n: int, i: nat)
    requires i <= |bs| && (i < |bs| ==> n <= bs[i].size) && forall j :: 0 <= j < i ==> bs[j].size < n
    ensures FirstFit(bs, n) == i
  {
  }

  /** Index of the first taken block that starts at va. */
  function TakenAt(taken: seq<Block>, va: int): (j: nat)
    ensures j <= |taken|
    ensures forall i :: 0 <= i < j ==> taken[i].start != va
    ensures j < |taken| ==> taken[j].start == va
  {
    TakenAtFrom(taken, va, 0)
  }

  function TakenAtFrom(taken: seq<Block>, va: int, i: nat): (j: nat)
    requires i <= |taken|
    ensures i <= j <= |taken|
    ensures forall k :: i <= k < j ==> taken[k].start != va
    ensures j < |taken| ==> taken[j].start == va
    decreases |taken| - i
  {
    if i == |taken| || taken[i].start == va then i else TakenAtFrom(taken, va, i + 1)
  }

  lemma TakenAtIs(taken: seq<Block>, va: int, j: nat)
    requires j <= |taken| && (forall k :: 0 <= k < j ==> taken[k].start != va)
    requires j < |taken| ==> taken[j].start == va
    ensures TakenAt(taken, va) == j
  {
  }

  lemma ContentsRemoved(nodes: seq<Node<Block>>, i: nat)
    requires i < |nodes|
    ensures Contents(Removed(nodes, i)) == Without(Contents(nodes), i)
  {
  }

  lemma ContentsInserted(nodes: seq<Node<Block>>, i: nat, elm: Node<Block>)
    requires i <= |nodes|
    ensures Contents(Inserted(nodes, i, elm)) == With(Contents(nodes), i, elm.data)
  {
  }

  ghost predicate Within(nodes: seq<Node<Block>>, s: set<Node<Block>>) {
    forall i {:trigger nodes[i]} :: 0 <= i < |nodes| ==> nodes[i] in s
  }

  method MakePool(count: nat) returns (p: List<Block>, ghost made: set<Node<Block>>)
    ensures fresh(p) && fresh(made) && p.Valid()
    ensures |p.nodes| == |made| == count && Within(p.nodes, made)
  {
    p := new List<Block>();
    made := {};
    for i := 0 to count
      invariant fresh(p) && fresh(made) && p.Valid()
      invariant |p.nodes| == |made| == i && Within(p.nodes, made)
    {
      var d := new Node(Block(0, 0));
      p.InsertHead(d);
      made := made + {d};
    }
  }

  /** The scan of insert_sorted and Coalescing_heap: the neighbours of the first block above a. */
  method SplitAbove(list: List<Block>, a: int) returns (pre: Node?<Block>, nex: Node?<Block>, ghost i: nat)
    requires list.Valid()
    ensures i == FirstAbove(Contents(list.nodes), a) && pre == list.At(i - 1) && nex == list.At(i)
  {
    pre := null;
    nex := list.first;
    i := 0;
    ghost var c := Contents(list.nodes);
    while nex != null && nex.data.start <= a
      invariant i <= |c| && nex == list.At(i) && pre == list.At(i - 1)
      invariant forall k :: 0 <= k < i ==> c[k].start <= a
      decreases |c| - i
    {
      pre := nex;
      nex := nex.next;
      i := i + 1;
    }
    FirstAboveIs(c, a, i);
  }

  /** The scan of Coalescing_heap_user, which compares strictly. */
  method SplitAt(list: List<Block>, a: int) returns (pre: Node?<Block>, nex: Node?<Block>, ghost i: nat)
    requires list.Valid()
    ensures i == Position(Contents(list.nodes), a) && pre == list.At(i - 1) && nex == list.At(i)
  {
    pre := null;
    nex := list.first;
    i := 0;
    ghost var c := Contents(list.nodes);
    while nex != null && nex.data.start < a
      invariant i <= |c| && nex == list.At(i) && pre == list.At(i - 1)
      invariant forall k :: 0 <= k < i ==> c[k].start < a
      decreases |c| - i
    {
      pre := nex;
      nex := nex.next;
      i := i + 1;
    }
    PositionIs(c, a, i);
  }

  /** insert_sorted and insert_sorted_user: the same code in both allocators. */
  method InsertSorted(list: List<Block>, elem: Node<Block>)
    requires list.Valid() && |list.nodes| > 0 && elem !in list.nodes
    modifies list, list.nodes`next, list.nodes`prev, elem`next, elem`prev
    ensures list.Valid()
    ensures list.nodes == Inserted(old(list.nodes), SortedPosition(old(Contents(list.nodes)), elem.data.start), elem)
  {
    ghost var c := Contents(list.nodes);
    var str := list.first;
    var end := list.last;
    if elem.data.start <= str.data.start {
      list.InsertBefore(str, elem, 0);
      return;
    }
    if end.data.start <= elem.data.start {
      list.InsertAfter(end, elem, |c| - 1);
      return;
    }
    ghost var i;
    var pre, nex;
    pre, nex, i := SplitAbove(list, elem.data.start);
    list.InsertAfter(pre, elem, i - 1);
  }

  lemma WithoutReplaced<T>(s: seq<T>, i: nat, x: T)
    requires i < |s|
    ensures Without(s[i := x], i) == Without(s, i)
  {
  }

  // ----- three lists that share out the descriptors -----

  ghost predicate Parts(a: List<Block>, b: List<Block>, c: List<Block>, all: set<Node<Block>>, out: set<Node<Block>>)
    reads a, b, c, a.nodes, b.nodes, c.nodes
  {
    && a != b && a != c && b != c
    && a.Valid() && b.Valid() && c.Valid()
    && Disjoint(a.nodes, b.nodes) && Disjoint(a.nodes, c.nodes) && Disjoint(b.nodes, c.nodes)
    && Within(a.nodes, all - out) && Within(b.nodes, all - out) && Within(c.nodes, all - out)
    && out <= all
    && |a.nodes| + |b.nodes| + |c.nodes| + |out| == |all|
  }

  lemma AnyOrder(a: List<Block>, b: List<Block>, c: List<Block>, all: set<Node<Block>>, out: set<Node<Block>>)
    requires Parts(a, b, c, all, out)
    ensures Parts(b, a, c, all, out) && Parts(c, b, a, all, out)
  {
  }

  /** Bookkeeping after a node left list a, whose nodes were s. */
  lemma AfterRemove(a: List<Block>, b: List<Block>, c: List<Block>, all: set<Node<Block>>,
                    out: set<Node<Block>>, d: Node<Block>, i: nat, s: seq<Node<Block>>)
    requires a != b && a != c && b != c && a.Valid() && b.Valid() && c.Valid()
    requires Disjoint(s, b.nodes) && Disjoint(s, c.nodes) && Disjoint(b.nodes, c.nodes)
    requires Within(s, all - out) && Within(b.nodes, all - out) && Within(c.nodes, all - out) && out <= all
    requires |s| + |b.nodes| + |c.nodes| + |out| == |all|
    requires i < |s| && d == s[i] && a.nodes == Removed(s, i) && d !in a.nodes
    ensures Parts(a, b, c, all, out + {d}) && d !in out
  {
  }

  /** Bookkeeping after held node d joined list a, whose nodes were s. */
  lemma AfterInsert(a: List<Block>, b: List<Block>, c: List<Block>, all: set<Node<Block>>,
                    out: set<Node<Block>>, d: Node<Block>, i: nat, s: seq<Node<Block>>)
    requires a != b && a != c && b != c && a.Valid() && b.Valid() && c.Valid()
    requires Disjoint(s, b.nodes) && Disjoint(s, c.nodes) && Disjoint(b.nodes, c.nodes)
    requires Within(s, all - out) && Within(b.nodes, all - out) && Within(c.nodes, all - out) && out <= all
    requires |s| + |b.nodes| + |c.nodes| + |out| == |all|
    requires d in out && i <= |s| && a.nodes == Inserted(s, i, d)
    ensures Parts(a, b, c, all, out - {d})
  {
  }

  /** LIST_REMOVE on a, with the two lists that do not share nodes with it. */
  method RemoveFrom(a: List<Block>, ghost b: List<Block>, ghost c: List<Block>, d: Node<Block>, ghost i: nat)
    requires a.Valid() && b.Valid() && c.Valid() && a != b && a != c
    requires Disjoint(a.nodes, b.nodes) && Disjoint(a.nodes, c.nodes) && d == a.At(i)
    modifies a, a.nodes`next, a.nodes`prev
    ensures a.Valid() && a.nodes == Removed(old(a.nodes), i) && d !in a.nodes
    ensures Contents(a.nodes) == Without(old(Contents(a.nodes)), i) && d.data == old(d.data)
    ensures b.Valid() && b.nodes == old(b.nodes) && Contents(b.nodes) == old(Contents(b.nodes))
    ensures c.Valid() && c.nodes == old(c.nodes) && Contents(c.nodes) == old(Contents(c.nodes))
  {
    ContentsRemoved(a.nodes, i);
    a.Remove(d, i);
  }

  method InsertSortedOf(a: List<Block>, ghost b: List<Block>, ghost c: List<Block>, d: Node<Block>)
    requires a.Valid() && b.Valid() && c.Valid() && a != b && a != c && |a.nodes| > 0
    requires Disjoint(a.nodes, b.nodes) && Disjoint(a.nodes, c.nodes)
    requires d !in a.nodes && d !in b.nodes && d !in c.nodes
    modifies a, a.nodes`next, a.nodes`prev, d`next, d`prev
    ensures var k := SortedPosition(old(Contents(a.nodes)), d.data.start);
      && a.Valid() && a.nodes == Inserted(old(a.nodes), k, d)
      && Contents(a.nodes) == With(old(Contents(a.nodes)), k, d.data) && d.data == old(d.data)
    ensures b.Valid() && b.nodes == old(b.nodes) && Contents(b.nodes) == old(Contents(b.nodes))
    ensures c.Valid() && c.nodes == old(c.nodes) && Contents(c.nodes) == old(Contents(c.nodes))
  {
    hide SortedPosition, Inserted, Distinct, With, List<Block>.Valid;
    ContentsInserted(a.nodes, SortedPosition(Contents(a.nodes), d.data.start), d);
    InsertSorted(a, d);
  }

  method InsertHeadOf(a: List<Block>, ghost b: List<Block>, ghost c: List<Block>, d: Node<Block>)
    requires a.Valid() && b.Valid() && c.Valid() && a != b && a != c
    requires Disjoint(a.nodes, b.nodes) && Disjoint(a.nodes, c.nodes)
    requires d !in a.nodes && d !in b.nodes && d !in c.nodes
    modifies a, a.nodes`next, a.nodes`prev, d`next, d`prev
    ensures a.Valid() && a.nodes == Inserted(old(a.nodes), 0, d)
    ensures Contents(a.nodes) == With(old(Contents(a.nodes)), 0, d.data) && d.data == old(d.data)
    ensures b.Valid() && b.nodes == old(b.nodes) && Contents(b.nodes) == old(Contents(b.nodes))
    ensures c.Valid() && c.nodes == old(c.nodes) && Contents(c.nodes) == old(Contents(c.nodes))
  {
    ContentsInserted(a.nodes, 0, d);
    a.InsertHead(d);
  }

  /** Next fit after i blocks: none of them was chosen, and the first that is large enough is at k, if any. */
  ghost predicate Scanned(c: seq<Block>, size: int, last: int, i: nat, k: nat) {
    && i <= |c| && k <= |c|
    && (forall j :: 0 <= j < i ==> !(size <= c[j].size && last <= c[j].start))
    && (forall j :: 0 <= j < i && j < k ==> c[j].size < size)
    && (k < |c| ==> k < i && size <= c[k].size)
  }

  lemma ScanStart(c: seq<Block>, size: int, last: int)
    ensures Scanned(c, size, last, 0, |c|)
  {
  }

  /** One turn of the scan; on an address-sorted list a later block never replaces the one kept. */
  lemma ScanNext(c: seq<Block>, size: int, last: int, i: nat, k: nat)
    requires Canonical(c) && Scanned(c, size, last, i, k) && i < |c|
    ensures c[i].size < size ==> Scanned(c, size, last, i + 1, k)
    ensures size <= c[i].size && c[i].start < last && k == |c| ==> Scanned(c, size, last, i + 1, i)
    ensures size <= c[i].size && c[i].start < last && k < |c| ==> c[k].start < c[i].start && Scanned(c, size, last, i + 1, k)
  {
  }

  /** The scan ends at the block next fit takes. */
  lemma ScanEnd(c: seq<Block>, size: int, last: int, i: nat, k: nat)
    requires Scanned(c, size, last, i, k) && (i < |c| ==> size <= c[i].size && last <= c[i].start)
    ensures i == FitFrom(c, size, last, 0)
    ensures i == |c| ==> k == FirstFit(c, size)
  {
    FitFromIs(c, size, last, i);
    if i == |c| {
      FirstFitIs(c, size, k);
    }
  }

  class BlockLists {
    const free: List<Block>
    const taken: List<Block>
    const pool: List<Block>
    ghost const all: set<Node<Block>>

    ghost predicate ValidBut(out: set<Node<Block>>)
      reads free, taken, pool, free.nodes, taken.nodes, pool.nodes
    {
      Parts(free, taken, pool, all, out)
    }

    ghost function View(): (h: Heap)
      reads free, taken, free.nodes, taken.nodes
    {
      Heap(Contents(free.nodes), Contents(taken.nodes))
    }

    ghost function Spare(): nat
      reads pool
    {
      |pool.nodes|
    }

    ghost function Frame(): set<object> {
      {free, taken, pool} + all
    }

    /** LIST_INIT of the three lists, then every descriptor goes to the head of the pool. */
    constructor (count: nat)
      ensures ValidBut({}) && fresh(Frame())
      ensures View() == Heap([], []) && Spare() == |all| == count
    {
      var f := new List<Block>();
      var t := new List<Block>();
      var p: List<Block>;
      ghost var made;
      p, made := MakePool(count);
      free, taken, pool, all := f, t, p, made;
    }

    /** allocate_block and k_allocate_block: null stands for the panic on an empty pool. */
    method AllocateBlock(ghost out: set<Node<Block>>) returns (d: Node?<Block>)
      requires ValidBut(out)
      modifies Frame()
      ensures View() == old(View())
      ensures d == null <==> old(Spare()) == 0
      ensures d == null ==> ValidBut(out) && Spare() == 0
      ensures d != null ==> d in all && d !in out && ValidBut(out + {d}) && Spare() == old(Spare()) - 1
    {
      d := pool.first;
      if d != null {
        ghost var s := pool.nodes;
        RemoveFrom(pool, taken, free, d, 0);
        AfterRemove(pool, taken, free, all, out, d, 0, s);
        AnyOrder(pool, taken, free, all, out + {d});
      }
    }

    /** Overwrite a descriptor that is on no list. */
    method Write(d: Node<Block>, b: Block, ghost out: set<Node<Block>>)
      requires d in out && ValidBut(out)
      modifies d
      ensures ValidBut(out) && View() == old(View()) && Spare() == old(Spare()) && d.data == b
    {
      d.data := b;
      d.next := null;
      d.prev := null;
    }

    /** A descriptor that is no longer needed: cleared and pushed on the pool. */
    method Retire(d: Node<Block>, ghost out: set<Node<Block>>)
      requires d in out && ValidBut(out)
      modifies Frame()
      ensures ValidBut(out - {d}) && View() == old(View()) && Spare() == old(Spare()) + 1
    {
      Write(d, Block(0, 0), out);
      LinkPool(d, out);
    }

    method LinkPool(d: Node<Block>, ghost out: set<Node<Block>>)
      requires d in out && ValidBut(out)
      modifies Frame()
      ensures ValidBut(out - {d}) && View() == old(View()) && Spare() == old(Spare()) + 1
    {
      ghost var s := pool.nodes;
      InsertHeadOf(pool, taken, free, d);
      AfterInsert(pool, taken, free, all, out, d, 0, s);
      AnyOrder(pool, taken, free, all, out - {d});
    }

    /** The search loop of first fit. */
    method Search(size: int) returns (found: Node?<Block>, ghost i: nat)
      requires ValidBut({})
      ensures i == FirstFit(View().free, size) && found == free.At(i)
      ensures found == null <==> i == |View().free|
      ensures found != null ==> found.data == View().free[i]
    {
      found := free.first;
      i := 0;
      while found != null && found.data.size < size
        invariant i <= |free.nodes| && found == free.At(i)
        invariant forall k :: 0 <= k < i ==> free.nodes[k].data.size < size
        decreases |free.nodes| - i
      {
        found := found.next;
        i := i + 1;
      }
    }

    /** The search loop of free and kfree: the first taken block that starts at va. */
    method FindTaken(va: int) returns (found: Node?<Block>, ghost j: nat)
      requires ValidBut({})
      ensures j == TakenAt(View().taken, va) && found == taken.At(j)
      ensures found == null <==> j == |View().taken|
      ensures found != null ==> found.data == View().taken[j]
    {
      found := taken.first;
      j := 0;
      ghost var c := View().taken;
      while found != null && found.data.start != va
        invariant j <= |c| && found == taken.At(j)
        invariant forall k :: 0 <= k < j ==> c[k].start != va
        decreases |c| - j
      {
        found := found.next;
        j := j + 1;
      }
      TakenAtIs(c, va, j);
    }

    method NoFree(ghost out: set<Node<Block>>) returns (empty: bool)
      requires ValidBut(out)
      ensures empty <==> |View().free| == 0
    {
      empty := free.first == null;
    }

    /** First and last free block. */
    method Ends(ghost out: set<Node<Block>>) returns (str: Node<Block>, end: Node<Block>)
      requires ValidBut(out) && |View().free| > 0
      ensures var f := View().free;
        && str == free.At(0) && str.data == f[0]
        && end == free.At(|f| - 1) && end.data == f[|f| - 1]
    {
      str, end := free.first, free.last;
    }

    /** The free blocks on both sides of address a. */
    method Sides(a: int, ghost out: set<Node<Block>>) returns (pre: Node?<Block>, nex: Node?<Block>, ghost k: nat)
      requires ValidBut(out)
      ensures var f := View().free;
        && k == Position(f, a) && k <= |f| && pre == free.At(k - 1) && nex == free.At(k)
        && (pre == null <==> k == 0) && (nex == null <==> k == |f|)
        && (k > 0 ==> pre.data == f[k - 1]) && (k < |f| ==> nex.data == f[k])
    {
      pre, nex, k := SplitAt(free, a);
    }

    /** Overwrite start_va and size of a free block. */
    method SetFree(d: Node<Block>, b: Block, ghost i: nat, ghost out: set<Node<Block>>)
      requires ValidBut(out) && d == free.At(i)
      modifies Frame()
      ensures ValidBut(out) && View() == old(Heap(View().free[i := b], View().taken)) && Spare() == old(Spare())
      ensures free.nodes == old(free.nodes) && d.data == b
    {
      d.data := b;
      assert forall k :: 0 <= k < |free.nodes| && k != i ==> free.nodes[k] != d;
    }

    /** LIST_REMOVE from the free list; the descriptor is then held by the caller. */
    method UnlinkFree(d: Node<Block>, ghost i: nat, ghost out: set<Node<Block>>)
      requires ValidBut(out) && d == free.At(i)
      modifies Frame()
      ensures ValidBut(out + {d}) && View() == old(Heap(Without(View().free, i), View().taken)) && Spare() == old(Spare())
      ensures d !in out && free.nodes == Removed(old(free.nodes), i)
    {
      ghost var s := free.nodes;
      RemoveFrom(free, taken, pool, d, i);
      AfterRemove(free, taken, pool, all, out, d, i, s);
    }

    /** LIST_REMOVE from the taken list. */
    method UnlinkTaken(d: Node<Block>, ghost j: nat)
      requires ValidBut({}) && d == taken.At(j)
      modifies Frame()
      ensures ValidBut({} + {d}) && View() == old(Heap(View().free, Without(View().taken, j))) && Spare() == old(Spare())
      ensures d.data == old(View().taken[j])
    {
      ghost var s := taken.nodes;
      RemoveFrom(taken, free, pool, d, j);
      AfterRemove(taken, free, pool, all, {}, d, j, s);
      AnyOrder(taken, free, pool, all, {} + {d});
    }

    /** LIST_INSERT_HEAD on the taken list. */
    method LinkTaken(d: Node<Block>, ghost out: set<Node<Block>>)
      requires d in out && ValidBut(out)
      modifies Frame()
      ensures ValidBut(out - {d}) && View() == old(Heap(View().free, With(View().taken, 0, d.data)))
      ensures Spare() == old(Spare())
    {
      ghost var s := taken.nodes;
      InsertHeadOf(taken, free, pool, d);
      AfterInsert(taken, free, pool, all, out, d, 0, s);
      AnyOrder(taken, free, pool, all, out - {d});
    }

    /** LIST_INSERT_HEAD on the free list. */
    method LinkFree(d: Node<Block>, ghost out: set<Node<Block>>)
      requires d in out && ValidBut(out)
      modifies Frame()
      ensures ValidBut(out - {d}) && View() == old(Heap(With(View().free, 0, d.data), View().taken))
      ensures Spare() == old(Spare())
    {
      ghost var s := free.nodes;
      InsertHeadOf(free, taken, pool, d);
      AfterInsert(free, taken, pool, all, out, d, 0, s);
    }

    /** insert_sorted on the free list. */
    method LinkFreeSorted(d: Node<Block>)
      requires ValidBut({} + {d}) && |View().free| > 0
      requires Canonical(View().free) && 0 < d.data.size && ApartFromAll(View().free, d.data)
      modifies Frame()
      ensures ValidBut({})
      ensures View() == old(Heap(With(View().free, Position(View().free, d.data.start), d.data), View().taken))
      ensures Spare() == old(Spare())
    {
      SortedPositionIsPosition(View().free, d.data);
      ghost var s := free.nodes;
      InsertSortedOf(free, taken, pool, d);
      AfterInsert(free, taken, pool, all, {} + {d}, d, Position(old(View().free), d.data.start), s);
      assert {} + {d} - {d} == {};
    }

    /** Grow free block i over a held block, which is then retired. */
    method Absorb(into: Node<Block>, b: Block, take: Node<Block>, ghost i: nat, ghost out: set<Node<Block>>)
      requires ValidBut(out) && take in out && into == free.At(i)
      modifies Frame()
      ensures ValidBut(out - {take}) && View() == old(Heap(View().free[i := b], View().taken))
      ensures Spare() == old(Spare()) + 1
    {
      hide *;
      SetFree(into, b, i, out);
      Retire(take, out);
    }

    /** The branch in which the freed block closes the gap between two free blocks. */
    method JoinNeighbours(take: Node<Block>, pre: Node<Block>, nex: Node<Block>, joined: Block, ghost k: nat)
      requires ValidBut({} + {take}) && 0 < k && pre == free.At(k - 1) && nex == free.At(k)
      modifies Frame()
      ensures ValidBut({})
      ensures View() == old(Heap(Without(View().free, k)[k - 1 := joined], View().taken))
      ensures Spare() == old(Spare()) + 2
    {
      hide ValidBut, View, Spare, Contents;
      UnlinkFree(nex, k, {} + {take});
      Absorb(pre, joined, take, k - 1, {} + {take} + {nex});
      Retire(nex, {} + {take} + {nex} - {take});
      assert {} + {take} + {nex} - {take} - {nex} == {};
    }

    /** The search loop of next fit, over a sorted list. */
    method SearchNext(size: int, last: int) returns (after: Node?<Block>, before: Node?<Block>, ghost i: nat, ghost k: nat)
      requires ValidBut({}) && Canonical(View().free)
      ensures i == FitFrom(View().free, size, last, 0) && after == free.At(i)
      ensures after != null ==> after.data == View().free[i]
      ensures after == null <==> i == |View().free|
      ensures after == null ==> k == FirstFit(View().free, size) && before == free.At(k)
      ensures after == null && before != null ==> before.data == View().free[k]
    {
      hide *;
      ghost var c := View().free;
      FreeEnds();
      var bi := free.first;
      after, before := null, null;
      i, k := 0, |c|;
      ScanStart(c, size, last);
      while bi != null
        invariant i <= |c| && bi == free.At(i) && after == null && k <= |c| && before == free.At(k)
        invariant Scanned(c, size, last, i, k)
        decreases |c| - i
      {
        FreeNode(i);
        FreeNode(k);
        ScanNext(c, size, last, i, k);
        if size <= bi.data.size {
          if last <= bi.data.start {
            after := bi;
            break;
          } else if before == null {
            before := bi;
            k := i;
          } else if bi.data.start <= before.data.start {
            before := bi;
            k := i;
          }
        }
        bi := bi.next;
        i := i + 1;
      }
      FreeNode(i);
      FreeNode(k);
      ScanEnd(c, size, last, i, k);
    }

    lemma FreeEnds()
      requires ValidBut({})
      ensures free.first == free.At(0) && free.At(|View().free|) == null
    {
    }

    /** What the loop sees at index i of the free list. */
    lemma FreeNode(i: nat)
      requires ValidBut({}) && i <= |View().free|
      ensures free.At(i) == null <==> i == |View().free|
      ensures i < |View().free| ==> free.At(i).data == View().free[i] && free.At(i).next == free.At(i + 1)
    {
    }

    /** The free blocks on both sides of address a, as the kernel's scan finds them. */
    method SidesAbove(a: int, ghost out: set<Node<Block>>) returns (pre: Node?<Block>, nex: Node?<Block>, ghost k: nat)
      requires ValidBut(out)
      ensures var f := View().free;
        && k == FirstAbove(f, a) && k <= |f| && pre == free.At(k - 1) && nex == free.At(k)
        && (pre == null <==> k == 0) && (nex == null <==> k == |f|)
        && (k > 0 ==> pre.data == f[k - 1]) && (k < |f| ==> nex.data == f[k])
    {
      pre, nex, k := SplitAbove(free, a);
    }

    method NoTaken(ghost out: set<Node<Block>>) returns (empty: bool)
      requires ValidBut(out)
      ensures empty <==> |View().taken| == 0
    {
      empty := taken.first == null;
    }

    /** insert_sorted on the taken list, which need not be sorted. */
    method LinkTakenSorted(d: Node<Block>)
      requires ValidBut({} + {d}) && |View().taken| > 0
      modifies Frame()
      ensures ValidBut({})
      ensures View() == old(Heap(View().free, With(View().taken, SortedPosition(View().taken, d.data.start), d.data)))
      ensures Spare() == old(Spare())
    {
      ghost var s := taken.nodes;
      ghost var k := SortedPosition(View().taken, d.data.start);
      InsertSortedOf(taken, free, pool, d);
      AfterInsert(taken, free, pool, all, {} + {d}, d, k, s);
      AnyOrder(taken, free, pool, all, {} + {d} - {d});
      assert {} + {d} - {d} == {};
    }

    /** Take size bytes from the front of a free block; an emptied block is retired. */
    method CarveFront(found: Node<Block>, size: int, ghost i: nat)
      requires ValidBut({}) && found == free.At(i)
      modifies Frame()
      ensures ValidBut({}) && View() == old(Heap(Carve(View().free, i, size), View().taken))
      ensures Spare() == old(Spare() + if View().free[i].size == size then 1 else 0)
    {
      ghost var was := View().free;
      assert was[i] == found.data;
      var b := Block(found.data.start + size, found.data.size - size);
      ghost var target := Carve(was, i, size);
      WithoutReplaced(was, i, b);
      assert was[i].size == size ==> target == Without(was[i := b], i);
      assert was[i].size != size ==> target == was[i := b];
      hide *;
      SetFree(found, b, i, {});
      if found.data.size == 0 {
        UnlinkFree(found, i, {});
        Retire(found, {} + {found});
        assert {} + {found} - {found} == {};
      }
    }
  }
}
