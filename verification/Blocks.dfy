/**
 Address blocks and block lists: the values both heap allocators work on.

 A free list is canonical when its blocks are non-empty, sorted by address and
 never touch.  A canonical list is a normal form of the set of addresses it
 covers, which is why a search over the list can be compared with a search over
 addresses.
 */
module Blocks {

  const PAGE_SIZE: int := 4096
  const WORD: int := 0x1_0000_0000

  /** struct Block_Info without its links: start_va and size. */
  datatype Block = Block(start: int, size: int) {
    function End(): int { start + size }

    predicate Has(a: int) { start <= a < start + size }
  }

  predicate Aligned(a: int) { a % PAGE_SIZE == 0 }

  /** ROUNDUP(size, PAGE_SIZE) on uint32: the addition wraps. */
  function RoundUp(size: int): (r: int)
    requires 0 <= size < WORD
    ensures 0 <= r < WORD && Aligned(r)
    ensures 0 < size <= WORD - PAGE_SIZE ==> size <= r < size + PAGE_SIZE
    ensures r == 0 <==> size == 0 || WORD - PAGE_SIZE < size
  {
    var t := (size + PAGE_SIZE - 1) % WORD;
    t - t % PAGE_SIZE
  }

  ghost predicate Covered(bs: seq<Block>, a: int) {
    exists i :: 0 <= i < |bs| && bs[i].Has(a)
  }

  ghost predicate Canonical(bs: seq<Block>) {
    && (forall i :: 0 <= i < |bs| ==> 0 < bs[i].size)
    && (forall i, j :: 0 <= i < j < |bs| ==> bs[i].End() < bs[j].start)
  }

  ghost predicate Apart(b: Block, c: Block) {
    b.End() <= c.start || c.End() <= b.start
  }

  /** Every address of [a, a + n) is covered. */
  ghost predicate AllCovered(bs: seq<Block>, a: int, n: int) {
    forall x :: a <= x < a + n ==> Covered(bs, x)
  }

  function Without<T>(s: seq<T>, i: nat): (r: seq<T>)
    requires i < |s|
    ensures |r| == |s| - 1
    ensures forall k {:trigger r[k]} :: 0 <= k < |r| ==> r[k] == s[if k < i then k else k + 1]
  {
    s[..i] + s[i + 1..]
  }

  lemma WithoutMultiset<T>(s: seq<T>, i: nat)
    requires i < |s|
    ensures multiset(s) == multiset(Without(s, i)) + multiset{s[i]}
  {
    assert s == s[..i] + [s[i]] + s[i + 1..];
  }

  function With<T>(s: seq<T>, i: nat, x: T): (r: seq<T>)
    requires i <= |s|
    ensures |r| == |s| + 1 && r[i] == x
    ensures forall k {:trigger r[k]} :: 0 <= k < |r| && k != i ==> r[k] == s[if k < i then k else k - 1]
  {
    s[..i] + [x] + s[i..]
  }

  // ----- the canonical list is determined by what it covers -----

  /** A fully covered interval lies inside one block: blocks never touch. */
  lemma IntervalInOneBlock(bs: seq<Block>, a: int, n: int) returns (i: nat)
    requires Canonical(bs) && 0 < n && AllCovered(bs, a, n)
    ensures i < |bs| && bs[i].start <= a && a + n <= bs[i].End()
  {
    assert Covered(bs, a);
    i :| i < |bs| && bs[i].Has(a);
    var x := bs[i].End();
    assert forall j :: 0 <= j < |bs| ==> !bs[j].Has(x);
    assert x < a + n ==> Covered(bs, x);
  }

  lemma BlockCovered(bs: seq<Block>, i: nat)
    requires i < |bs|
    ensures AllCovered(bs, bs[i].start, bs[i].size)
  {
    forall x | bs[i].start <= x < bs[i].start + bs[i].size
      ensures Covered(bs, x)
    {
      assert bs[i].Has(x);
    }
  }

  ghost predicate SameCover(ps: seq<Block>, bs: seq<Block>) {
    forall x :: Covered(ps, x) <==> Covered(bs, x)
  }

  lemma SameHead(ps: seq<Block>, bs: seq<Block>)
    requires Canonical(ps) && Canonical(bs) && SameCover(ps, bs) && |ps| > 0
    ensures |bs| > 0 && ps[0] == bs[0]
  {
    BlockCovered(ps, 0);
    assert AllCovered(bs, ps[0].start, ps[0].size);
    var i := IntervalInOneBlock(bs, ps[0].start, ps[0].size);
    BlockCovered(bs, 0);
    assert AllCovered(ps, bs[0].start, bs[0].size);
    var j := IntervalInOneBlock(ps, bs[0].start, bs[0].size);
  }

  lemma TailCover(bs: seq<Block>, x: int)
    requires Canonical(bs) && |bs| > 0
    ensures Canonical(bs[1..])
    ensures Covered(bs[1..], x) <==> Covered(bs, x) && bs[0].End() <= x
  {
    if Covered(bs[1..], x) {
      var i :| 0 <= i < |bs[1..]| && bs[1..][i].Has(x);
      assert bs[i + 1].Has(x);
    }
    if Covered(bs, x) && bs[0].End() <= x {
      var i :| 0 <= i < |bs| && bs[i].Has(x);
      assert bs[1..][i - 1].Has(x);
    }
  }

  /** The normal-form theorem: equal cover, equal list. */
  lemma {:induction false} CanonicalUnique(ps: seq<Block>, bs: seq<Block>)
    requires Canonical(ps) && Canonical(bs) && SameCover(ps, bs)
    ensures ps == bs
  {
    if |ps| == 0 {
      if |bs| > 0 {
        SameHead(bs, ps);
      }
    } else {
      SameHead(ps, bs);
      forall x
        ensures Covered(ps[1..], x) <==> Covered(bs[1..], x)
      {
        TailCover(ps, x);
        TailCover(bs, x);
      }
      TailCover(ps, 0);
      TailCover(bs, 0);
      CanonicalUnique(ps[1..], bs[1..]);
      assert ps == [ps[0]] + ps[1..] && bs == [bs[0]] + bs[1..];
    }
  }

  // ----- list surgery and what it covers -----

  ghost predicate Fits(bs: seq<Block>, k: int, b: Block)
    requires 0 <= k <= |bs|
  {
    0 < b.size && (k > 0 ==> bs[k - 1].End() < b.start) && (k < |bs| ==> b.End() < bs[k].start)
  }

  lemma WithoutCanonical(bs: seq<Block>, i: nat)
    requires Canonical(bs) && i < |bs|
    ensures Canonical(Without(bs, i))
  {
  }

  lemma WithCanonical(bs: seq<Block>, k: nat, b: Block)
    requires Canonical(bs) && k <= |bs| && Fits(bs, k, b)
    ensures Canonical(With(bs, k, b))
  {
    forall i | 0 <= i < k
      ensures bs[i].End() < b.start
    {
      assert i == k - 1 || bs[i].End() < bs[k - 1].start;
    }
    forall i | k <= i < |bs|
      ensures b.End() < bs[i].start
    {
      assert i == k || bs[k].End() < bs[i].start;
    }
  }

  ghost predicate OnlyHolder(bs: seq<Block>, i: nat, x: int)
    requires i < |bs|
  {
    bs[i].Has(x) ==> forall j :: 0 <= j < |bs| && j != i ==> !bs[j].Has(x)
  }

  lemma CoverWithout(bs: seq<Block>, i: nat, x: int)
    requires i < |bs| && OnlyHolder(bs, i, x)
    ensures Covered(Without(bs, i), x) <==> Covered(bs, x) && !bs[i].Has(x)
  {
    var r := Without(bs, i);
    if Covered(r, x) {
      var k :| 0 <= k < |r| && r[k].Has(x);
      assert bs[if k < i then k else k + 1].Has(x);
    }
    if Covered(bs, x) && !bs[i].Has(x) {
      var j :| 0 <= j < |bs| && bs[j].Has(x);
      assert r[if j < i then j else j - 1].Has(x);
    }
  }

  lemma WithoutCover(bs: seq<Block>, i: nat, x: int)
    requires Canonical(bs) && i < |bs|
    ensures Covered(Without(bs, i), x) <==> Covered(bs, x) && !bs[i].Has(x)
  {
    assert OnlyHolder(bs, i, x);
    CoverWithout(bs, i, x);
  }

  lemma WithCover(bs: seq<Block>, k: nat, b: Block, x: int)
    requires k <= |bs|
    ensures Covered(With(bs, k, b), x) <==> Covered(bs, x) || b.Has(x)
  {
    var r := With(bs, k, b);
    if Covered(bs, x) {
      var i :| 0 <= i < |bs| && bs[i].Has(x);
      assert r[if i < k then i else i + 1].Has(x);
    }
    if b.Has(x) {
      assert r[k].Has(x);
    }
    if Covered(r, x) && !b.Has(x) {
      var j :| 0 <= j < |r| && r[j].Has(x);
      assert bs[if j < k then j else j - 1].Has(x);
    }
  }

  /** Replacing a block is taking it out and putting another in at the same place. */
  lemma ReplaceCanonical(bs: seq<Block>, i: nat, b: Block)
    requires Canonical(bs) && i < |bs| && Fits(Without(bs, i), i, b)
    ensures Canonical(bs[i := b])
  {
    WithoutCanonical(bs, i);
    WithCanonical(Without(bs, i), i, b);
    assert bs[i := b] == With(Without(bs, i), i, b);
  }

  lemma ReplaceCover(bs: seq<Block>, i: nat, b: Block, x: int)
    requires Canonical(bs) && i < |bs|
    ensures Covered(bs[i := b], x) <==> (Covered(bs, x) && !bs[i].Has(x)) || b.Has(x)
  {
    WithoutCover(bs, i, x);
    WithCover(Without(bs, i), i, b, x);
    assert bs[i := b] == With(Without(bs, i), i, b);
  }

  // ----- carving a block -----

  /** Take n bytes from the front of block i; an emptied block leaves the list. */
  function Carve(bs: seq<Block>, i: nat, n: int): (r: seq<Block>)
    requires i < |bs|
  {
    if bs[i].size == n then Without(bs, i)
    else bs[i := Block(bs[i].start + n, bs[i].size - n)]
  }

  lemma CarveCanonical(bs: seq<Block>, i: nat, n: int)
    requires Canonical(bs) && i < |bs| && 0 <= n <= bs[i].size
    ensures Canonical(Carve(bs, i, n))
  {
    if bs[i].size == n {
      WithoutCanonical(bs, i);
    } else {
      ReplaceCanonical(bs, i, Block(bs[i].start + n, bs[i].size - n));
    }
  }

  lemma CarveCover(bs: seq<Block>, i: nat, n: int, x: int)
    requires Canonical(bs) && i < |bs| && 0 <= n <= bs[i].size
    ensures Covered(Carve(bs, i, n), x) <==> Covered(bs, x) && !Block(bs[i].start, n).Has(x)
  {
    if bs[i].size == n {
      WithoutCover(bs, i, x);
    } else {
      ReplaceCover(bs, i, Block(bs[i].start + n, bs[i].size - n), x);
      assert bs[i].Has(x) ==> Covered(bs, x);
    }
  }

  // ----- putting a block back -----

  /** Index of the first block that starts at or after a. */
  function Position(bs: seq<Block>, a: int): (k: nat)
    ensures k <= |bs|
    ensures forall i :: 0 <= i < k ==> bs[i].start < a
    ensures k < |bs| ==> a <= bs[k].start
  {
    PositionFrom(bs, a, 0)
  }

  function PositionFrom(bs: seq<Block>, a: int, i: nat): (k: nat)
    requires i <= |bs|
    ensures i <= k <= |bs|
    ensures forall j :: i <= j < k ==> bs[j].start < a
    ensures k < |bs| ==> a <= bs[k].start
    decreases |bs| - i
  {
    if i == |bs| || a <= bs[i].start then i else PositionFrom(bs, a, i + 1)
  }

  predicate TouchesLeft(bs: seq<Block>, b: Block) {
    var k := Position(bs, b.start);
    k > 0 && bs[k - 1].End() == b.start
  }

  predicate TouchesRight(bs: seq<Block>, b: Block) {
    var k := Position(bs, b.start);
    k < |bs| && b.End() == bs[k].start
  }

  /** Put b back, merging it with the neighbours it touches. */
  function Merge(bs: seq<Block>, b: Block): (r: seq<Block>) {
    var k := Position(bs, b.start);
    if TouchesLeft(bs, b) && TouchesRight(bs, b) then
      Without(bs, k)[k - 1 := Block(bs[k - 1].start, bs[k - 1].size + b.size + bs[k].size)]
    else if TouchesRight(bs, b) then bs[k := Block(b.start, bs[k].size + b.size)]
    else if TouchesLeft(bs, b) then bs[k - 1 := Block(bs[k - 1].start, bs[k - 1].size + b.size)]
    else With(bs, k, b)
  }

  ghost predicate ApartFromAll(bs: seq<Block>, b: Block) {
    forall i :: 0 <= i < |bs| ==> Apart(bs[i], b)
  }

  lemma Neighbours(bs: seq<Block>, b: Block)
    requires Canonical(bs) && 0 < b.size && ApartFromAll(bs, b)
    ensures var k := Position(bs, b.start);
      && (k > 0 ==> bs[k - 1].End() <= b.start && 0 < bs[k - 1].size)
      && (k < |bs| ==> b.End() <= bs[k].start && 0 < bs[k].size)
      && (0 < k < |bs| ==> bs[k - 1].End() < bs[k].start)
  {
    var k := Position(bs, b.start);
    assert k > 0 ==> Apart(bs[k - 1], b);
    assert k < |bs| ==> Apart(bs[k], b) && 0 < bs[k].size;
  }

  lemma JoinCanonical(bs: seq<Block>, k: nat, c: Block)
    requires Canonical(bs) && 0 < k < |bs| && c.start == bs[k - 1].start && c.End() == bs[k].End()
    ensures Canonical(Without(bs, k)[k - 1 := c])
  {
    WithoutCanonical(bs, k);
    var rest := Without(Without(bs, k), k - 1);
    assert k - 1 > 0 ==> rest[k - 2] == bs[k - 2];
    assert k - 1 < |rest| ==> rest[k - 1] == bs[k + 1];
    ReplaceCanonical(Without(bs, k), k - 1, c);
  }

  /** A block may grow on both sides as long as it keeps clear of its neighbours. */
  lemma GrowCanonical(bs: seq<Block>, k: nat, c: Block)
    requires Canonical(bs) && k < |bs| && c.start <= bs[k].start && bs[k].End() <= c.End()
    requires k > 0 && c.start < bs[k].start ==> bs[k - 1].End() < c.start
    requires k + 1 < |bs| && bs[k].End() < c.End() ==> c.End() < bs[k + 1].start
    requires 0 < c.size
    ensures Canonical(bs[k := c])
  {
    var rest := Without(bs, k);
    assert k > 0 ==> rest[k - 1] == bs[k - 1];
    assert k < |rest| ==> rest[k] == bs[k + 1];
    ReplaceCanonical(bs, k, c);
  }

  lemma MergeCanonical(bs: seq<Block>, b: Block)
    requires Canonical(bs) && 0 < b.size && ApartFromAll(bs, b)
    ensures Canonical(Merge(bs, b))
  {
    Neighbours(bs, b);
    var k := Position(bs, b.start);
    var r := Merge(bs, b);
    hide Canonical, Position, ApartFromAll;
    if TouchesLeft(bs, b) && TouchesRight(bs, b) {
      var c := Block(bs[k - 1].start, bs[k - 1].size + b.size + bs[k].size);
      assert r == Without(bs, k)[k - 1 := c];
      assert Canonical(r) by { JoinCanonical(bs, k, c); }
    } else if TouchesRight(bs, b) {
      var c := Block(b.start, bs[k].size + b.size);
      assert r == bs[k := c];
      assert Canonical(r) by { GrowCanonical(bs, k, c); }
    } else if TouchesLeft(bs, b) {
      var c := Block(bs[k - 1].start, bs[k - 1].size + b.size);
      assert r == bs[k - 1 := c];
      assert Canonical(r) by { GrowCanonical(bs, k - 1, c); }
    } else {
      assert r == With(bs, k, b);
      assert Canonical(r) by { WithCanonical(bs, k, b); }
    }
  }

  lemma JoinCover(bs: seq<Block>, k: nat, c: Block, x: int)
    requires Canonical(bs) && 0 < k < |bs|
    ensures Covered(Without(bs, k)[k - 1 := c], x) <==>
            (Covered(bs, x) && !bs[k - 1].Has(x) && !bs[k].Has(x)) || c.Has(x)
  {
    WithoutCanonical(bs, k);
    WithoutCover(bs, k, x);
    ReplaceCover(Without(bs, k), k - 1, c, x);
  }

  lemma MergeCover(bs: seq<Block>, b: Block, x: int)
    requires Canonical(bs) && 0 <= b.size && ApartFromAll(bs, b)
    ensures Covered(Merge(bs, b), x) <==> Covered(bs, x) || b.Has(x)
  {
    var k := Position(bs, b.start);
    var r := Merge(bs, b);
    assert forall i :: 0 <= i < |bs| && bs[i].Has(x) ==> Covered(bs, x);
    if TouchesLeft(bs, b) && TouchesRight(bs, b) {
      var c := Block(bs[k - 1].start, bs[k - 1].size + b.size + bs[k].size);
      assert r == Without(bs, k)[k - 1 := c];
      JoinCover(bs, k, c, x);
    } else if TouchesRight(bs, b) {
      var c := Block(b.start, bs[k].size + b.size);
      assert r == bs[k := c];
      ReplaceCover(bs, k, c, x);
    } else if TouchesLeft(bs, b) {
      var c := Block(bs[k - 1].start, bs[k - 1].size + b.size);
      assert r == bs[k - 1 := c];
      ReplaceCover(bs, k - 1, c, x);
    } else {
      assert r == With(bs, k, b);
      WithCover(bs, k, b, x);
    }
  }

  /** A block that ends where the list begins extends the first block. */
  lemma MergeFront(bs: seq<Block>, b: Block)
    requires |bs| > 0 && b.start <= bs[0].start && b.End() == bs[0].start
    ensures Merge(bs, b) == bs[0 := Block(b.start, bs[0].size + b.size)]
  {
  }

  lemma BackPosition(bs: seq<Block>, b: Block)
    requires Canonical(bs) && 0 < b.size && ApartFromAll(bs, b) && |bs| > 0 && bs[|bs| - 1].start <= b.start
    ensures Position(bs, b.start) == |bs|
  {
    assert Apart(bs[|bs| - 1], b) && bs[|bs| - 1].start < b.start;
    assert forall k :: 0 <= k < |bs| ==> bs[k].start <= bs[|bs| - 1].start;
  }

  /** A block beyond the last one extends it or follows it. */
  lemma MergeBack(bs: seq<Block>, b: Block)
    requires |bs| > 0 && Position(bs, b.start) == |bs|
    ensures var last := bs[|bs| - 1];
      Merge(bs, b) == if last.End() == b.start then bs[|bs| - 1 := Block(last.start, last.size + b.size)]
                      else With(bs, |bs|, b)
  {
  }

  /** The four outcomes of Merge, by what the freed block touches. */
  lemma MergeCases(bs: seq<Block>, b: Block, k: nat)
    requires k == Position(bs, b.start)
    ensures var left := k > 0 && bs[k - 1].End() == b.start;
      var right := k < |bs| && b.End() == bs[k].start;
      && TouchesLeft(bs, b) == left && TouchesRight(bs, b) == right
      && Merge(bs, b) ==
        if left && right then Without(bs, k)[k - 1 := Block(bs[k - 1].start, bs[k - 1].size + b.size + bs[k].size)]
        else if right then bs[k := Block(b.start, bs[k].size + b.size)]
        else if left then bs[k - 1 := Block(bs[k - 1].start, bs[k - 1].size + b.size)]
        else With(bs, k, b)
  {
  }

  lemma RoundUpTwice(size: int)
    requires 0 <= size < WORD
    ensures RoundUp(RoundUp(size)) == RoundUp(size)
  {
    var n := RoundUp(size);
    assert n <= WORD - PAGE_SIZE;
    assert (n + PAGE_SIZE - 1) % PAGE_SIZE == PAGE_SIZE - 1;
  }
}
