/**
 The aging stamps of update_WS_time_stamps in kern/sched.c.

 On every clock tick a stamp is shifted right by two and its top bit is set if
 the page was used.  After sixteen ticks the order of the 32-bit numbers is the
 lexicographic order of the last sixteen reference bits, newest first, whatever
 the stamps were before.
 */
module Aging {

  const WORD: nat := 0x1_0000_0000
  const TOP_BIT: nat := 0x8000_0000
  const DEPTH: nat := 16

  /** stamp >> 2, with bit 31 (clear after the shift) set when the page was used. */
  function Tick(stamp: nat, used: bool): (r: nat)
    requires stamp < WORD
    ensures r < WORD
  {
    stamp / 4 + if used then TOP_BIT else 0
  }

  /** The stamp after a history of ticks, newest first. */
  function Age(stamp: nat, history: seq<bool>): (r: nat)
    requires stamp < WORD
    ensures r < WORD
  {
    if history == [] then stamp else Tick(Age(stamp, history[1..]), history[0])
  }

  ghost predicate LexLess(a: seq<bool>, b: seq<bool>)
    requires |a| == |b|
  {
    exists i :: 0 <= i < |a| && a[..i] == b[..i] && !a[i] && b[i]
  }

  function Pow4(n: nat): (r: nat)
    ensures 0 < r
  {
    if n == 0 then 1 else 4 * Pow4(n - 1)
  }

  lemma Pow4Values()
    ensures Pow4(15) == 0x4000_0000 && Pow4(16) == WORD && TOP_BIT == 2 * Pow4(15)
  {
    assert Pow4(4) == 256;
    assert Pow4(8) == 0x1_0000;
    assert Pow4(12) == 0x100_0000;
    assert Pow4(15) == 0x4000_0000;
  }

  lemma {:induction false} TopBitMultiple(m: nat)
    requires m <= 15
    ensures TOP_BIT % Pow4(m) == 0
    decreases 15 - m
  {
    Pow4Values();
    if m < 15 {
      TopBitMultiple(m + 1);
      Divides(TOP_BIT, Pow4(m + 1), 4, Pow4(m));
    } else {
      assert 2 * Pow4(15) % Pow4(15) == 0 by { Multiple(2, Pow4(15)); }
    }
  }

  lemma Multiple(k: nat, p: nat)
    requires 0 < p
    ensures k * p % p == 0 && k * p / p == k
  {
    var t: int := k - k * p / p;
    assert t * p == k * p % p;
    assert t >= 1 ==> t * p >= p;
    assert t <= -1 ==> t * p + p <= 0;
  }

  lemma Divides(x: nat, p: nat, c: nat, d: nat)
    requires 0 < c && 0 < d && p == c * d && x % p == 0
    ensures x % d == 0
  {
    var k := x / p;
    assert x == k * p == (k * c) * d;
    Multiple(k * c, d);
  }

  /** A stamp whose history is known to depth k lies in an interval of 4^(16 - k) numbers that starts at a multiple of its length. */
  ghost function Start(history: seq<bool>): nat {
    if history == [] then 0 else Start(history[1..]) / 4 + if history[0] then TOP_BIT else 0
  }

  lemma QuarterInterval(x: nat, c: nat, p: nat)
    requires 0 < p && c % (4 * p) == 0 && c <= x < c + 4 * p
    ensures c / 4 % p == 0 && c / 4 <= x / 4 < c / 4 + p
  {
    var k := c / (4 * p);
    assert c == k * (4 * p) == 4 * (k * p);
    assert c / 4 == k * p;
    Multiple(k, p);
  }

  lemma AddMultiple(a: nat, b: nat, p: nat)
    requires 0 < p && a % p == 0 && b % p == 0
    ensures (a + b) % p == 0
  {
    assert a + b == (a / p + b / p) * p;
    Multiple(a / p + b / p, p);
  }

  lemma {:induction false} AgeInterval(stamp: nat, history: seq<bool>)
    requires stamp < WORD && |history| <= DEPTH
    ensures var p := Pow4(DEPTH - |history|);
      Start(history) % p == 0 && Start(history) <= Age(stamp, history) < Start(history) + p
  {
    Pow4Values();
    if history != [] {
      var m := DEPTH - |history|;
      var c, x := Start(history[1..]), Age(stamp, history[1..]);
      AgeInterval(stamp, history[1..]);
      assert Pow4(m + 1) == 4 * Pow4(m);
      QuarterInterval(x, c, Pow4(m));
      TopBitMultiple(m);
      AddMultiple(c / 4, if history[0] then TOP_BIT else 0, Pow4(m)) by { ZeroMultiple(Pow4(m)); }
    }
  }

  lemma ZeroMultiple(p: nat)
    requires 0 < p
    ensures 0 % p == 0
  {
  }

  lemma {:induction false} AgeSplits(stamp: nat, history: seq<bool>, k: nat)
    requires stamp < WORD && k <= |history|
    ensures Age(stamp, history) == Age(Age(stamp, history[k..]), history[..k])
  {
    if k > 0 {
      AgeSplits(stamp, history[1..], k - 1);
      assert history[1..][k - 1..] == history[k..];
      assert history[..k][1..] == history[1..][..k - 1];
    }
  }

  /** Sixteen ticks forget everything before them. */
  lemma AgeForgets(stamp: nat, history: seq<bool>)
    requires stamp < WORD && |history| >= 16
    ensures Age(stamp, history) == Start(history[..16])
  {
    AgeSplits(stamp, history, DEPTH);
    AgeInterval(Age(stamp, history[DEPTH..]), history[..DEPTH]);
    assert Pow4(0) == 1;
  }

  // ----- order -----

  /** A first difference at depth i leaves the numbers at least 4^(15 - i) apart. */
  lemma {:induction false} FirstDifference(x: nat, y: nat, a: seq<bool>, b: seq<bool>, i: nat)
    requires x < WORD && y < WORD && |a| == |b| <= DEPTH && i < |a| && a[..i] == b[..i] && !a[i] && b[i]
    ensures Age(x, a) + Pow4(15 - i) <= Age(y, b)
  {
    Pow4Values();
    var s, t := Age(x, a[1..]), Age(y, b[1..]);
    if i == 0 {
      assert s / 4 < Pow4(15);
    } else {
      assert a[0] == a[..i][0] == b[..i][0] == b[0];
      assert a[1..][..i - 1] == a[..i][1..] == b[..i][1..] == b[1..][..i - 1];
      FirstDifference(x, y, a[1..], b[1..], i - 1);
      assert Pow4(15 - (i - 1)) == 4 * Pow4(15 - i);
      assert s + 4 * Pow4(15 - i) <= t;
    }
  }

  lemma Compare(a: seq<bool>, b: seq<bool>)
    requires |a| == |b|
    ensures a == b || LexLess(a, b) || LexLess(b, a)
  {
    if a != [] {
      if a[0] == b[0] {
        Compare(a[1..], b[1..]);
        assert a == [a[0]] + a[1..] && b == [b[0]] + b[1..];
        if LexLess(a[1..], b[1..]) {
          LexTail(a, b);
        } else if LexLess(b[1..], a[1..]) {
          LexTail(b, a);
        }
      } else {
        assert a[..0] == b[..0];
      }
    }
  }

  lemma LexTail(a: seq<bool>, b: seq<bool>)
    requires |a| == |b| > 0 && a[0] == b[0] && LexLess(a[1..], b[1..])
    ensures LexLess(a, b)
  {
    var i :| 0 <= i < |a[1..]| && a[1..][..i] == b[1..][..i] && !a[1..][i] && b[1..][i];
    assert a[..i + 1] == [a[0]] + a[1..][..i] && b[..i + 1] == [b[0]] + b[1..][..i];
    assert !a[i + 1] && b[i + 1];
  }

  /** Numeric order of stamps is lexicographic order of the last sixteen reference bits. */
  lemma StampOrder(x: nat, y: nat, a: seq<bool>, b: seq<bool>)
    requires x < WORD && y < WORD && |a| >= 16 && |b| >= 16
    ensures Age(x, a) < Age(y, b) <==> LexLess(a[..16], b[..16])
    ensures Age(x, a) == Age(y, b) <==> a[..16] == b[..16]
  {
    var p, q := a[..DEPTH], b[..DEPTH];
    AgeForgets(x, a);
    AgeForgets(y, b);
    AgeForgets(0, p);
    AgeForgets(0, q);
    assert p[..DEPTH] == p && q[..DEPTH] == q;
    assert Age(x, a) == Age(0, p) && Age(y, b) == Age(0, q);
    LessOrder(p, q);
    LessOrder(q, p);
    Compare(p, q);
  }

  lemma LessOrder(p: seq<bool>, q: seq<bool>)
    requires |p| == |q| == DEPTH
    ensures LexLess(p, q) ==> Age(0, p) < Age(0, q)
  {
    if LexLess(p, q) {
      var i :| 0 <= i < |p| && p[..i] == q[..i] && !p[i] && q[i];
      FirstDifference(0, 0, p, q, i);
    }
  }

  // ----- the working sets -----

  /** struct WorkingSetElement: page_va stands for the page or the table it lists. */
  datatype Element = Element(page: nat, empty: bool, stamp: nat)

  ghost predicate Stamped(ws: seq<Element>) {
    forall i :: 0 <= i < |ws| ==> ws[i].stamp < WORD
  }

  /** Some element before the k-th lists the page: its used bit has been cleared by then. */
  ghost predicate Before(ws: seq<Element>, k: nat, page: nat)
    requires k <= |ws|
  {
    exists i :: 0 <= i < k && !ws[i].empty && ws[i].page == page
  }

  /** The element after a tick that found the given pages used. */
  ghost function Ticked(ws: seq<Element>, used: set<nat>, i: nat): Element
    requires i < |ws| && Stamped(ws)
  {
    var e := ws[i];
    if e.empty then e else e.(stamp := Tick(e.stamp, e.page in used && !Before(ws, i, e.page)))
  }

  class WorkingSet {
    var elements: array<Element>
    var used: set<nat>           // pages, or tables, whose PERM_USED bit is set

    constructor (size: nat)
      ensures elements.Length == size && Stamped(elements[..]) && used == {} && fresh(elements)
    {
      elements := new Element[size](_ => Element(0, true, 0));
      used := {};
    }

    /** One loop of update_WS_time_stamps: every listed page ages and loses its used bit. */
    method UpdateTimeStamps()
      requires Stamped(elements[..])
      modifies elements, `used
      ensures elements == old(elements) && Stamped(elements[..]) && old(Stamped(elements[..]))
      ensures forall i: nat :: i < elements.Length ==> elements[i] == Ticked(old(elements[..]), old(used), i)
      ensures forall p: nat :: p in used <==> p in old(used) && !Before(old(elements[..]), |old(elements[..])|, p)
    {
      ghost var was, set0 := elements[..], used;
      var i := 0;
      while i < elements.Length
        invariant i <= elements.Length == |was|
        invariant forall k: nat :: i <= k < elements.Length ==> elements[k] == was[k]
        invariant forall k: nat :: k < i ==> elements[k] == Ticked(was, set0, k)
        invariant forall p: nat :: p in used <==> p in set0 && !Before(was, i, p)
        invariant Stamped(elements[..])
      {
        var e := elements[i];
        assert e == was[i];
        if !e.empty {
          if e.page in used {
            elements[i] := e.(stamp := e.stamp / 4 + TOP_BIT);
            used := used - {e.page};
          } else {
            elements[i] := e.(stamp := e.stamp / 4);
          }
        }
        BeforeNext(was, i);
        i := i + 1;
      }
      assert was[..|was|] == was;
    }
  }

  lemma BeforeNext(ws: seq<Element>, k: nat)
    requires k < |ws|
    ensures forall p: nat :: Before(ws, k + 1, p) <==> Before(ws, k, p) || (!ws[k].empty && ws[k].page == p)
  {
    forall p: nat | Before(ws, k, p)
      ensures Before(ws, k + 1, p)
    {
      var i :| 0 <= i < k && !ws[i].empty && ws[i].page == p;
      assert !ws[i].empty;
    }
  }

  // ----- many ticks -----

  ghost function TickAll(ws: seq<Element>, used: set<nat>): (r: seq<Element>)
    requires Stamped(ws)
    ensures Stamped(r) && |r| == |ws|
  {
    seq(|ws|, i requires 0 <= i < |ws| => Ticked(ws, used, i))
  }

  /** The working set after ticks that found these pages used, newest first. */
  ghost function AfterTicks(ws: seq<Element>, used: seq<set<nat>>): (r: seq<Element>)
    requires Stamped(ws)
    ensures Stamped(r) && |r| == |ws|
  {
    if used == [] then ws else TickAll(AfterTicks(ws, used[1..]), used[0])
  }

  /** The reference bits element i collects; a page listed twice gives its bit to the first element. */
  ghost function Bits(ws: seq<Element>, used: seq<set<nat>>, i: nat): seq<bool>
    requires i < |ws|
  {
    seq(|used|, k requires 0 <= k < |used| => ws[i].page in used[k] && !Before(ws, i, ws[i].page))
  }

  lemma {:induction false} SamePages(ws: seq<Element>, used: seq<set<nat>>)
    requires Stamped(ws)
    ensures forall i :: 0 <= i < |ws| ==>
              AfterTicks(ws, used)[i].page == ws[i].page && AfterTicks(ws, used)[i].empty == ws[i].empty
  {
    if used != [] {
      SamePages(ws, used[1..]);
    }
  }

  lemma {:induction false} StampIsAge(ws: seq<Element>, used: seq<set<nat>>, i: nat)
    requires Stamped(ws) && i < |ws| && !ws[i].empty
    ensures AfterTicks(ws, used)[i].stamp == Age(ws[i].stamp, Bits(ws, used, i))
  {
    if used != [] {
      var rest := AfterTicks(ws, used[1..]);
      StampIsAge(ws, used[1..], i);
      SamePages(ws, used[1..]);
      assert Bits(ws, used, i)[1..] == Bits(ws, used[1..], i);
      assert Before(rest, i, ws[i].page) <==> Before(ws, i, ws[i].page) by {
        assert forall k :: 0 <= k < i ==> rest[k].page == ws[k].page && rest[k].empty == ws[k].empty;
      }
    }
  }

  /** An element that lists nothing never changes. */
  lemma {:induction false} EmptyStays(ws: seq<Element>, used: seq<set<nat>>, i: nat)
    requires Stamped(ws) && i < |ws| && ws[i].empty
    ensures AfterTicks(ws, used)[i] == ws[i]
  {
    if used != [] {
      EmptyStays(ws, used[1..], i);
    }
  }

  /** After sixteen ticks the element with the smaller stamp is the one used longer ago, whatever the stamps were at first. */
  lemma ElementOrder(ws: seq<Element>, used: seq<set<nat>>, i: nat, j: nat)
    requires Stamped(ws) && i < |ws| && j < |ws| && !ws[i].empty && !ws[j].empty && |used| >= 16
    ensures AfterTicks(ws, used)[i].stamp < AfterTicks(ws, used)[j].stamp <==>
            LexLess(Bits(ws, used, i)[..16], Bits(ws, used, j)[..16])
  {
    StampIsAge(ws, used, i);
    StampIsAge(ws, used, j);
    StampOrder(ws[i].stamp, ws[j].stamp, Bits(ws, used, i), Bits(ws, used, j));
  }
}
