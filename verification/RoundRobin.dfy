/**
 Bounded waiting in a rotation.

 The ready queue read circularly from sched_next changes in three ways only:
 insertion appends, removal deletes one element, scheduling moves the head to
 the end and runs it.  Whatever others come and go, an element at position p is
 run by one of the next p + 1 schedulings.
 */
module RoundRobin {

  datatype Event<T> = Insert(e: T) | Remove(e: T) | Schedule

  ghost predicate NoRepeats<T>(r: seq<T>) {
    forall i, j :: 0 <= i < j < |r| ==> r[i] != r[j]
  }

  function IndexOf<T(==)>(r: seq<T>, e: T): (i: nat)
    requires e in r
    ensures i < |r| && r[i] == e && e !in r[..i]
  {
    if r[0] == e then 0 else 1 + IndexOf(r[1..], e)
  }

  function Delete<T(==)>(r: seq<T>, e: T): (d: seq<T>) {
    if e in r then r[..IndexOf(r, e)] + r[IndexOf(r, e) + 1..] else r
  }

  function Next<T(==)>(r: seq<T>, ev: Event<T>): seq<T> {
    match ev
    case Insert(e) => r + [e]
    case Remove(e) => Delete(r, e)
    case Schedule => if r == [] then [] else r[1..] + [r[0]]
  }

  /** An event that can happen: nobody is inserted twice. */
  predicate Possible<T(==)>(r: seq<T>, ev: Event<T>) {
    ev.Insert? ==> ev.e !in r
  }

  ghost predicate Trace<T>(r: seq<T>, events: seq<Event<T>>)
    decreases |events|
  {
    events == [] || (Possible(r, events[0]) && Trace(Next(r, events[0]), events[1..]))
  }

  /** Who is run, in order, by the scheduling events of a trace. */
  function Served<T(==)>(r: seq<T>, events: seq<Event<T>>): seq<T>
    decreases |events|
  {
    if events == [] then []
    else
      var rest := Served(Next(r, events[0]), events[1..]);
      if events[0].Schedule? && r != [] then [r[0]] + rest else rest
  }

  function After<T(==)>(r: seq<T>, events: seq<Event<T>>): seq<T>
    decreases |events|
  {
    if events == [] then r else After(Next(r, events[0]), events[1..])
  }

  function Schedulings<T(==)>(events: seq<Event<T>>): nat {
    if events == [] then 0 else (if events[0].Schedule? then 1 else 0) + Schedulings(events[1..])
  }

  lemma NextHasNoRepeats<T>(r: seq<T>, ev: Event<T>)
    requires NoRepeats(r) && Possible(r, ev)
    ensures NoRepeats(Next(r, ev))
  {
  }

  /** Where one event takes an element that the event neither removes nor runs: never back. */
  lemma PositionAfter<T>(r: seq<T>, ev: Event<T>, p: nat)
    requires NoRepeats(r) && p < |r| && ev != Remove(r[p]) && (ev.Schedule? ==> p > 0)
    ensures var q := p - if ev.Schedule? || (ev.Remove? && ev.e in r[..p]) then 1 else 0;
      0 <= q < |Next(r, ev)| && Next(r, ev)[q] == r[p]
  {
  }

  /**
   Bounded waiting: if nobody removes the element at position p, then p + 1
   schedulings run it, and it is among the first p + 1 served.
   */
  lemma {:induction false} BoundedWaiting<T>(r: seq<T>, p: nat, events: seq<Event<T>>)
    requires NoRepeats(r) && Trace(r, events) && p < |r|
    requires Remove(r[p]) !in events && Schedulings(events) > p
    ensures exists k :: 0 <= k <= p && k < |Served(r, events)| && Served(r, events)[k] == r[p]
    decreases |events|
  {
    hide NoRepeats, Next, Delete, IndexOf, Possible;
    var ev, rest := events[0], events[1..];
    assert ev in events && forall x :: x in rest ==> x in events;
    if ev.Schedule? && p == 0 {
      assert Served(r, events)[0] == r[p];
    } else {
      PositionAfter(r, ev, p);
      NextHasNoRepeats(r, ev);
      var q := p - if ev.Schedule? || (ev.Remove? && ev.e in r[..p]) then 1 else 0;
      BoundedWaiting(Next(r, ev), q, rest);
      var k :| 0 <= k <= q && k < |Served(Next(r, ev), rest)| && Served(Next(r, ev), rest)[k] == r[p];
      assert Served(r, events)[if ev.Schedule? then k + 1 else k] == r[p];
    }
  }

  /** The bound is tight: with nothing but scheduling, everybody ahead is served first, in order. */
  lemma {:induction false} WaitingIsTight<T>(r: seq<T>, events: seq<Event<T>>)
    requires |events| <= |r| && forall i :: 0 <= i < |events| ==> events[i].Schedule?
    ensures Served(r, events) == r[..|events|] && After(r, events) == r[|events|..] + r[..|events|]
    decreases |events|
  {
    if events != [] {
      var n := |events|;
      var s := Next(r, Schedule);
      WaitingIsTight(s, events[1..]);
      assert [r[0]] + s[..n - 1] == r[..n];
      assert s[n - 1..] + s[..n - 1] == r[n..] + r[..n];
    }
  }
}
