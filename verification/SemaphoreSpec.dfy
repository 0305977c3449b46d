/**
 A counting semaphore as a value: a count and the queue of blocked environments,
 oldest first.  The kernel's wait and signal perform these operations; the laws
 below hold over every history of them.
 */
module SemaphoreSpec {

  datatype Option<+T> = None | Some(value: T)

  datatype Sem = Sem(value: int, queue: seq<nat>)

  /** As many environments are queued as the value is below zero. */
  predicate Balanced(s: Sem) {
    |s.queue| == if s.value < 0 then -s.value else 0
  }

  /** Decrement; a negative result blocks the caller. */
  function Wait(s: Sem, e: nat): Sem {
    Sem(s.value - 1, if s.value - 1 < 0 then s.queue + [e] else s.queue)
  }

  predicate Passes(s: Sem) {
    0 <= s.value - 1
  }

  /** Increment; a result of at most zero releases the oldest blocked environment. */
  function Signal(s: Sem): Sem {
    Sem(s.value + 1, if s.value + 1 <= 0 && |s.queue| > 0 then s.queue[1..] else s.queue)
  }

  function Released(s: Sem): Option<nat> {
    if s.value + 1 <= 0 && |s.queue| > 0 then Some(s.queue[0]) else None
  }

  /** createSemaphore stores a uint32 into an int: large initial values turn negative. */
  function Create(initialValue: int): Sem
    requires 0 <= initialValue < 0x1_0000_0000
  {
    Sem(if initialValue < 0x8000_0000 then initialValue else initialValue - 0x1_0000_0000, [])
  }

  /** A new semaphore is balanced, so that its first signal has somebody to release, iff the value fits an int. */
  lemma CreateBalancedIff(initialValue: int)
    requires 0 <= initialValue < 0x1_0000_0000
    ensures Balanced(Create(initialValue)) <==> initialValue < 0x8000_0000
    ensures Create(initialValue).queue == [] && (initialValue - Create(initialValue).value) % 0x1_0000_0000 == 0
    ensures -0x8000_0000 <= Create(initialValue).value < 0x8000_0000
  {
  }

  // ----- histories -----

  datatype Event = WaitBy(env: nat) | SignalBy(env: nat)

  function History(init: Sem, events: seq<Event>): Sem {
    if events == [] then init
    else
      var s := History(init, events[..|events| - 1]);
      match events[|events| - 1]
      case WaitBy(e) => Wait(s, e)
      case SignalBy(_) => Signal(s)
  }

  /** Environments in the order in which they called wait. */
  function Arrivals(events: seq<Event>): seq<nat> {
    if events == [] then []
    else
      var rest := Arrivals(events[..|events| - 1]);
      match events[|events| - 1]
      case WaitBy(e) => rest + [e]
      case SignalBy(_) => rest
  }

  /** Environments in the order in which they got past their wait, at once or when released. */
  function Departures(init: Sem, events: seq<Event>): seq<nat> {
    if events == [] then []
    else
      var before := events[..|events| - 1];
      var s := History(init, before);
      var rest := Departures(init, before);
      match events[|events| - 1]
      case WaitBy(e) => if Passes(s) then rest + [e] else rest
      case SignalBy(_) => match Released(s) { case Some(e) => rest + [e] case None => rest }
  }

  function Signals(events: seq<Event>): nat {
    if events == [] then 0
    else Signals(events[..|events| - 1]) + if events[|events| - 1].SignalBy? then 1 else 0
  }

  /**
   The law of a semaphore: queue length is max(0, -value), passes fall short of
   initial + signals by max(0, value), and environments pass strictly in the
   order in which they arrived.
   */
  lemma {:induction false} SemaphoreLaw(v: nat, events: seq<Event>)
    ensures var s := History(Sem(v, []), events);
      var d := Departures(Sem(v, []), events);
      && Balanced(s)
      && |d| + (if s.value > 0 then s.value else 0) == v + Signals(events)
      && d + s.queue == Arrivals(events)
  {
    if events != [] {
      var before := events[..|events| - 1];
      SemaphoreLaw(v, before);
      var s := History(Sem(v, []), before);
      var d := Departures(Sem(v, []), before);
      match events[|events| - 1]
      case WaitBy(e) =>
        assert d + (s.queue + [e]) == (d + s.queue) + [e];
      case SignalBy(_) =>
        if s.value + 1 <= 0 {
          assert (d + [s.queue[0]]) + s.queue[1..] == d + s.queue;
        }
    }
  }

  /** The k-th oldest blocked environment is the one released by the k-th following signal. */
  lemma {:induction false} ReleasedInOrder(s: Sem, k: nat, signals: seq<Event>)
    requires Balanced(s) && k < |s.queue| && |signals| == k
    requires forall i :: 0 <= i < k ==> signals[i].SignalBy?
    ensures Released(History(s, signals)) == Some(s.queue[k])
    ensures History(s, signals) == Sem(s.value + k, s.queue[k..])
  {
    if k > 0 {
      var before := signals[..k - 1];
      ReleasedInOrder(s, k - 1, before);
      assert s.queue[k - 1..][1..] == s.queue[k..];
    }
  }

  /**
   Later arrivals do not change whom the next signals release: the queue only
   grows at the back.
   */
  lemma {:induction false} ArrivalsOnlyAppend(s: Sem, events: seq<Event>)
    requires Balanced(s) && Signals(events) <= |s.queue|
    ensures s.queue[Signals(events)..] <= History(s, events).queue
    ensures Balanced(History(s, events))
    ensures |s.queue| > Signals(events) ==> Released(History(s, events)) == Some(s.queue[Signals(events)])
  {
    if events != [] {
      var before := events[..|events| - 1];
      ArrivalsOnlyAppend(s, before);
      var t := History(s, before);
      match events[|events| - 1]
      case WaitBy(e) =>
        assert s.queue[Signals(before)..] <= t.queue + [e];
      case SignalBy(_) =>
        var n := Signals(before);
        assert s.queue[n..][1..] == s.queue[n + 1..];
        assert s.queue[n..][0] == t.queue[0];
        assert t.queue[1..][..|s.queue| - n - 1] == s.queue[n..][1..];
    }
    var r := History(s, events);
    if |s.queue| > Signals(events) {
      assert r.queue[0] == s.queue[Signals(events)..][0];
    }
  }

  /** Mutual exclusion: with initial value 1 at most one environment is between wait and signal. */
  lemma MutualExclusion(events: seq<Event>)
    ensures |Departures(Sem(1, []), events)| - Signals(events) <= 1
    ensures History(Sem(1, []), events).queue != [] ==> |Departures(Sem(1, []), events)| - Signals(events) == 1
  {
    SemaphoreLaw(1, events);
  }
}
