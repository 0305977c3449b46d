/**
 Every run of the air reservation programs ends: a measure over the process
 table grows with each step and is bounded by the number of customers and clerks.
 */
module AirTermination {
  import opened SemaphoreSpec
  import opened AirModel
  import opened AirSums
  import opened AirInvariant
  import opened AirLocal
  import opened AirTheorems

  function BlockedSet(s: State): set<nat> {
    set i | 0 <= i < |s.procs| && Blocked(s, i)
  }

  /** Twice the ground covered by all processes, plus the number of blocked ones. */
  function Measure(c: Config, s: State): int {
    2 * Sum(c, Progress, s.procs) + |BlockedSet(s)|
  }

  lemma AfterProgress(c: Config, p: Proc)
    requires Synchronises(c, p)
    ensures Eval(c, Progress, After(c, p)) >= Eval(c, Progress, p) + 1
  {
  }

  lemma CustomerProgress(c: Config, s: State, i: nat)
    requires i < |s.procs| && s.procs[i].Customer? && InstrOf(c, s.procs[i]) == Local
    ensures Eval(c, Progress, LocalStep(c, s, i).procs[i]) >= Eval(c, Progress, s.procs[i]) + 1
  {
  }

  lemma ClerkProgress(c: Config, s: State, i: nat)
    requires i < |s.procs| && s.procs[i].Clerk? && InstrOf(c, s.procs[i]) == Local
    ensures Eval(c, Progress, LocalStep(c, s, i).procs[i]) >= Eval(c, Progress, s.procs[i]) + 1
  {
  }

  lemma LocalProgress(c: Config, s: State, i: nat)
    requires i < |s.procs| && InstrOf(c, s.procs[i]) == Local
    ensures Eval(c, Progress, LocalStep(c, s, i).procs[i]) >= Eval(c, Progress, s.procs[i]) + 1
  {
    hide Eval, LocalStep;
    match s.procs[i]
    case Customer(_, _) => CustomerProgress(c, s, i);
    case Clerk(_, _, _) => ClerkProgress(c, s, i);
    case Master(_) => assert false;
  }

  lemma WaitGrows(c: Config, s: State, i: nat, x: SemId)
    requires Inv(c, s) && Enabled(c, s, i) && InstrOf(c, s.procs[i]) == DoWait(x)
    ensures Measure(c, WaitStep(c, s, i, x)) >= Measure(c, s) + 1
  {
    var t := WaitStep(c, s, i, x);
    InstrKnown(c, s, i);
    if Passes(s.sems[x]) {
      AfterProgress(c, s.procs[i]);
      SumUpdate(c, Progress, s.procs, i, After(c, s.procs[i]));
      SameQueues(s, t);
    } else {
      BlocksOne(c, s, i, x);
    }
  }

  lemma SameQueues(s: State, t: State)
    requires |s.procs| == |t.procs| && s.sems.Keys == t.sems.Keys
    requires forall x :: x in s.sems ==> s.sems[x].queue == t.sems[x].queue
    ensures BlockedSet(s) == BlockedSet(t)
  {
    forall i | 0 <= i < |s.procs|
      ensures Blocked(s, i) == Blocked(t, i)
    {
    }
  }

  lemma BlocksOne(c: Config, s: State, i: nat, x: SemId)
    requires Enabled(c, s, i) && InstrOf(c, s.procs[i]) == DoWait(x) && x in s.sems && !Passes(s.sems[x])
    ensures var t := WaitStep(c, s, i, x); t.procs == s.procs && |BlockedSet(t)| == |BlockedSet(s)| + 1
  {
    var t := WaitStep(c, s, i, x);
    assert i in t.sems[x].queue;
    forall k | 0 <= k < |s.procs|
      ensures Blocked(t, k) == (Blocked(s, k) || k == i)
    {
      if Blocked(s, k) {
        var y :| y in s.sems && k in s.sems[y].queue;
        assert k in t.sems[y].queue;
      }
      if Blocked(t, k) && k != i {
        var y :| y in t.sems && k in t.sems[y].queue;
        assert k in s.sems[y].queue;
      }
    }
    assert BlockedSet(t) == BlockedSet(s) + {i};
  }

  lemma SignalGrows(c: Config, s: State, i: nat, x: SemId)
    requires Inv(c, s) && Enabled(c, s, i) && InstrOf(c, s.procs[i]) == DoSignal(x)
    ensures Measure(c, SignalStep(c, s, i, x)) >= Measure(c, s) + 1
  {
    InstrKnown(c, s, i);
    SignalIsMoves(c, s, i, x);
    AfterProgress(c, s.procs[i]);
    SumUpdate(c, Progress, s.procs, i, After(c, s.procs[i]));
    var t := SignalStep(c, s, i, x);
    match Released(s.sems[x])
    case None =>
      SameQueues(s, t);
    case Some(q) =>
      ReleasedWaits(c, s, i, x);
      var m := Moved(c, s, i);
      AfterProgress(c, m.procs[q]);
      SumUpdate(c, Progress, m.procs, q, After(c, m.procs[q]));
      ReleasesOne(s, t, x, q);
  }

  lemma ReleasesOne(s: State, t: State, x: SemId, q: nat)
    requires |s.procs| == |t.procs| && x in s.sems && s.sems[x].queue != [] && q == s.sems[x].queue[0]
    requires t.sems == s.sems[x := Sem(s.sems[x].value + 1, s.sems[x].queue[1..])]
    ensures |BlockedSet(t)| >= |BlockedSet(s)| - 1
  {
    forall k | k in BlockedSet(s) && k != q
      ensures k in BlockedSet(t)
    {
      var y :| y in s.sems && k in s.sems[y].queue;
      assert k in t.sems[y].queue;
    }
    assert BlockedSet(s) <= BlockedSet(t) + {q};
    SubsetSize(BlockedSet(s), BlockedSet(t) + {q});
  }

  lemma {:induction false} SubsetSize(a: set<nat>, b: set<nat>)
    requires a <= b
    ensures |a| <= |b|
  {
    if a != {} {
      var x :| x in a;
      SubsetSize(a - {x}, b - {x});
    }
  }

  lemma StepGrows(c: Config, s: State, i: nat)
    requires Inv(c, s) && Enabled(c, s, i)
    ensures Measure(c, Step(c, s, i)) >= Measure(c, s) + 1
  {
    hide Inv, WaitStep, SignalStep, LocalStep, InstrOf, Measure;
    match InstrOf(c, s.procs[i])
    case DoWait(x) => WaitGrows(c, s, i, x);
    case DoSignal(x) => SignalGrows(c, s, i, x);
    case Local => LocalGrows(c, s, i);
    case Halt =>
  }

  lemma LocalGrows(c: Config, s: State, i: nat)
    requires i < |s.procs| && InstrOf(c, s.procs[i]) == Local
    ensures Measure(c, LocalStep(c, s, i)) >= Measure(c, s) + 1
  {
    LocalShape(c, s, i);
    LocalProgress(c, s, i);
    Shift(c, s, i, Progress);
    hide LocalStep;
    SameQueues(s, LocalStep(c, s, i));
  }

  // ----- the bound -----

  lemma ProgressBound(c: Config, p: Proc)
    ensures p.Customer? ==> Eval(c, Progress, p) <= 13 + Eval(c, Debt(Terminated), p)
    ensures p.Clerk? ==> Eval(c, Progress, p) <= 14 + 16 * Eval(c, Taken, p) && Eval(c, Debt(Terminated), p) == 0
    ensures p.Master? ==> Eval(c, Progress, p) == Eval(c, Debt(Terminated), p) && Eval(c, Taken, p) == 0
    ensures p.Customer? ==> Eval(c, Taken, p) == 0
  {
  }

  lemma {:induction false} ProgressTo(c: Config, s: State, n: nat)
    requires Shape(c, s) && n <= |s.procs|
    ensures SumTo(c, Progress, s.procs, n) <=
      13 * (if n <= c.N() then n else c.N())
      + 14 * (if n <= c.N() then 0 else if n <= c.N() + c.clerks then n - c.N() else c.clerks)
      + 16 * SumTo(c, Taken, s.procs, n) + SumTo(c, Debt(Terminated), s.procs, n)
  {
    hide Eval;
    if n > 0 {
      ProgressTo(c, s, n - 1);
      ProgressBound(c, s.procs[n - 1]);
    }
  }

  function Bound(c: Config): nat {
    2 * (29 * c.N() + 14 * c.clerks) + c.N() + c.clerks + 1
  }

  function UpTo(n: nat): (r: set<nat>)
    ensures |r| == n && forall i: nat :: i in r <==> i < n
  {
    if n == 0 then {} else UpTo(n - 1) + {n - 1}
  }

  lemma BlockedBound(s: State)
    ensures |BlockedSet(s)| <= |s.procs|
  {
    SubsetSize(BlockedSet(s), UpTo(|s.procs|));
  }

  lemma MeasureBounded(c: Config, s: State)
    requires Inv(c, s)
    ensures Measure(c, s) <= Bound(c)
  {
    ProgressTo(c, s, |s.procs|);
    BlockedBound(s);
    assert IsSem(c, Terminated) && LawAt(c, s, Terminated);
    hide SumTo, LawAt, BlockedSet;
    assert Sum(c, Taken, s.procs) <= c.N();
    assert Sum(c, Debt(Terminated), s.procs) <= 0 by {
      TerminatedOwesNothing(c, s);
    }
  }

  lemma TerminatedOwesNothing(c: Config, s: State)
    requires Inv(c, s)
    ensures Sum(c, Debt(Terminated), s.procs) <= 0
  {
    assert IsSem(c, Terminated) && LawAt(c, s, Terminated);
  }

  lemma InitialMeasure(c: Config, s: State)
    requires Initial(c, s)
    ensures Measure(c, s) >= 0
  {
    InitialSums(c, s, Progress);
  }

  lemma {:induction false} RunMeasure(c: Config, s: State, schedule: seq<nat>)
    requires Initial(c, s) && Legal(c, s, schedule)
    ensures Measure(c, Run(c, s, schedule)) >= |schedule|
  {
    if schedule == [] {
      InitialMeasure(c, s);
    } else {
      var before := schedule[..|schedule| - 1];
      RunMeasure(c, s, before);
      RunInv(c, s, before);
      StepGrows(c, Run(c, s, before), schedule[|schedule| - 1]);
    }
  }

  /** No run is longer than 59 N + 29 K + 1 steps; so every run ends, and by NoDeadlock ends well. */
  lemma RunsEnd(c: Config, s: State, schedule: seq<nat>)
    requires Initial(c, s) && Legal(c, s, schedule)
    ensures |schedule| <= 59 * c.N() + 29 * c.clerks + 1
  {
    RunMeasure(c, s, schedule);
    RunInv(c, s, schedule);
    MeasureBounded(c, Run(c, s, schedule));
    hide Run, Measure, Inv;
  }
}
