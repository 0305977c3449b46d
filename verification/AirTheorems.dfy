/**
 What the air reservation programs promise: safety in every reachable state,
 no deadlock, bounded runs, and the values the master asserts at the end.
 */
module AirTheorems {
  import opened SemaphoreSpec
  import opened AirModel
  import opened AirSums
  import opened AirInvariant
  import opened AirLocal

  // ----- the invariant holds in every reachable state -----

  lemma InitialWeights(c: Config, s: State, i: nat, w: Weight)
    requires Initial(c, s) && i < |s.procs| && !w.Plus?
    ensures Eval(c, w, s.procs[i]) == 0
  {
  }

  lemma InitialSums(c: Config, s: State, w: Weight)
    requires Initial(c, s) && !w.Plus?
    ensures Sum(c, w, s.procs) == 0
  {
    forall i | 0 <= i < |s.procs|
      ensures Eval(c, w, s.procs[i]) == 0
    {
      InitialWeights(c, s, i, w);
    }
    SumToZero(c, w, s.procs, |s.procs|);
  }

  lemma InitialShape(c: Config, s: State)
    requires Initial(c, s)
    ensures Shape(c, s) && AllPlaced(c, s) && Queues(c, s)
    ensures forall i :: 0 <= i < |s.procs| ==> !Critical(s.procs[i])
  {
    forall x
      ensures x in s.sems <==> IsSem(c, x)
    {
      SemNames(c, x);
    }
    hide AllSems;
  }

  lemma SemNames(c: Config, x: SemId)
    ensures x in AllSems(c) <==> IsSem(c, x)
  {
    match x
    case Finished(j) =>
      if j < c.N() {
        assert Finished(j) in (set k | 0 <= k < c.N() :: Finished(k));
      }
    case _ =>
  }

  lemma InitialInv(c: Config, s: State)
    requires Initial(c, s)
    ensures Inv(c, s)
  {
    InitialShape(c, s);
    forall w: Weight | !w.Plus?
      ensures Sum(c, w, s.procs) == 0
    {
      InitialSums(c, s, w);
    }
    hide *;
    InvIs(c, s);
    InitialSemLaw(c, s);
    InitialData(c, s);
  }

  lemma InitialSemLaw(c: Config, s: State)
    requires Initial(c, s) && forall w: Weight :: !w.Plus? ==> Sum(c, w, s.procs) == 0
    ensures SemLaw(c, s)
  {
    hide Sum;
  }

  lemma InitialData(c: Config, s: State)
    requires Initial(c, s) && forall w: Weight :: !w.Plus? ==> Sum(c, w, s.procs) == 0
    requires forall i :: 0 <= i < |s.procs| ==> !Critical(s.procs[i])
    ensures Numbers(c, s) && Slots(c, s) && Out(c, s) && Tickets(c, s) && Booking(c, s)
  {
    hide Sum;
    forall j: nat
      ensures BookingOf(c, s, j)
    {
      assert Count([], j) == 0;
    }
  }

  lemma StepKeeps(c: Config, s: State, i: nat)
    requires Inv(c, s) && Enabled(c, s, i)
    ensures Inv(c, Step(c, s, i))
  {
    hide Inv, WaitStep, SignalStep, LocalStep, InstrOf;
    match InstrOf(c, s.procs[i])
    case DoWait(x) => WaitKeeps(c, s, i, x);
    case DoSignal(x) => SignalKeeps(c, s, i, x);
    case Local => LocalKeeps(c, s, i);
    case Halt =>
  }

  lemma {:induction false} RunInv(c: Config, s: State, schedule: seq<nat>)
    requires Initial(c, s) && Legal(c, s, schedule)
    ensures Inv(c, Run(c, s, schedule))
  {
    if schedule == [] {
      InitialInv(c, s);
    } else {
      var before := schedule[..|schedule| - 1];
      RunInv(c, s, before);
      StepKeeps(c, Run(c, s, before), schedule[|schedule| - 1]);
    }
  }

  // ----- safety -----

  /** Two processes inside the same critical section are the same process. */
  lemma MutualExclusion(c: Config, s0: State, schedule: seq<nat>, x: SemId, i: nat, k: nat)
    requires Initial(c, s0) && Legal(c, s0, schedule) && IsLock(x)
    requires var s := Run(c, s0, schedule);
      i < |s.procs| && k < |s.procs| && DebtOf(c, x, s.procs[i]) == 1 && DebtOf(c, x, s.procs[k]) == 1
    ensures i == k
  {
    var s := Run(c, s0, schedule);
    RunInv(c, s0, schedule);
    hide Run, Legal, Initial, DebtOf;
    OneHolder(c, s, x, i, k);
  }

  lemma HandledTwice(c: Config, s: State, i: nat, k: nat, j: nat)
    requires Inv(c, s) && i < |s.procs| && k < |s.procs| && i != k
    ensures Eval(c, Handled(j), s.procs[i]) + Eval(c, Handled(j), s.procs[k]) <= 1
  {
    HandledOnce(c, s, j);
    assert NonNegative(c, Handled(j), s.procs);
    SumToNonNegative(c, Handled(j), s.procs, |s.procs|);
    hide Eval;
  }

  /** Has this clerk taken customer j out of the queue? */
  predicate Took(p: Proc, j: nat) {
    p.Clerk? && (j in p.served || (Handling(p.kat) && p.cust == j))
  }

  lemma TookHandled(c: Config, p: Proc, j: nat)
    requires Took(p, j)
    ensures 1 <= Eval(c, Handled(j), p)
  {
    CountMember(p.served, j, |p.served|);
    assert p.served[..|p.served|] == p.served;
  }

  /** A clerk past cust_ready finds a written slot, and no two clerks ever take the same customer. */
  lemma QueueSafety(c: Config, s0: State, schedule: seq<nat>, i: nat, k: nat, j: nat)
    requires Initial(c, s0) && Legal(c, s0, schedule)
    requires var s := Run(c, s0, schedule); i < |s.procs| && k < |s.procs|
    ensures var s := Run(c, s0, schedule);
      && (s.procs[i].Clerk? && s.procs[i].kat in {ClerkWaitQueue, ReadSlot, BumpOut} ==> s.qout < s.qin <= |s.slots|)
      && (Took(s.procs[i], j) && Took(s.procs[k], j) ==> i == k)
  {
    var s := Run(c, s0, schedule);
    RunInv(c, s0, schedule);
    hide Run, Legal, Initial;
    if s.procs[i].Clerk? && s.procs[i].kat in {ClerkWaitQueue, ReadSlot, BumpOut} {
      SlotIsWritten(c, s, i);
    }
    hide Inv, Eval, Took;
    if Took(s.procs[i], j) && Took(s.procs[k], j) && i != k {
      TookHandled(c, s.procs[i], j);
      TookHandled(c, s.procs[k], j);
      HandledTwice(c, s, i, k, j);
    }
  }

  /** Some clerk holds a ticket for customer j that it has not finished booking. */
  ghost predicate Busy(s: State, j: nat) {
    exists i :: 0 <= i < |s.procs| && s.procs[i].Clerk? && s.procs[i].cust == j && s.procs[i].kat in {Record1, Take2, Record2}
  }

  lemma IdleClaims(c: Config, s: State, j: nat)
    requires !Busy(s, j)
    ensures Sum(c, Claim1(j), s.procs) == Sum(c, Claim2(j), s.procs) == Sum(c, Between(j), s.procs) == 0
  {
    forall i | 0 <= i < |s.procs|
      ensures Eval(c, Claim1(j), s.procs[i]) == Eval(c, Claim2(j), s.procs[i]) == Eval(c, Between(j), s.procs[i]) == 0
    {
    }
    hide Eval;
    SumToZero(c, Claim1(j), s.procs, |s.procs|);
    SumToZero(c, Claim2(j), s.procs, |s.procs|);
    SumToZero(c, Between(j), s.procs, |s.procs|);
  }

  /**
   Nobody is booked twice or on an unwanted flight; whoever wants both flights
   is on both or on neither, and the `booked` flag is right, unless a clerk is
   just booking for that customer.
   */
  lemma BookingSafety(c: Config, s0: State, schedule: seq<nat>, j: nat)
    requires Initial(c, s0) && Legal(c, s0, schedule)
    ensures var s := Run(c, s0, schedule);
      && Count(s.booked1, j) <= B(c.TypeOf(j) != Two) && Count(s.booked2, j) <= B(c.TypeOf(j) != One)
      && (c.TypeOf(j) == Three && !Busy(s, j) ==> Count(s.booked1, j) == Count(s.booked2, j))
      && (!Busy(s, j) ==> (j in s.flags <==> Count(s.booked1, j) + Count(s.booked2, j) > 0))
  {
    var s := Run(c, s0, schedule);
    RunInv(c, s0, schedule);
    BookingIs(c, s, j);
    hide *;
    PastOnce(c, s, j);
    ClaimsNonNegative(c, s, j);
    BIs(c.TypeOf(j) != Two);
    BIs(c.TypeOf(j) != One);
    BIs(j < c.N());
    if !Busy(s, j) {
      IdleClaims(c, s, j);
    }
  }

  lemma BIs(b: bool)
    ensures B(b) == if b then 1 else 0
  {
  }

  lemma BookingIs(c: Config, s: State, j: nat)
    requires Inv(c, s)
    ensures var t := c.TypeOf(j);
      var got1 := Count(s.booked1, j) + Sum(c, Claim1(j), s.procs);
      var got2 := Count(s.booked2, j) + Sum(c, Claim2(j), s.procs);
      && (if t == Two then got1 == 0 else got1 <= Sum(c, Past1(j), s.procs))
      && (if t == One then got2 == 0 else got2 <= Sum(c, Past2(j), s.procs))
      && (t == Three ==> got1 == got2 + Sum(c, Between(j), s.procs))
      && (j in s.flags <==> got1 + got2 > 0)
      && (Supply(c) && t != Two ==> got1 == Sum(c, Past1(j), s.procs))
      && (Supply(c) && t != One ==> got2 == Sum(c, Past2(j), s.procs))
  {
    assert BookingOf(c, s, j);
  }

  lemma Tally(c: Config, s: State)
    requires Inv(c, s)
    ensures s.left1 + |s.booked1| + Sum(c, Recording1, s.procs) == c.tickets1
    ensures s.left2 + |s.booked2| + Sum(c, Recording2, s.procs) == c.tickets2
    ensures 0 <= s.left1 && 0 <= s.left2 && 0 <= Sum(c, Recording1, s.procs) && 0 <= Sum(c, Recording2, s.procs)
  {
    hide Sum;
    RecordingNonNegative(c, s);
  }

  lemma RecordingNonNegative(c: Config, s: State)
    ensures 0 <= Sum(c, Recording1, s.procs) && 0 <= Sum(c, Recording2, s.procs)
  {
    SumNonNegative(c, Recording1, s.procs);
    SumNonNegative(c, Recording2, s.procs);
  }

  /** Tickets are never oversold, and each is either left or recorded when no clerk holds one in hand. */
  lemma TicketsConserved(c: Config, s0: State, schedule: seq<nat>)
    requires Initial(c, s0) && Legal(c, s0, schedule)
    ensures var s := Run(c, s0, schedule);
      && 0 <= s.left1 && s.left1 + |s.booked1| <= c.tickets1
      && 0 <= s.left2 && s.left2 + |s.booked2| <= c.tickets2
      && ((forall i :: 0 <= i < |s.procs| ==> !AtClerk(s.procs[i], Record1)) ==> s.left1 + |s.booked1| == c.tickets1)
      && ((forall i :: 0 <= i < |s.procs| ==> !AtClerk(s.procs[i], Record2)) ==> s.left2 + |s.booked2| == c.tickets2)
  {
    var s := Run(c, s0, schedule);
    RunInv(c, s0, schedule);
    hide *;
    Tally(c, s);
    NobodyRecording(c, s.procs);
  }

  lemma NobodyRecording(c: Config, ps: seq<Proc>)
    ensures (forall i :: 0 <= i < |ps| ==> !AtClerk(ps[i], Record1)) ==> Sum(c, Recording1, ps) == 0
    ensures (forall i :: 0 <= i < |ps| ==> !AtClerk(ps[i], Record2)) ==> Sum(c, Recording2, ps) == 0
  {
    if forall i :: 0 <= i < |ps| ==> !AtClerk(ps[i], Record1) {
      SumToZero(c, Recording1, ps, |ps|);
    }
    if forall i :: 0 <= i < |ps| ==> !AtClerk(ps[i], Record2) {
      SumToZero(c, Recording2, ps, |ps|);
    }
  }

  // ----- no deadlock -----

  /** A process that cannot step has halted or is queued at the semaphore it waits for. */
  lemma Stuck(c: Config, s: State, i: nat)
    requires Inv(c, s) && Quiescent(c, s) && i < |s.procs|
    ensures match InstrOf(c, s.procs[i]) {
      case Halt => true
      case DoWait(x) => x in s.sems && i in s.sems[x].queue
      case _ => false
    }
  {
    assert !Enabled(c, s, i);
    if Blocked(s, i) {
      var x :| x in s.sems && i in s.sems[x].queue;
      assert QueueAt(c, s, x);
    }
  }

  /** A lock nobody holds is free, and nobody waits for it. */
  lemma FreeLock(c: Config, s: State, x: SemId)
    requires SemLaw(c, s) && x in s.sems && IsLock(x)
    requires forall i :: 0 <= i < |s.procs| ==> Eval(c, Debt(x), s.procs[i]) == 0
    ensures s.sems[x] == Sem(1, [])
  {
    assert LawAt(c, s, x);
    SumToZero(c, Debt(x), s.procs, |s.procs|);
  }

  /** What is left when nothing can step: clerks wait for customers, customers for a clerk or the end. */
  ghost predicate Settled(c: Config, s: State) {
    && (forall x :: x in s.sems && IsLock(x) ==> s.sems[x] == Sem(1, []))
    && (forall i :: 0 <= i < |s.procs| && s.procs[i].Clerk? ==>
          s.procs[i].kat == WaitReady && Ready in s.sems && i in s.sems[Ready].queue)
    && (forall i :: 0 <= i < |s.procs| && s.procs[i].Customer? ==>
          s.procs[i].cat in {WaitClerk, WaitFinished, Done})
  }

  lemma HoldersRun(c: Config, p: Proc, x: SemId)
    requires IsLock(x) && WellPlaced(c, p) && Eval(c, Debt(x), p) != 0
    ensures InstrOf(c, p) == Local || InstrOf(c, p).DoSignal? || (x == Flight1CS && InstrOf(c, p) == DoWait(Flight2CS))
  {
  }

  lemma LockSettles(c: Config, s: State, x: SemId)
    requires Inv(c, s) && Quiescent(c, s) && IsLock(x) && IsSem(c, x)
    requires x == Flight1CS ==> s.sems[Flight2CS] == Sem(1, [])
    ensures s.sems[x] == Sem(1, [])
  {
    forall i | 0 <= i < |s.procs|
      ensures Eval(c, Debt(x), s.procs[i]) == 0
    {
      assert WellPlaced(c, s.procs[i]);
      Stuck(c, s, i);
      if Eval(c, Debt(x), s.procs[i]) != 0 {
        HoldersRun(c, s.procs[i], x);
      }
    }
    FreeLock(c, s, x);
  }

  /** Flight 1 is always locked before flight 2, so no cycle of waiting clerks exists. */
  lemma QuiescentSettles(c: Config, s: State)
    requires Inv(c, s) && Quiescent(c, s)
    ensures Settled(c, s)
  {
    assert IsSem(c, CounterCS) && IsSem(c, QueueCS) && IsSem(c, Flight1CS) && IsSem(c, Flight2CS) && IsSem(c, Ready);
    LockSettles(c, s, CounterCS);
    LockSettles(c, s, QueueCS);
    LockSettles(c, s, Flight2CS);
    LockSettles(c, s, Flight1CS);
    hide Inv, Quiescent;
    forall i | 0 <= i < |s.procs|
      ensures s.procs[i].Clerk? ==> s.procs[i].kat == WaitReady && i in s.sems[Ready].queue
      ensures s.procs[i].Customer? ==> s.procs[i].cat in {WaitClerk, WaitFinished, Done}
    {
      Stuck(c, s, i);
      StuckPlaces(c, s, i);
    }
  }

  lemma StuckPlaces(c: Config, s: State, i: nat)
    requires i < |s.procs|
    requires match InstrOf(c, s.procs[i]) {
      case Halt => true
      case DoWait(x) => x in s.sems && i in s.sems[x].queue
      case _ => false
    }
    requires forall x :: x in s.sems && IsLock(x) ==> s.sems[x] == Sem(1, [])
    ensures s.procs[i].Clerk? ==> s.procs[i].kat == WaitReady && Ready in s.sems && i in s.sems[Ready].queue
    ensures s.procs[i].Customer? ==> s.procs[i].cat in {WaitClerk, WaitFinished, Done}
  {
  }

  lemma {:induction false} DistinctLength(q: seq<nat>, lo: nat, hi: nat)
    requires lo <= hi && (forall k, l :: 0 <= k < l < |q| ==> q[k] != q[l])
    requires forall k :: 0 <= k < |q| ==> lo <= q[k] < hi
    requires forall x :: lo <= x < hi ==> x in q
    ensures |q| == hi - lo
  {
    if lo < hi {
      assert hi - 1 in q;
      var k :| 0 <= k < |q| && q[k] == hi - 1;
      var rest := q[..k] + q[k + 1..];
      assert forall m :: 0 <= m < |rest| ==> rest[m] == q[if m < k then m else m + 1];
      assert forall m :: 0 <= m < |q| && m != k ==> q[m] != hi - 1;
      forall x | lo <= x < hi - 1
        ensures x in rest
      {
        assert x in q;
        var m :| 0 <= m < |q| && q[m] == x;
        assert rest[if m < k then m else m - 1] == x;
      }
      DistinctLength(rest, lo, hi - 1);
    }
  }

  /** All clerks are queued at cust_ready, and nobody else is. */
  lemma ReadyQueue(c: Config, s: State)
    requires Inv(c, s) && Settled(c, s)
    ensures Ready in s.sems && |s.sems[Ready].queue| == c.clerks
  {
    assert IsSem(c, Ready) && QueueAt(c, s, Ready);
    var q := s.sems[Ready].queue;
    hide SemLaw, Queues, Numbers, Slots, Out, Tickets, Booking, InstrOf, AllPlaced;
    forall k | 0 <= k < |q|
      ensures c.N() <= q[k] < c.N() + c.clerks
    {
      ReadyQueueRange(c, s, k);
    }
    DistinctLength(q, c.N(), c.N() + c.clerks);
  }

  lemma Mirror(c: Config, p: Proc)
    requires p.Clerk? ==> p.kat == WaitReady
    requires p.Customer? ==> p.cat in {WaitClerk, WaitFinished, Done}
    ensures Eval(c, Plus(Debt(ClerkSem), Debt(Ready)), p) == 0
  {
  }

  /** In a settled state what clerks owe to `clerk` is what they are owed by cust_ready. */
  lemma ClerkDebtMirrors(c: Config, s: State)
    requires Inv(c, s) && Settled(c, s)
    ensures Sum(c, Debt(ClerkSem), s.procs) == -Sum(c, Debt(Ready), s.procs)
  {
    forall i | 0 <= i < |s.procs|
      ensures Eval(c, Plus(Debt(ClerkSem), Debt(Ready)), s.procs[i]) == 0
    {
      Mirror(c, s.procs[i]);
    }
    hide Eval;
    SumToZero(c, Plus(Debt(ClerkSem), Debt(Ready)), s.procs, |s.procs|);
    SumPlus(c, Debt(ClerkSem), Debt(Ready), s.procs);
  }

  lemma ClerksIdle(c: Config, s: State)
    requires Inv(c, s) && Settled(c, s) && 1 <= c.clerks
    ensures Ready in s.sems && s.sems[Ready].value == 0 - c.clerks && Sum(c, Debt(Ready), s.procs) == 0
    ensures ClerkSem in s.sems && s.sems[ClerkSem] == Sem(c.clerks, [])
  {
    ReadyQueue(c, s);
    ClerkDebtMirrors(c, s);
    assert IsSem(c, ClerkSem) && LawAt(c, s, Ready) && LawAt(c, s, ClerkSem);
  }

  /** Nobody waits for a clerk any more. */
  lemma NobodyWaitsForClerk(c: Config, s: State, i: nat)
    requires Inv(c, s) && Quiescent(c, s) && Settled(c, s) && 1 <= c.clerks && i < |s.procs|
    ensures s.procs[i].Customer? ==> s.procs[i].cat in {WaitFinished, Done}
  {
    ClerksIdle(c, s);
    Stuck(c, s, i);
  }

  predicate NoneWaitsForClerk(s: State) {
    forall i :: 0 <= i < |s.procs| && s.procs[i].Customer? ==> s.procs[i].cat in {WaitFinished, Done}
  }

  lemma SettledIsTaken(c: Config, p: Proc)
    requires p.Clerk? ==> p.kat == WaitReady
    requires p.Customer? ==> p.cat in {WaitFinished, Done}
    ensures Eval(c, Plus(Enqueued, Debt(Ready)), p) <= Eval(c, Taken, p)
  {
    hide Holds1, Holds2, Count;
  }

  lemma AllConsumed(c: Config, s: State)
    requires Inv(c, s) && Settled(c, s) && NoneWaitsForClerk(s) && 1 <= c.clerks
    ensures s.qout == s.qin
  {
    ClerksIdle(c, s);
    forall i | 0 <= i < |s.procs|
      ensures Eval(c, Plus(Enqueued, Debt(Ready)), s.procs[i]) <= Eval(c, Taken, s.procs[i])
    {
      SettledIsTaken(c, s.procs[i]);
    }
    assert s.qin == Sum(c, Enqueued, s.procs) && s.qout == Sum(c, Taken, s.procs) && s.qout <= s.qin;
    hide Eval, Inv, Settled, Sum;
    SumBelow(c, Plus(Enqueued, Debt(Ready)), Taken, s.procs, 0);
    SumPlus(c, Enqueued, Debt(Ready), s.procs);
  }

  /** A customer still waiting to be finished would have been signalled already. */
  lemma NobodyWaitsToFinish(c: Config, s: State, i: nat)
    requires Inv(c, s) && Quiescent(c, s) && Settled(c, s) && 1 <= c.clerks && i < |s.procs|
    ensures s.procs[i].Customer? ==> s.procs[i].cat == Done
  {
    forall k | 0 <= k < |s.procs|
      ensures s.procs[k].Customer? ==> s.procs[k].cat in {WaitFinished, Done}
    {
      NobodyWaitsForClerk(c, s, k);
    }
    var p := s.procs[i];
    if p.Customer? && p.cat == WaitFinished {
      Stuck(c, s, i);
      var x := Finished(p.id);
      assert LawAt(c, s, x) && 1 <= |s.sems[x].queue|;
      AllConsumed(c, s);
      FinishedOwes(c, s, i);
    }
  }

  /** Customer i is enqueued and everything enqueued was handled, so its finish signal is outstanding. */
  lemma FinishedOwes(c: Config, s: State, i: nat)
    requires Inv(c, s) && Settled(c, s) && s.qin == s.qout && i < |s.procs| && AtCustomer(s.procs[i], WaitFinished)
    ensures Sum(c, Debt(Finished(s.procs[i].id)), s.procs) <= -1
  {
    var j := s.procs[i].id;
    HandledOnce(c, s, j);
    SumNonNegative(c, InSlot(j), s.procs);
    assert 1 <= Eval(c, InSlot(j), s.procs[i]) <= Sum(c, InSlot(j), s.procs);
    assert Sum(c, Handled(j), s.procs) == Sum(c, InSlot(j), s.procs);
    var w := Plus(Debt(Finished(j)), Handled(j));
    forall k | 0 <= k < |s.procs|
      ensures Eval(c, w, s.procs[k]) <= Eval(c, Numbered(j), s.procs[k])
    {
      FinishedBalance(c, s, k, j);
    }
    FinishedBalance(c, s, i, j);
    hide Eval;
    SumBelow(c, w, Numbered(j), s.procs, i);
    SumPlus(c, Debt(Finished(j)), Handled(j), s.procs);
  }

  lemma FinishedBalance(c: Config, s: State, k: nat, j: nat)
    requires Settled(c, s) && k < |s.procs|
    ensures Eval(c, Plus(Debt(Finished(j)), Handled(j)), s.procs[k]) + B(AtCustomer(s.procs[k], WaitFinished) && s.procs[k].id == j)
            <= Eval(c, Numbered(j), s.procs[k])
    ensures s.procs[k].Customer? && s.procs[k].cat == Done ==>
      Eval(c, Plus(Debt(Finished(j)), Handled(j)), s.procs[k]) == Eval(c, Numbered(j), s.procs[k])
    ensures s.procs[k].Clerk? || s.procs[k].Master? ==>
      Eval(c, Plus(Debt(Finished(j)), Handled(j)), s.procs[k]) == Eval(c, Numbered(j), s.procs[k])
  {
    hide Count;
  }

  // ----- the final state -----

  predicate AllDone(c: Config, s: State)
    requires c.N() <= |s.procs|
  {
    forall i :: 0 <= i < c.N() ==> AtCustomer(s.procs[i], Done)
  }

  /** What the master asserts, and more: everybody is done and every semaphore is back to rest. */
  ghost predicate Final(c: Config, s: State) {
    && c.N() + c.clerks < |s.procs| && AllDone(c, s)
    && s.procs[c.N() + c.clerks] == Master(c.N())
    && (forall x :: x in s.sems && IsLock(x) ==> s.sems[x] == Sem(1, []))
    && ClerkSem in s.sems && s.sems[ClerkSem] == Sem(c.clerks, [])
    && Ready in s.sems && s.sems[Ready].value == 0 - c.clerks && |s.sems[Ready].queue| == c.clerks
    && Terminated in s.sems && s.sems[Terminated] == Sem(0, [])
    && forall j :: 0 <= j < c.N() ==> Finished(j) in s.sems && s.sems[Finished(j)] == Sem(0, [])
  }

  lemma {:induction false} DoneSumsTo(c: Config, s: State, n: nat)
    requires Shape(c, s) && n <= |s.procs| && AllDone(c, s)
    ensures SumTo(c, Debt(Terminated), s.procs, n) ==
      if n <= c.N() then 0 - n
      else if n <= c.N() + c.clerks then 0 - c.N()
      else s.procs[c.N() + c.clerks].seen - c.N()
    ensures SumTo(c, Counted, s.procs, n) == if n <= c.N() then n else c.N()
    ensures SumTo(c, Enqueued, s.procs, n) == if n <= c.N() then n else c.N()
  {
    if n > 0 {
      DoneSumsTo(c, s, n - 1);
    }
  }

  lemma DoneSums(c: Config, s: State)
    requires Shape(c, s) && AllDone(c, s)
    ensures Sum(c, Debt(Terminated), s.procs) == s.procs[c.N() + c.clerks].seen - c.N()
    ensures Sum(c, Counted, s.procs) == c.N() && Sum(c, Enqueued, s.procs) == c.N()
  {
    DoneSumsTo(c, s, |s.procs|);
  }

  /** Nobody can be queued at a semaphore no process is about to wait for. */
  lemma EmptyQueue(c: Config, s: State, x: SemId)
    requires x in s.sems && QueueAt(c, s, x)
    requires forall i :: 0 <= i < |s.procs| ==> InstrOf(c, s.procs[i]) != DoWait(x)
    ensures s.sems[x].queue == []
  {
    if s.sems[x].queue != [] {
      QueueHead(c, s, x);
    }
  }

  lemma QueueHead(c: Config, s: State, x: SemId)
    requires x in s.sems && QueueAt(c, s, x) && s.sems[x].queue != []
    ensures exists i :: 0 <= i < |s.procs| && InstrOf(c, s.procs[i]) == DoWait(x)
  {
    assert InstrOf(c, s.procs[s.sems[x].queue[0]]) == DoWait(x);
  }

  /** The master has left its loop and nobody is queued at custTerminated. */
  lemma MasterDone(c: Config, s: State)
    requires Inv(c, s) && AllDone(c, s)
    requires var m := c.N() + c.clerks;
      s.procs[m].seen < c.N() ==> Terminated in s.sems && m in s.sems[Terminated].queue
    ensures s.procs[c.N() + c.clerks] == Master(c.N())
    ensures Terminated in s.sems && s.sems[Terminated] == Sem(0, [])
  {
    var m := c.N() + c.clerks;
    DoneSums(c, s);
    assert IsSem(c, Terminated) && LawAt(c, s, Terminated) && QueueAt(c, s, Terminated);
    hide Sum, SemLaw, Queues, Numbers, Slots, Out, Tickets, Booking;
    if s.procs[m].seen >= c.N() {
      forall i | 0 <= i < |s.procs|
        ensures InstrOf(c, s.procs[i]) != DoWait(Terminated)
      {
      }
      EmptyQueue(c, s, Terminated);
    }
  }

  /** When all customers are done, their numbers are 0 .. N-1, and everything enqueued bears on them. */
  lemma DoneCounts(c: Config, s: State, j: nat)
    requires Inv(c, s) && AllDone(c, s) && j < c.N()
    ensures s.counter == c.N() == s.qin && Sum(c, Numbered(j), s.procs) == 1 == Sum(c, InSlot(j), s.procs)
  {
    DoneSums(c, s);
    assert s.counter == c.N() == s.qin;
    assert Sum(c, Numbered(j), s.procs) == 1;
    forall i | 0 <= i < |s.procs|
      ensures Eval(c, Numbered(j), s.procs[i]) == Eval(c, InSlot(j), s.procs[i])
    {
    }
    hide Inv, Eval;
    SumBelow(c, Numbered(j), InSlot(j), s.procs, 0);
    SumBelow(c, InSlot(j), Numbered(j), s.procs, 0);
  }

  /** Debts to cust_finished_j and served customers balance. */
  lemma FinishedSums(c: Config, s: State, j: nat)
    requires Inv(c, s) && AllDone(c, s) && j < c.N()
    requires forall i :: 0 <= i < |s.procs| && s.procs[i].Clerk? ==> s.procs[i].kat == WaitReady
    requires s.qin == s.qout
    ensures Sum(c, Debt(Finished(j)), s.procs) == 0
  {
    DoneCounts(c, s, j);
    assert Sum(c, Handled(j), s.procs) == Sum(c, InSlot(j), s.procs);
    var w := Plus(Debt(Finished(j)), Handled(j));
    forall i | 0 <= i < |s.procs|
      ensures Eval(c, w, s.procs[i]) == Eval(c, Numbered(j), s.procs[i])
    {
      FinishedEven(c, s, i, j);
    }
    hide Inv, Eval;
    SumBelow(c, w, Numbered(j), s.procs, 0);
    SumBelow(c, Numbered(j), w, s.procs, 0);
    SumPlus(c, Debt(Finished(j)), Handled(j), s.procs);
  }

  lemma FinishedEven(c: Config, s: State, i: nat, j: nat)
    requires Shape(c, s) && AllDone(c, s) && i < |s.procs| && (s.procs[i].Clerk? ==> s.procs[i].kat == WaitReady)
    ensures Eval(c, Plus(Debt(Finished(j)), Handled(j)), s.procs[i]) == Eval(c, Numbered(j), s.procs[i])
  {
    hide Count;
    assert s.procs[i].Customer? ==> i < c.N();
  }

  lemma FinishedRests(c: Config, s: State, j: nat)
    requires Inv(c, s) && AllDone(c, s) && j < c.N()
    requires forall i :: 0 <= i < |s.procs| && s.procs[i].Clerk? ==> s.procs[i].kat == WaitReady
    requires s.qin == s.qout
    ensures Finished(j) in s.sems && s.sems[Finished(j)] == Sem(0, [])
  {
    var x := Finished(j);
    FinishedSums(c, s, j);
    assert IsSem(c, x) && LawAt(c, s, x) && QueueAt(c, s, x);
    hide Sum, SemLaw, Queues, Numbers, Slots, Out, Tickets, Booking;
    forall i | 0 <= i < |s.procs|
      ensures InstrOf(c, s.procs[i]) != DoWait(x)
    {
      assert s.procs[i].Customer? ==> i < c.N();
    }
    EmptyQueue(c, s, x);
  }

  lemma EverybodyDone(c: Config, s: State)
    requires Inv(c, s) && Quiescent(c, s) && Settled(c, s) && 1 <= c.clerks
    ensures AllDone(c, s)
  {
    forall i | 0 <= i < c.N()
      ensures AtCustomer(s.procs[i], Done)
    {
      NobodyWaitsToFinish(c, s, i);
    }
  }

  lemma FinalIs(c: Config, s: State)
    requires Inv(c, s) && Settled(c, s) && AllDone(c, s) && s.procs[c.N() + c.clerks] == Master(c.N())
    requires ClerkSem in s.sems && s.sems[ClerkSem] == Sem(c.clerks, [])
    requires Ready in s.sems && s.sems[Ready].value == 0 - c.clerks && |s.sems[Ready].queue| == c.clerks
    requires Terminated in s.sems && s.sems[Terminated] == Sem(0, [])
    requires forall j :: 0 <= j < c.N() ==> Finished(j) in s.sems && s.sems[Finished(j)] == Sem(0, [])
    ensures Final(c, s)
  {
    hide SemLaw, Queues, Numbers, Slots, Out, Tickets, Booking;
  }

  lemma MasterStuck(c: Config, s: State)
    requires Inv(c, s) && Quiescent(c, s)
    ensures var m := c.N() + c.clerks;
      s.procs[m].seen < c.N() ==> Terminated in s.sems && m in s.sems[Terminated].queue
  {
    var m := c.N() + c.clerks;
    assert m < |s.procs| && s.procs[m].Master?;
    Stuck(c, s, m);
    hide Inv, Quiescent;
  }

  /** No deadlock: when nothing can step, the system is in its final state. */
  lemma QuiescentIsFinal(c: Config, s: State)
    requires Inv(c, s) && Quiescent(c, s) && 1 <= c.clerks
    ensures Final(c, s)
  {
    QuiescentSettles(c, s);
    EverybodyDone(c, s);
    MasterStuck(c, s);
    MasterDone(c, s);
    RestIsFinal(c, s);
  }

  lemma RestIsFinal(c: Config, s: State)
    requires Inv(c, s) && Settled(c, s) && AllDone(c, s) && 1 <= c.clerks
    requires s.procs[c.N() + c.clerks] == Master(c.N())
    requires Terminated in s.sems && s.sems[Terminated] == Sem(0, [])
    ensures Final(c, s)
  {
    ClerksIdle(c, s);
    ReadyQueue(c, s);
    DoneIsNoWait(c, s);
    AllConsumed(c, s);
    forall j | 0 <= j < c.N()
      ensures Finished(j) in s.sems && s.sems[Finished(j)] == Sem(0, [])
    {
      FinishedRests(c, s, j);
    }
    hide *;
    FinalIs(c, s);
  }

  lemma DoneIsNoWait(c: Config, s: State)
    requires Shape(c, s) && AllDone(c, s)
    ensures NoneWaitsForClerk(s)
  {
    assert forall i :: 0 <= i < |s.procs| && s.procs[i].Customer? ==> i < c.N();
  }

  /** Deadlock freedom over every run, for any number of customers and at least one clerk. */
  lemma NoDeadlock(c: Config, s0: State, schedule: seq<nat>)
    requires Initial(c, s0) && Legal(c, s0, schedule) && 1 <= c.clerks
    requires Quiescent(c, Run(c, s0, schedule))
    ensures Final(c, Run(c, s0, schedule))
  {
    hide *;
    RunInv(c, s0, schedule);
    QuiescentIsFinal(c, Run(c, s0, schedule));
  }

  // ----- the master's assertions -----

  lemma {:induction false} TerminatedTo(c: Config, s: State, n: nat)
    requires Shape(c, s) && n <= |s.procs|
    ensures SumTo(c, Debt(Terminated), s.procs, n) >=
      (if n <= c.N() then 0 - n else 0 - c.N()) + if n <= c.N() + c.clerks then 0 else s.procs[c.N() + c.clerks].seen
    ensures forall i :: 0 <= i < n && i < c.N() && !AtCustomer(s.procs[i], Done) ==>
      SumTo(c, Debt(Terminated), s.procs, n) >
        (if n <= c.N() then 0 - n else 0 - c.N()) + if n <= c.N() + c.clerks then 0 else s.procs[c.N() + c.clerks].seen
  {
    if n > 0 {
      TerminatedTo(c, s, n - 1);
    }
  }

  /** Once the master has left its wait loop every customer is done. */
  lemma MasterWaitsForAll(c: Config, s: State)
    requires Inv(c, s)
    ensures s.procs[c.N() + c.clerks].seen <= c.N()
    ensures s.procs[c.N() + c.clerks].seen == c.N() ==> AllDone(c, s)
  {
    TerminatedTo(c, s, |s.procs|);
    assert IsSem(c, Terminated) && LawAt(c, s, Terminated);
    hide SemLaw, Queues, Numbers, Slots, Out, Tickets, Booking;
  }

  lemma DoneWasServed(c: Config, s: State, j: nat)
    requires Inv(c, s) && AllDone(c, s) && j < c.N()
    ensures 1 <= Sum(c, Past1(j), s.procs) && 1 <= Sum(c, Past2(j), s.procs)
  {
    DoneCounts(c, s, j);
    var x := Finished(j);
    assert IsSem(c, x) && LawAt(c, s, x);
    assert Sum(c, Debt(x), s.procs) <= 0;
    forall i | 0 <= i < |s.procs|
      ensures Eval(c, Numbered(j), s.procs[i]) <= Eval(c, Plus(Debt(x), Past1(j)), s.procs[i])
      ensures Eval(c, Numbered(j), s.procs[i]) <= Eval(c, Plus(Debt(x), Past2(j)), s.procs[i])
    {
      ServedBound(c, s, i, j);
    }
    hide Inv, Eval;
    SumBelow(c, Numbered(j), Plus(Debt(x), Past1(j)), s.procs, 0);
    SumBelow(c, Numbered(j), Plus(Debt(x), Past2(j)), s.procs, 0);
    SumPlus(c, Debt(x), Past1(j), s.procs);
    SumPlus(c, Debt(x), Past2(j), s.procs);
  }

  lemma ServedBound(c: Config, s: State, i: nat, j: nat)
    requires Shape(c, s) && AllDone(c, s) && i < |s.procs|
    ensures Eval(c, Numbered(j), s.procs[i]) <= Eval(c, Plus(Debt(Finished(j)), Past1(j)), s.procs[i])
    ensures Eval(c, Numbered(j), s.procs[i]) <= Eval(c, Plus(Debt(Finished(j)), Past2(j)), s.procs[i])
  {
    hide Count;
    assert s.procs[i].Customer? ==> i < c.N();
  }

  /** Each customer is booked exactly once on each flight it wants. */
  ghost predicate AllBooked(c: Config, s: State) {
    forall j :: 0 <= j < c.N() ==>
      Count(s.booked1, j) == B(c.types[j] != Two) && Count(s.booked2, j) == B(c.types[j] != One)
  }

  /**
   In every state after its wait loop the master's `find` checks succeed for
   every customer if and only if there were enough tickets on both flights.
   */
  lemma MasterFindsBookings(c: Config, s0: State, schedule: seq<nat>)
    requires Initial(c, s0) && Legal(c, s0, schedule)
    requires var s := Run(c, s0, schedule);
      c.N() + c.clerks < |s.procs| && s.procs[c.N() + c.clerks] == Master(c.N())
    ensures AllBooked(c, Run(c, s0, schedule)) <==> Supply(c)
  {
    var s := Run(c, s0, schedule);
    TicketsConserved(c, s0, schedule);
    hide Run, Legal, Initial;
    if Supply(c) {
      forall j: nat | j < c.N()
        ensures Count(s.booked1, j) == B(c.types[j] != Two) && Count(s.booked2, j) == B(c.types[j] != One)
      {
        SupplyFindsBookings(c, s0, schedule, j);
      }
    } else if AllBooked(c, s) {
      hide Count;
      DemandFits(s.booked1, Demand1(c));
      DemandFits(s.booked2, Demand2(c));
    }
  }

  /** Whoever is counted in q takes a place in q. */
  lemma {:induction false} DemandFits(q: seq<nat>, wanted: set<nat>)
    requires forall j: nat :: j in wanted ==> 0 < Count(q, j)
    ensures |wanted| <= |q|
  {
    if q == [] {
      assert forall j: nat :: Count(q, j) == 0;
      assert wanted == {};
    } else {
      var k := |q| - 1;
      forall j: nat | j in wanted - {q[k]}
        ensures 0 < Count(q[..k], j)
      {
        CountToSame(q, q[..k], j, k);
      }
      DemandFits(q[..k], wanted - {q[k]});
    }
  }

  lemma SupplyFindsBookings(c: Config, s0: State, schedule: seq<nat>, j: nat)
    requires Initial(c, s0) && Legal(c, s0, schedule) && Supply(c) && j < c.N()
    requires var s := Run(c, s0, schedule);
      c.N() + c.clerks < |s.procs| && s.procs[c.N() + c.clerks] == Master(c.N())
    ensures var s := Run(c, s0, schedule);
      Count(s.booked1, j) == B(c.types[j] != Two) && Count(s.booked2, j) == B(c.types[j] != One)
  {
    var s := Run(c, s0, schedule);
    RunInv(c, s0, schedule);
    MasterWaitsForAll(c, s);
    BookingIs(c, s, j);
    DoneWasServed(c, s, j);
    PastOnce(c, s, j);
    NobodyClaims(c, s, j);
    hide Inv, Run, Legal, Initial, Sum, Count, Supply;
  }

  /** Nobody still books for a customer that is done. */
  lemma NobodyClaims(c: Config, s: State, j: nat)
    requires Inv(c, s) && AllDone(c, s) && j < c.N()
    ensures Sum(c, Claim1(j), s.procs) == 0 && Sum(c, Claim2(j), s.procs) == 0
  {
    DoneCounts(c, s, j);
    HandledOnce(c, s, j);
    var x := Finished(j);
    assert IsSem(c, x) && LawAt(c, s, x);
    assert Sum(c, Debt(x), s.procs) <= 0;
    forall i | 0 <= i < |s.procs|
      ensures Eval(c, Plus(Numbered(j), Claim1(j)), s.procs[i]) <= Eval(c, Plus(Debt(x), Handled(j)), s.procs[i])
      ensures Eval(c, Plus(Numbered(j), Claim2(j)), s.procs[i]) <= Eval(c, Plus(Debt(x), Handled(j)), s.procs[i])
    {
      ClaimBound(c, s, i, j);
    }
    ClaimsNonNegative(c, s, j);
    hide Inv, Eval;
    SumBelow(c, Plus(Numbered(j), Claim1(j)), Plus(Debt(x), Handled(j)), s.procs, 0);
    SumBelow(c, Plus(Numbered(j), Claim2(j)), Plus(Debt(x), Handled(j)), s.procs, 0);
    SumPlus(c, Debt(x), Handled(j), s.procs);
    SumPlus(c, Numbered(j), Claim1(j), s.procs);
    SumPlus(c, Numbered(j), Claim2(j), s.procs);
  }

  lemma ClaimBound(c: Config, s: State, i: nat, j: nat)
    requires Shape(c, s) && AllDone(c, s) && i < |s.procs|
    ensures Eval(c, Plus(Numbered(j), Claim1(j)), s.procs[i]) <= Eval(c, Plus(Debt(Finished(j)), Handled(j)), s.procs[i])
    ensures Eval(c, Plus(Numbered(j), Claim2(j)), s.procs[i]) <= Eval(c, Plus(Debt(Finished(j)), Handled(j)), s.procs[i])
  {
    hide Count;
    assert s.procs[i].Customer? ==> i < c.N();
  }

  // ----- why the master sleeps before it checks -----

  ghost predicate ClerksQueued(c: Config, s: State) {
    forall i :: 0 <= i < |s.procs| && s.procs[i].Clerk? ==>
      s.procs[i].kat == WaitReady && Ready in s.sems && i in s.sems[Ready].queue
  }

  lemma {:induction false} DistinctCovers(q: seq<nat>, lo: nat, hi: nat, x: nat)
    requires lo <= x < hi && (forall k, l :: 0 <= k < l < |q| ==> q[k] != q[l])
    requires (forall k :: 0 <= k < |q| ==> lo <= q[k] < hi) && |q| == hi - lo
    ensures x in q
  {
    if x !in q {
      var more := q + [x];
      assert forall k, l :: 0 <= k < l < |more| ==> more[k] != more[l];
      DistinctFitsRange(more, lo, hi);
    }
  }

  lemma {:induction false} DistinctFitsRange(q: seq<nat>, lo: nat, hi: nat)
    requires lo <= hi && (forall k, l :: 0 <= k < l < |q| ==> q[k] != q[l])
    requires forall k :: 0 <= k < |q| ==> lo <= q[k] < hi
    ensures |q| <= hi - lo
  {
    if q != [] {
      assert lo <= q[0] < hi;
      if hi - 1 in q {
        var k :| 0 <= k < |q| && q[k] == hi - 1;
        var rest := q[..k] + q[k + 1..];
        assert forall m :: 0 <= m < |rest| ==> rest[m] == q[if m < k then m else m + 1];
        DistinctFitsRange(rest, lo, hi - 1);
      } else {
        assert forall k :: 0 <= k < |q| ==> q[k] in q;
        DistinctFitsRange(q, lo, hi - 1);
      }
    }
  }

  lemma ReadyQueueRange(c: Config, s: State, k: nat)
    requires Shape(c, s) && Ready in s.sems && QueueAt(c, s, Ready) && k < |s.sems[Ready].queue|
    ensures var i := s.sems[Ready].queue[k];
      c.N() <= i < c.N() + c.clerks && i < |s.procs| && s.procs[i].Clerk? && s.procs[i].kat == WaitReady
  {
    assert InstrOf(c, s.procs[s.sems[Ready].queue[k]]) == DoWait(Ready);
  }

  /** cust_ready at -K means that all K clerks are queued there. */
  lemma ReadyValueMeansQueued(c: Config, s: State)
    requires Inv(c, s) && 1 <= c.clerks
    ensures Ready in s.sems && (s.sems[Ready].value == 0 - c.clerks ==> ClerksQueued(c, s))
  {
    assert IsSem(c, Ready) && QueueAt(c, s, Ready) && LawAt(c, s, Ready);
    var q := s.sems[Ready].queue;
    hide SemLaw, Queues, Numbers, Slots, Out, Tickets, Booking, Sum, AllPlaced;
    if s.sems[Ready].value == 0 - c.clerks {
      forall k | 0 <= k < |q|
        ensures c.N() <= q[k] < c.N() + c.clerks && s.procs[q[k]].Clerk? && s.procs[q[k]].kat == WaitReady
      {
        ReadyQueueRange(c, s, k);
      }
      forall i | 0 <= i < |s.procs| && s.procs[i].Clerk?
        ensures s.procs[i].kat == WaitReady && i in q
      {
        DistinctCovers(q, c.N(), c.N() + c.clerks, i);
      }
    }
  }

  lemma RestHoldsNoLock(c: Config, p: Proc, x: SemId)
    requires IsLock(x) && (p.Customer? ==> p.cat == Done) && (p.Clerk? ==> p.kat == WaitReady)
    ensures Eval(c, Debt(x), p) == 0
  {
  }

  lemma DoneSettles(c: Config, s: State)
    requires Inv(c, s) && AllDone(c, s) && ClerksQueued(c, s)
    ensures Settled(c, s)
  {
    forall x | x in s.sems && IsLock(x)
      ensures s.sems[x] == Sem(1, [])
    {
      forall i | 0 <= i < |s.procs|
        ensures Eval(c, Debt(x), s.procs[i]) == 0
      {
        assert s.procs[i].Customer? ==> i < c.N();
        RestHoldsNoLock(c, s.procs[i], x);
      }
      FreeLock(c, s, x);
    }
    hide Eval, SemLaw, Queues, Numbers, Slots, Out, Tickets, Booking;
    assert forall i :: 0 <= i < |s.procs| && s.procs[i].Customer? ==> i < c.N();
  }

  /**
   When the master has left its wait loop its semaphore assertions need not hold
   yet: they hold exactly when every clerk is back in the queue of cust_ready.
   */
  lemma MasterValuesIff(c: Config, s0: State, schedule: seq<nat>)
    requires Initial(c, s0) && Legal(c, s0, schedule) && 1 <= c.clerks
    requires var s := Run(c, s0, schedule);
      c.N() + c.clerks < |s.procs| && s.procs[c.N() + c.clerks] == Master(c.N())
    ensures var s := Run(c, s0, schedule); Final(c, s) <==> ClerksQueued(c, s)
  {
    var s := Run(c, s0, schedule);
    RunInv(c, s0, schedule);
    MasterWaitsForAll(c, s);
    MasterDone(c, s);
    hide Run, Legal, Initial, Inv;
    ReadyValueMeansQueued(c, s);
    if ClerksQueued(c, s) {
      DoneSettles(c, s);
      RestIsFinal(c, s);
    }
  }
}
