/**
 A run of one customer and one clerk in which the master's value assertions do
 not hold yet when it leaves its wait loop: the clerk has finished the customer
 but has not signalled `clerk` again.
 */
module AirWitness {
  import opened SemaphoreSpec
  import opened AirModel
  import opened AirTheorems

  const ONE: Config := Config([FlightType.One], 1, 1, 0)

  /** Values of the semaphores the run uses. */
  datatype Values = Values(counterCS: int, queueCS: int, flight1CS: int, clerk: int, ready: int, terminated: int, finished: int)
  {
    function Get(x: SemId): int {
      match x
      case CounterCS => counterCS case QueueCS => queueCS case Flight1CS => flight1CS case ClerkSem => clerk
      case Ready => ready case Terminated => terminated case Finished(_) => finished case Flight2CS => 1
    }

    function Set(x: SemId, n: int): Values {
      match x
      case CounterCS => this.(counterCS := n) case QueueCS => this.(queueCS := n) case Flight1CS => this.(flight1CS := n)
      case ClerkSem => this.(clerk := n) case Ready => this.(ready := n) case Terminated => this.(terminated := n)
      case Finished(_) => this.(finished := n) case Flight2CS => this
    }

    /** Nobody is queued. */
    function Sems(): map<SemId, Sem> {
      map x | x in AllSems(ONE) :: Sem(Get(x), [])
    }
  }

  /** Where the customer, the clerk and the master are, and the shared variables. */
  datatype Point = Point(cat: CustomerAt, kat: ClerkAt, served: seq<nat>, seen: nat, v: Values,
                         counter: nat, qin: nat, qout: nat, booked: bool, recorded: bool)
  {
    function State(): State {
      AirModel.State([Customer(cat, 0), Clerk(kat, 0, served), Master(seen)], v.Sems(), counter, [0], qin, qout,
                     if booked then 0 else 1, 0, if recorded then [0] else [], [], if booked then {0} else {})
    }
  }

  const START: Point := Point(WaitCounter, WaitReady, [], 0, Values(1, 1, 1, 1, 0, 0, 0), 0, 0, 0, false, false)

  lemma StartIsInitial()
    ensures Initial(ONE, START.State())
  {
  }

  ghost predicate Reached(schedule: seq<nat>, p: Point) {
    Legal(ONE, START.State(), schedule) && Run(ONE, START.State(), schedule) == p.State()
  }

  lemma NobodyBlocked(p: Point, i: nat)
    ensures !Blocked(p.State(), i)
  {
  }

  /** Process i takes its next step. */
  lemma Play(q: seq<nat>, p: Point, i: nat, r: Point)
    requires Reached(q, p) && i < 3 && InstrOf(ONE, p.State().procs[i]) != Halt && Step(ONE, p.State(), i) == r.State()
    ensures Reached(q + [i], r)
  {
    NobodyBlocked(p, i);
    assert (q + [i])[..|q + [i]| - 1] == q;
    hide Step, InstrOf, Blocked;
  }

  lemma SetSems(v: Values, x: SemId, n: int)
    requires x in AllSems(ONE) && x != Flight2CS
    ensures v.Set(x, n).Sems() == v.Sems()[x := Sem(n, [])]
  {
    forall y | y in AllSems(ONE)
      ensures v.Set(x, n).Get(y) == if y == x then n else v.Get(y)
    {
      SetGet(v, x, n, y);
    }
    hide AllSems, Values.Get, Values.Set;
  }

  lemma SetGet(v: Values, x: SemId, n: int, y: SemId)
    requires x in AllSems(ONE) && x != Flight2CS && y in AllSems(ONE)
    ensures v.Set(x, n).Get(y) == if y == x then n else v.Get(y)
  {
    assert (x.Finished? ==> x == Finished(0)) && (y.Finished? ==> y == Finished(0));
  }

  lemma PointFacts(p: Point, x: SemId)
    ensures |p.State().procs| == 3 && p.State().sems == p.v.Sems()
    ensures x in AllSems(ONE) ==> x in p.v.Sems() && p.v.Sems()[x] == Sem(p.v.Get(x), [])
  {
  }

  lemma StepIs(s: State, i: nat, x: SemId)
    requires i < |s.procs|
    ensures InstrOf(ONE, s.procs[i]) == DoWait(x) ==> Step(ONE, s, i) == WaitStep(ONE, s, i, x)
    ensures InstrOf(ONE, s.procs[i]) == DoSignal(x) ==> Step(ONE, s, i) == SignalStep(ONE, s, i, x)
  {
  }

  /** A process that is let through, or signals with nobody queued. */
  lemma Passing(q: seq<nat>, p: Point, i: nat, x: SemId, r: Point)
    requires Reached(q, p) && i < 3 && x in AllSems(ONE) && x != Flight2CS
    requires InstrOf(ONE, p.State().procs[i]) == DoWait(x) && 0 < p.v.Get(x) && r.v == p.v.Set(x, p.v.Get(x) - 1)
    requires r.State() == p.State().(procs := p.State().procs[i := After(ONE, p.State().procs[i])], sems := r.v.Sems())
    ensures Reached(q + [i], r)
  {
    hide *;
    PointFacts(p, x);
    SetSems(p.v, x, p.v.Get(x) - 1);
    StepIs(p.State(), i, x);
    WaitIs(p.State(), i, x);
    Play(q, p, i, r);
  }

  lemma Signalling(q: seq<nat>, p: Point, i: nat, x: SemId, r: Point)
    requires Reached(q, p) && i < 3 && x in AllSems(ONE) && x != Flight2CS
    requires InstrOf(ONE, p.State().procs[i]) == DoSignal(x) && 0 <= p.v.Get(x) && r.v == p.v.Set(x, p.v.Get(x) + 1)
    requires r.State() == p.State().(procs := p.State().procs[i := After(ONE, p.State().procs[i])], sems := r.v.Sems())
    ensures Reached(q + [i], r)
  {
    hide *;
    PointFacts(p, x);
    SetSems(p.v, x, p.v.Get(x) + 1);
    StepIs(p.State(), i, x);
    SignalIs(p.State(), i, x);
    Play(q, p, i, r);
  }

  lemma WaitIs(s: State, i: nat, x: SemId)
    requires i < |s.procs| && x in s.sems && s.sems[x].queue == [] && 0 < s.sems[x].value
    ensures WaitStep(ONE, s, i, x) ==
            s.(procs := s.procs[i := After(ONE, s.procs[i])], sems := s.sems[x := Sem(s.sems[x].value - 1, [])])
  {
  }

  lemma SignalIs(s: State, i: nat, x: SemId)
    requires i < |s.procs| && x in s.sems && s.sems[x].queue == [] && 0 <= s.sems[x].value
    ensures SignalStep(ONE, s, i, x) ==
            s.(procs := s.procs[i := After(ONE, s.procs[i])], sems := s.sems[x := Sem(s.sems[x].value + 1, [])])
  {
  }

  /** A customer at a wait or a signal moves on. */
  lemma CustomerPasses(q: seq<nat>, p: Point, x: SemId, to: CustomerAt) returns (r: Point)
    requires Reached(q, p) && x in AllSems(ONE) && x != Flight2CS
    requires InstrOf(ONE, Customer(p.cat, 0)) == DoWait(x) && 0 < p.v.Get(x) && After(ONE, Customer(p.cat, 0)) == Customer(to, 0)
    ensures r == p.(cat := to, v := p.v.Set(x, p.v.Get(x) - 1)) && Reached(q + [0], r)
  {
    r := p.(cat := to, v := p.v.Set(x, p.v.Get(x) - 1));
    hide InstrOf, After, Reached;
    Passing(q, p, 0, x, r);
  }

  lemma CustomerSignals(q: seq<nat>, p: Point, x: SemId, to: CustomerAt) returns (r: Point)
    requires Reached(q, p) && x in AllSems(ONE) && x != Flight2CS
    requires InstrOf(ONE, Customer(p.cat, 0)) == DoSignal(x) && 0 <= p.v.Get(x) && After(ONE, Customer(p.cat, 0)) == Customer(to, 0)
    ensures r == p.(cat := to, v := p.v.Set(x, p.v.Get(x) + 1)) && Reached(q + [0], r)
  {
    r := p.(cat := to, v := p.v.Set(x, p.v.Get(x) + 1));
    hide InstrOf, After, Reached;
    Signalling(q, p, 0, x, r);
  }

  lemma ClerkPasses(q: seq<nat>, p: Point, x: SemId, to: ClerkAt) returns (r: Point)
    requires Reached(q, p) && x in AllSems(ONE) && x != Flight2CS
    requires InstrOf(ONE, Clerk(p.kat, 0, p.served)) == DoWait(x) && 0 < p.v.Get(x)
    requires After(ONE, Clerk(p.kat, 0, p.served)) == Clerk(to, 0, p.served)
    ensures r == p.(kat := to, v := p.v.Set(x, p.v.Get(x) - 1)) && Reached(q + [1], r)
  {
    r := p.(kat := to, v := p.v.Set(x, p.v.Get(x) - 1));
    hide InstrOf, After, Reached;
    Passing(q, p, 1, x, r);
  }

  lemma ClerkSignals(q: seq<nat>, p: Point, x: SemId, to: ClerkAt, served: seq<nat>) returns (r: Point)
    requires Reached(q, p) && x in AllSems(ONE) && x != Flight2CS
    requires InstrOf(ONE, Clerk(p.kat, 0, p.served)) == DoSignal(x) && 0 <= p.v.Get(x)
    requires After(ONE, Clerk(p.kat, 0, p.served)) == Clerk(to, 0, served)
    ensures r == p.(kat := to, served := served, v := p.v.Set(x, p.v.Get(x) + 1)) && Reached(q + [1], r)
  {
    r := p.(kat := to, served := served, v := p.v.Set(x, p.v.Get(x) + 1));
    hide InstrOf, After, Reached;
    Signalling(q, p, 1, x, r);
  }

  /** A customer or clerk between two calls. */
  lemma Moves(q: seq<nat>, p: Point, i: nat, r: Point)
    requires Reached(q, p) && i < 2 && InstrOf(ONE, p.State().procs[i]) == Local && LocalStep(ONE, p.State(), i) == r.State()
    ensures Reached(q + [i], r)
  {
    hide LocalStep, Reached;
    Play(q, p, i, r);
  }

  function CustomerNext(p: Point): Point {
    match p.cat
    case ReadCounter => p.(cat := BumpCounter)
    case BumpCounter => p.(cat := SignalCounter, counter := 1)
    case WriteSlot => p.(cat := BumpIn)
    case _ => p.(cat := SignalQueue, qin := 1)
  }

  lemma CustomerMoves(q: seq<nat>, p: Point) returns (r: Point)
    requires Reached(q, p) && p.cat in {ReadCounter, BumpCounter, WriteSlot, BumpIn} && p.qin == 0
    requires p.cat in {ReadCounter, BumpCounter} ==> p.counter == 0
    ensures r == CustomerNext(p)
    ensures Reached(q + [0], r)
  {
    r := CustomerNext(p);
    hide Reached;
    Moves(q, p, 0, r);
  }

  function ClerkNext(p: Point): Point {
    match p.kat
    case ReadSlot => p.(kat := BumpOut)
    case BumpOut => p.(kat := ClerkSignalQueue, qout := 1)
    case Test => p.(kat := Take1)
    case Take1 => p.(kat := Record1, booked := true)
    case _ => p.(kat := SignalF1, recorded := true)
  }

  lemma ClerkMoves(q: seq<nat>, p: Point) returns (r: Point)
    requires Reached(q, p) && p.kat in {ReadSlot, BumpOut, Test, Take1, Record1} && !p.recorded
    requires p.qout == (if p.kat in {ReadSlot, BumpOut} then 0 else 1) && p.booked == (p.kat == Record1)
    ensures r == ClerkNext(p)
    ensures Reached(q + [1], r)
  {
    r := ClerkNext(p);
    hide Reached;
    Moves(q, p, 1, r);
  }

  lemma MasterPasses(q: seq<nat>, p: Point) returns (r: Point)
    requires Reached(q, p) && p.seen == 0 && 0 < p.v.terminated
    ensures r == p.(seen := 1, v := p.v.Set(Terminated, p.v.terminated - 1)) && Reached(q + [2], r)
  {
    r := p.(seen := 1, v := p.v.Set(Terminated, p.v.terminated - 1));
    hide Reached;
    Passing(q, p, 2, Terminated, r);
  }

  /** The customer takes its number, gets a clerk and queues itself. */
  lemma CustomerQueues() returns (q: seq<nat>, p: Point)
    ensures p == Point(WaitFinished, WaitReady, [], 0, Values(1, 1, 1, 0, 1, 0, 0), 1, 1, 0, false, false) && Reached(q, p)
  {
    q, p := [], START;
    hide Reached;
    NothingPlayed();
    p := CustomerPasses(q, p, CounterCS, ReadCounter);
    q := q + [0];
    p := CustomerMoves(q, p);
    q := q + [0];
    p := CustomerMoves(q, p);
    q := q + [0];
    p := CustomerSignals(q, p, CounterCS, WaitClerk);
    q := q + [0];
    p := CustomerPasses(q, p, ClerkSem, WaitQueue);
    q := q + [0];
    p := CustomerQueuesItself(q, p);
    q := q + [0, 0, 0, 0, 0];
  }

  lemma NothingPlayed()
    ensures Reached([], START)
  {
  }

  lemma CustomerQueuesItself(q0: seq<nat>, p0: Point) returns (p: Point)
    requires Reached(q0, p0) && p0 == Point(WaitQueue, WaitReady, [], 0, Values(1, 1, 1, 0, 0, 0, 0), 1, 0, 0, false, false)
    ensures p == Point(WaitFinished, WaitReady, [], 0, Values(1, 1, 1, 0, 1, 0, 0), 1, 1, 0, false, false)
    ensures Reached(q0 + [0, 0, 0, 0, 0], p)
  {
    var q := q0;
    hide Reached;
    p := CustomerPasses(q, p0, QueueCS, WriteSlot);
    q := q + [0];
    p := CustomerMoves(q, p);
    q := q + [0];
    p := CustomerMoves(q, p);
    q := q + [0];
    p := CustomerSignals(q, p, QueueCS, SignalReady);
    q := q + [0];
    p := CustomerSignals(q, p, Ready, WaitFinished);
    q := q + [0];
    assert q == q0 + [0, 0, 0, 0, 0];
  }

  /** The clerk takes the customer from the queue and goes to its flight. */
  lemma ClerkTakes(q0: seq<nat>, p0: Point) returns (q: seq<nat>, p: Point)
    requires Reached(q0, p0) && p0 == Point(WaitFinished, WaitReady, [], 0, Values(1, 1, 1, 0, 1, 0, 0), 1, 1, 0, false, false)
    ensures p == Point(WaitFinished, Test, [], 0, Values(1, 1, 0, 0, 0, 0, 0), 1, 1, 1, false, false) && Reached(q, p)
  {
    q := q0;
    hide Reached;
    p := ClerkPasses(q, p0, Ready, ClerkWaitQueue);
    q := q + [1];
    p := ClerkPasses(q, p, QueueCS, ReadSlot);
    q := q + [1];
    p := ClerkMoves(q, p);
    q := q + [1];
    p := ClerkMoves(q, p);
    q := q + [1];
    p := ClerkSignals(q, p, QueueCS, WaitF1, []);
    q := q + [1];
    p := ClerkPasses(q, p, Flight1CS, Test);
    q := q + [1];
  }

  /** The clerk books the customer and finishes it. */
  lemma ClerkBooks(q0: seq<nat>, p0: Point) returns (q: seq<nat>, p: Point)
    requires Reached(q0, p0) && p0 == Point(WaitFinished, Test, [], 0, Values(1, 1, 0, 0, 0, 0, 0), 1, 1, 1, false, false)
    ensures p == Point(WaitFinished, SignalClerk, [0], 0, Values(1, 1, 1, 0, 0, 0, 1), 1, 1, 1, true, true) && Reached(q, p)
  {
    q := q0;
    hide Reached;
    p := ClerkMoves(q, p0);
    q := q + [1];
    p := ClerkMoves(q, p);
    q := q + [1];
    p := ClerkMoves(q, p);
    q := q + [1];
    p := ClerkSignals(q, p, Flight1CS, SignalFinished, []);
    q := q + [1];
    p := ClerkSignals(q, p, Finished(0), SignalClerk, [0]);
    q := q + [1];
  }

  /**
   The master is past its loop, every customer is done, and its value assertions
   fail: `clerk` is 0, not 1, because the clerk has not come round yet.
   */
  lemma ValuesCanBeOff() returns (q: seq<nat>)
    ensures Initial(ONE, START.State()) && Legal(ONE, START.State(), q)
    ensures var s := Run(ONE, START.State(), q);
      && |s.procs| == 3 && s.procs[2] == Master(ONE.N()) && s.procs[0] == Customer(Done, 0)
      && ClerkSem in s.sems && s.sems[ClerkSem].value == 0 && !Final(ONE, s) && !ClerksQueued(ONE, s)
  {
    StartIsInitial();
    var p;
    q, p := CustomerQueues();
    q, p := ClerkTakes(q, p);
    q, p := ClerkBooks(q, p);
    q, p := MasterLeaves(q, p);
    assert ClerkSem in AllSems(ONE);
    assert p.State().procs[1] == Clerk(SignalClerk, 0, [0]);
  }

  /** The customer leaves and the master counts it. */
  lemma MasterLeaves(q0: seq<nat>, p0: Point) returns (q: seq<nat>, p: Point)
    requires Reached(q0, p0) && p0 == Point(WaitFinished, SignalClerk, [0], 0, Values(1, 1, 1, 0, 0, 0, 1), 1, 1, 1, true, true)
    ensures p == Point(Done, SignalClerk, [0], 1, Values(1, 1, 1, 0, 0, 0, 0), 1, 1, 1, true, true) && Reached(q, p)
  {
    q := q0;
    hide Reached;
    p := CustomerPasses(q, p0, Finished(0), SignalTerminated);
    q := q + [0];
    p := CustomerSignals(q, p, Terminated, Done);
    q := q + [0];
    p := MasterPasses(q, p);
    q := q + [2];
  }
}
