/**
 The air reservation programs (tst_air.c, tst_air_customer.c, tst_air_clerk.c)
 as an interleaving of processes over shared memory and semaphores.

 One step of one process is one semaphore call, or one statement between calls
 that touches shared memory.  A counter's increment, the clerk's test of both
 ticket counters, taking a ticket with setting the customer's `booked` flag, and
 writing a booking with counting it are one step each: they read and write only
 what the lock held at that point protects, or what is the customer's own.  The
 numbers of customers, clerks and tickets are parameters.
 */
module AirModel {
  import opened SemaphoreSpec

  datatype FlightType = One | Two | Three

  /** types[j] is the flight type of customer number j. */
  datatype Config = Config(types: seq<FlightType>, clerks: nat, tickets1: nat, tickets2: nat) {
    function N(): nat { |types| }

    function TypeOf(j: nat): FlightType { if j < |types| then types[j] else One }
  }

  datatype SemId =
    | CounterCS | QueueCS | Flight1CS | Flight2CS | ClerkSem | Ready | Terminated
    | Finished(id: nat)

  /** Where a customer is: the statement it is about to execute. */
  datatype CustomerAt =
    | WaitCounter | ReadCounter | BumpCounter | SignalCounter | WaitClerk | WaitQueue | WriteSlot
    | BumpIn | SignalQueue | SignalReady | WaitFinished | SignalTerminated | Done
  {
    function Rank(): nat {
      match this
      case WaitCounter => 0 case ReadCounter => 1 case BumpCounter => 2 case SignalCounter => 3
      case WaitClerk => 4 case WaitQueue => 5 case WriteSlot => 6 case BumpIn => 7
      case SignalQueue => 8 case SignalReady => 9 case WaitFinished => 10 case SignalTerminated => 11
      case Done => 12
    }
  }

  /** Where a clerk is in its endless loop. */
  datatype ClerkAt =
    | WaitReady | ClerkWaitQueue | ReadSlot | BumpOut | ClerkSignalQueue | WaitF1 | WaitF2 | Test
    | Take1 | Record1 | Take2 | Record2 | SignalF2 | SignalF1 | SignalFinished | SignalClerk
  {
    function Rank(): nat {
      match this
      case WaitReady => 0 case ClerkWaitQueue => 1 case ReadSlot => 2 case BumpOut => 3
      case ClerkSignalQueue => 4 case WaitF1 => 5 case WaitF2 => 6 case Test => 7 case Take1 => 8
      case Record1 => 9 case Take2 => 10 case Record2 => 11 case SignalF2 => 12 case SignalF1 => 13
      case SignalFinished => 14 case SignalClerk => 15
    }
  }

  /**
   A process and its local variables.  `served` is the history of the customers
   a clerk has signalled; `seen` counts the master's passes of its wait loop.
   */
  datatype Proc =
    | Customer(cat: CustomerAt, id: nat)
    | Clerk(kat: ClerkAt, cust: nat, served: seq<nat>)
    | Master(seen: nat)

  /**
   Shared memory and semaphores.  The booked arrays are the filled parts of
   flight1BookedArr and flight2BookedArr; `flags` are the customers whose
   `booked` field is 1.
   */
  datatype State = State(
    procs: seq<Proc>, sems: map<SemId, Sem>, counter: nat, slots: seq<nat>, qin: nat, qout: nat,
    left1: int, left2: int, booked1: seq<nat>, booked2: seq<nat>, flags: set<nat>)

  datatype Instr = DoWait(x: SemId) | DoSignal(x: SemId) | Local | Halt

  function InstrOf(c: Config, p: Proc): Instr {
    match p
    case Customer(at, id) => (
      match at
      case WaitCounter => DoWait(CounterCS)
      case SignalCounter => DoSignal(CounterCS)
      case WaitClerk => DoWait(ClerkSem)
      case WaitQueue => DoWait(QueueCS)
      case SignalQueue => DoSignal(QueueCS)
      case SignalReady => DoSignal(Ready)
      case WaitFinished => DoWait(Finished(id))
      case SignalTerminated => DoSignal(Terminated)
      case Done => Halt
      case _ => Local)
    case Clerk(at, cust, _) => (
      match at
      case WaitReady => DoWait(Ready)
      case ClerkWaitQueue => DoWait(QueueCS)
      case ClerkSignalQueue => DoSignal(QueueCS)
      case WaitF1 => DoWait(Flight1CS)
      case WaitF2 => DoWait(Flight2CS)
      case SignalF2 => DoSignal(Flight2CS)
      case SignalF1 => DoSignal(Flight1CS)
      case SignalFinished => DoSignal(Finished(cust))
      case SignalClerk => DoSignal(ClerkSem)
      case _ => Local)
    case Master(seen) => if seen < c.N() then DoWait(Terminated) else Halt
  }

  /** The process after its wait has let it through or its signal is done. */
  function After(c: Config, p: Proc): Proc {
    match p
    case Customer(at, id) => (
      match at
      case WaitCounter => Customer(ReadCounter, id)
      case SignalCounter => Customer(WaitClerk, id)
      case WaitClerk => Customer(WaitQueue, id)
      case WaitQueue => Customer(WriteSlot, id)
      case SignalQueue => Customer(SignalReady, id)
      case SignalReady => Customer(WaitFinished, id)
      case WaitFinished => Customer(SignalTerminated, id)
      case SignalTerminated => Customer(Done, id)
      case _ => p)
    case Clerk(at, cust, served) => (
      match at
      case WaitReady => Clerk(ClerkWaitQueue, cust, served)
      case ClerkWaitQueue => Clerk(ReadSlot, cust, served)
      case ClerkSignalQueue => Clerk(if c.TypeOf(cust) == Two then WaitF2 else WaitF1, cust, served)
      case WaitF1 => Clerk(if c.TypeOf(cust) == Three then WaitF2 else Test, cust, served)
      case WaitF2 => Clerk(Test, cust, served)
      case SignalF2 => Clerk(if c.TypeOf(cust) == Three then SignalF1 else SignalFinished, cust, served)
      case SignalF1 => Clerk(SignalFinished, cust, served)
      case SignalFinished => Clerk(SignalClerk, cust, served + [cust])
      case SignalClerk => Clerk(WaitReady, cust, served)
      case _ => p)
    case Master(seen) => Master(seen + 1)
  }

  /** waitSemaphore and signalSemaphore find no semaphore: nothing happens. */
  function Lookup(s: State, x: SemId): Sem {
    if x in s.sems then s.sems[x] else Sem(1, [])
  }

  function WaitStep(c: Config, s: State, i: nat, x: SemId): State
    requires i < |s.procs|
  {
    var sem := Lookup(s, x);
    var moved := if Passes(sem) then s.procs[i := After(c, s.procs[i])] else s.procs;
    s.(procs := moved, sems := if x in s.sems then s.sems[x := Wait(sem, i)] else s.sems)
  }

  function SignalStep(c: Config, s: State, i: nat, x: SemId): State
    requires i < |s.procs|
  {
    var sem := Lookup(s, x);
    var moved := s.procs[i := After(c, s.procs[i])];
    var woken := match Released(sem) {
      case Some(q) => if q < |moved| then moved[q := After(c, moved[q])] else moved
      case None => moved
    };
    s.(procs := woken, sems := if x in s.sems then s.sems[x := Signal(sem)] else s.sems)
  }

  /** One access to shared memory. */
  function LocalStep(c: Config, s: State, i: nat): State
    requires i < |s.procs|
  {
    match s.procs[i]
    case Customer(ReadCounter, _) => s.(procs := s.procs[i := Customer(BumpCounter, s.counter)])
    case Customer(BumpCounter, id) =>
      s.(counter := s.counter + 1, procs := s.procs[i := Customer(SignalCounter, id)])
    case Customer(WriteSlot, id) =>
      s.(slots := if s.qin < |s.slots| then s.slots[s.qin := id] else s.slots,
         procs := s.procs[i := Customer(BumpIn, id)])
    case Customer(BumpIn, id) => s.(qin := s.qin + 1, procs := s.procs[i := Customer(SignalQueue, id)])
    case Clerk(ReadSlot, _, served) =>
      s.(procs := s.procs[i := Clerk(BumpOut, if s.qout < |s.slots| then s.slots[s.qout] else 0, served)])
    case Clerk(BumpOut, cust, served) =>
      s.(qout := s.qout + 1, procs := s.procs[i := Clerk(ClerkSignalQueue, cust, served)])
    case Clerk(Test, cust, served) =>
      var to := match c.TypeOf(cust) {
        case One => if s.left1 > 0 then Take1 else SignalF1
        case Two => if s.left2 > 0 then Take2 else SignalF2
        case Three => if s.left1 > 0 && s.left2 > 0 then Take1 else SignalF2
      };
      s.(procs := s.procs[i := Clerk(to, cust, served)])
    case Clerk(Take1, cust, served) =>
      s.(left1 := s.left1 - 1, flags := s.flags + {cust}, procs := s.procs[i := Clerk(Record1, cust, served)])
    case Clerk(Record1, cust, served) =>
      s.(booked1 := s.booked1 + [cust],
         procs := s.procs[i := Clerk(if c.TypeOf(cust) == Three then Take2 else SignalF1, cust, served)])
    case Clerk(Take2, cust, served) =>
      s.(left2 := s.left2 - 1, flags := s.flags + {cust}, procs := s.procs[i := Clerk(Record2, cust, served)])
    case Clerk(Record2, cust, served) =>
      s.(booked2 := s.booked2 + [cust], procs := s.procs[i := Clerk(SignalF2, cust, served)])
    case _ => s
  }

  predicate Blocked(s: State, i: nat) {
    exists x :: x in s.sems && i in s.sems[x].queue
  }

  predicate Enabled(c: Config, s: State, i: nat) {
    i < |s.procs| && !Blocked(s, i) && InstrOf(c, s.procs[i]) != Halt
  }

  function Step(c: Config, s: State, i: nat): State
    requires i < |s.procs|
  {
    match InstrOf(c, s.procs[i])
    case DoWait(x) => WaitStep(c, s, i, x)
    case DoSignal(x) => SignalStep(c, s, i, x)
    case Local => LocalStep(c, s, i)
    case Halt => s
  }

  function InitValue(c: Config, x: SemId): int {
    match x
    case CounterCS => 1 case QueueCS => 1 case Flight1CS => 1 case Flight2CS => 1
    case ClerkSem => c.clerks
    case Ready => 0 case Terminated => 0 case Finished(_) => 0
  }

  predicate IsSem(c: Config, x: SemId) {
    x.Finished? ==> x.id < c.N()
  }

  function AllSems(c: Config): set<SemId> {
    {CounterCS, QueueCS, Flight1CS, Flight2CS, ClerkSem, Ready, Terminated} + (set j | 0 <= j < c.N() :: Finished(j))
  }

  /** All processes created, none scheduled yet; the slot array holds arbitrary values. */
  predicate Initial(c: Config, s: State) {
    && |s.procs| == c.N() + c.clerks + 1
    && (forall i :: 0 <= i < c.N() ==> s.procs[i].Customer? && s.procs[i].cat == WaitCounter)
    && (forall i :: c.N() <= i < c.N() + c.clerks ==>
          s.procs[i].Clerk? && s.procs[i].kat == WaitReady && s.procs[i].served == [])
    && s.procs[c.N() + c.clerks] == Master(0)
    && s.sems.Keys == AllSems(c) && (forall x :: x in s.sems ==> s.sems[x] == Sem(InitValue(c, x), []))
    && s.counter == s.qin == s.qout == 0 && |s.slots| == c.N()
    && s.left1 == c.tickets1 && s.left2 == c.tickets2
    && s.booked1 == s.booked2 == [] && s.flags == {}
  }

  /** The state after the processes of a schedule have each done one step, in that order. */
  function Run(c: Config, s: State, schedule: seq<nat>): State {
    if schedule == [] then s
    else
      var t := Run(c, s, schedule[..|schedule| - 1]);
      var i := schedule[|schedule| - 1];
      if i < |t.procs| then Step(c, t, i) else t
  }

  /** Every scheduled process was able to step when it was scheduled. */
  predicate Legal(c: Config, s: State, schedule: seq<nat>) {
    schedule == [] ||
    (var before := schedule[..|schedule| - 1];
     Legal(c, s, before) && Enabled(c, Run(c, s, before), schedule[|schedule| - 1]))
  }

  /** Nothing can step any more. */
  ghost predicate Quiescent(c: Config, s: State) {
    forall i :: 0 <= i < |s.procs| ==> !Enabled(c, s, i)
  }
}
