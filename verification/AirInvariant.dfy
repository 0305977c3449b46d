/**
 The inductive invariant of the air reservation system: what every step of
 every process keeps.
 */
module AirInvariant {
  import opened SemaphoreSpec
  import opened AirModel
  import opened AirSums

  // ----- the parts of the invariant -----

  ghost predicate Shape(c: Config, s: State) {
    && |s.procs| == c.N() + c.clerks + 1
    && (forall i :: 0 <= i < c.N() ==> s.procs[i].Customer?)
    && (forall i :: c.N() <= i < c.N() + c.clerks ==> s.procs[i].Clerk?)
    && s.procs[c.N() + c.clerks].Master?
    && |s.slots| == c.N()
    && forall x :: x in s.sems <==> IsSem(c, x)
  }

  /** A clerk never visits the statements of a flight its customer does not want. */
  predicate WellPlaced(c: Config, p: Proc) {
    p.Clerk? ==>
      && (c.TypeOf(p.cust) == One ==> p.kat !in {WaitF2, Take2, Record2, SignalF2})
      && (c.TypeOf(p.cust) == Two ==> p.kat !in {WaitF1, Take1, Record1, SignalF1})
  }

  ghost predicate AllPlaced(c: Config, s: State) {
    forall i :: 0 <= i < |s.procs| ==> WellPlaced(c, s.procs[i])
  }

  /** The value of a semaphore is its initial value minus what is owed to it and who waits for it. */
  ghost predicate LawAt(c: Config, s: State, x: SemId)
    requires x in s.sems
  {
    && Balanced(s.sems[x])
    && s.sems[x].value == InitValue(c, x) - Sum(c, Debt(x), s.procs) - |s.sems[x].queue|
  }

  ghost predicate SemLaw(c: Config, s: State) {
    forall x :: x in s.sems ==> LawAt(c, s, x)
  }

  /** Exactly processes about to wait on x are queued at x, each once. */
  ghost predicate QueueAt(c: Config, s: State, x: SemId)
    requires x in s.sems
  {
    var q := s.sems[x].queue;
    && (forall k :: 0 <= k < |q| ==> q[k] < |s.procs| && InstrOf(c, s.procs[q[k]]) == DoWait(x))
    && (forall k, l :: 0 <= k < l < |q| ==> q[k] != q[l])
  }

  ghost predicate Queues(c: Config, s: State) {
    forall x :: x in s.sems ==> QueueAt(c, s, x)
  }

  predicate AtCustomer(p: Proc, at: CustomerAt) { p.Customer? && p.cat == at }

  predicate AtClerk(p: Proc, at: ClerkAt) { p.Clerk? && p.kat == at }

  /** Customer numbers are handed out once each, in order. */
  ghost predicate Numbers(c: Config, s: State) {
    && s.counter == Sum(c, Counted, s.procs)
    && (forall j: nat :: Sum(c, Numbered(j), s.procs) == B(j < s.counter))
    && (forall i :: 0 <= i < |s.procs| && AtCustomer(s.procs[i], BumpCounter) ==> s.procs[i].id == s.counter)
  }

  /** The filled slots hold the numbers of the customers that have enqueued themselves. */
  ghost predicate Slots(c: Config, s: State) {
    && s.qin == Sum(c, Enqueued, s.procs) && s.qin <= |s.slots|
    && (forall j: nat :: Sum(c, InSlot(j), s.procs) == CountTo(s.slots, j, s.qin))
    && (forall i :: 0 <= i < |s.procs| && AtCustomer(s.procs[i], BumpIn) ==>
          s.qin < |s.slots| && s.slots[s.qin] == s.procs[i].id)
  }

  /** The consumed slots hold the numbers the clerks have handled or are handling. */
  ghost predicate Out(c: Config, s: State) {
    && s.qout == Sum(c, Taken, s.procs) && s.qout <= s.qin <= |s.slots|
    && (forall j: nat :: Sum(c, Handled(j), s.procs) == CountTo(s.slots, j, s.qout))
    && (forall i :: 0 <= i < |s.procs| && AtClerk(s.procs[i], BumpOut) ==>
          s.qout < s.qin && s.slots[s.qout] == s.procs[i].cust)
  }

  ghost predicate Tickets(c: Config, s: State) {
    && 0 <= s.left1 && s.left1 + |s.booked1| + Sum(c, Recording1, s.procs) == c.tickets1
    && 0 <= s.left2 && s.left2 + |s.booked2| + Sum(c, Recording2, s.procs) == c.tickets2
    && (forall i :: 0 <= i < |s.procs| && s.procs[i].Clerk? ==>
          && (s.procs[i].kat == Take1 ==> 0 < s.left1)
          && (s.procs[i].kat == Take2 ==> 0 < s.left2)
          && (c.TypeOf(s.procs[i].cust) == Three && s.procs[i].kat in {Take1, Record1} ==> 0 < s.left2))
  }

  /** Tickets of flight 1 (or 2) that went to customer j, counting the one being recorded. */
  ghost function Got1(c: Config, s: State, j: nat): int { Count(s.booked1, j) + Sum(c, Claim1(j), s.procs) }

  ghost function Got2(c: Config, s: State, j: nat): int { Count(s.booked2, j) + Sum(c, Claim2(j), s.procs) }

  function Demand1(c: Config): set<nat> { set j | 0 <= j < c.N() && c.types[j] != Two }

  function Demand2(c: Config): set<nat> { set j | 0 <= j < c.N() && c.types[j] != One }

  /** There are enough tickets for everybody. */
  predicate Supply(c: Config) { |Demand1(c)| <= c.tickets1 && |Demand2(c)| <= c.tickets2 }

  ghost predicate BookingOf(c: Config, s: State, j: nat) {
    var t := c.TypeOf(j);
    && (if t == Two then Got1(c, s, j) == 0 else Got1(c, s, j) <= Sum(c, Past1(j), s.procs))
    && (if t == One then Got2(c, s, j) == 0 else Got2(c, s, j) <= Sum(c, Past2(j), s.procs))
    && (t == Three ==> Got1(c, s, j) == Got2(c, s, j) + Sum(c, Between(j), s.procs))
    && (Supply(c) && t != Two ==> Got1(c, s, j) == Sum(c, Past1(j), s.procs))
    && (Supply(c) && t != One ==> Got2(c, s, j) == Sum(c, Past2(j), s.procs))
    && (j in s.flags <==> Got1(c, s, j) + Got2(c, s, j) > 0)
  }

  ghost predicate Booking(c: Config, s: State) {
    forall j: nat :: BookingOf(c, s, j)
  }

  ghost predicate Inv(c: Config, s: State) {
    && Shape(c, s) && AllPlaced(c, s)
    && SemLaw(c, s) && Queues(c, s)
    && Numbers(c, s) && Slots(c, s) && Out(c, s)
    && Tickets(c, s) && Booking(c, s)
  }

  // ----- waits and signals: only semaphores and places change -----

  predicate IsData(w: Weight) { !w.Debt? && !w.Progress? && !w.Plus? }

  predicate Synchronises(c: Config, p: Proc) { InstrOf(c, p).DoWait? || InstrOf(c, p).DoSignal? }

  /** A process owes a semaphore one more after passing it and one less after signalling it. */
  lemma DebtMoves(c: Config, p: Proc, y: SemId)
    requires WellPlaced(c, p) && Synchronises(c, p)
    ensures DebtOf(c, y, After(c, p)) ==
            DebtOf(c, y, p) + B(InstrOf(c, p) == DoWait(y)) - B(InstrOf(c, p) == DoSignal(y))
  {
    if p.Clerk? {
      ClerkDebtMoves(c, p, y);
    }
  }

  lemma ClerkDebtMoves(c: Config, p: Proc, y: SemId)
    requires p.Clerk? && WellPlaced(c, p) && Synchronises(c, p)
    ensures DebtOf(c, y, After(c, p)) ==
            DebtOf(c, y, p) + B(InstrOf(c, p) == DoWait(y)) - B(InstrOf(c, p) == DoSignal(y))
  {
    if y.Finished? {
      FinishedDebtMoves(c, p, y.id);
    } else if y == Flight1CS || y == Flight2CS {
      FlightDebtMoves(c, p, y);
    } else {
      hide Count, Holds1, Holds2, WellPlaced;
    }
  }

  lemma FinishedDebtMoves(c: Config, p: Proc, j: nat)
    requires p.Clerk?
    ensures DebtOf(c, Finished(j), After(c, p)) == DebtOf(c, Finished(j), p) - B(InstrOf(c, p) == DoSignal(Finished(j)))
  {
    CountAppend(p.served, p.cust, j);
    hide Count;
  }

  lemma FlightDebtMoves(c: Config, p: Proc, y: SemId)
    requires p.Clerk? && WellPlaced(c, p) && Synchronises(c, p) && (y == Flight1CS || y == Flight2CS)
    ensures DebtOf(c, y, After(c, p)) ==
            DebtOf(c, y, p) + B(InstrOf(c, p) == DoWait(y)) - B(InstrOf(c, p) == DoSignal(y))
  {
    hide Count;
  }

  lemma DataStays(c: Config, p: Proc, w: Weight)
    requires WellPlaced(c, p) && Synchronises(c, p) && IsData(w)
    ensures Eval(c, w, After(c, p)) == Eval(c, w, p)
  {
    if p.Clerk? {
      ClerkDataStays(c, p, w);
    }
  }

  lemma ClerkDataStays(c: Config, p: Proc, w: Weight)
    requires p.Clerk? && WellPlaced(c, p) && Synchronises(c, p) && IsData(w)
    ensures Eval(c, w, After(c, p)) == Eval(c, w, p)
  {
    if p.kat == SignalFinished {
      ServedDataStays(c, p, w);
    } else {
      hide Count;
    }
  }

  /** The customer just served was handled before and is counted as served now. */
  lemma ServedDataStays(c: Config, p: Proc, w: Weight)
    requires p.Clerk? && p.kat == SignalFinished && IsData(w)
    ensures Eval(c, w, After(c, p)) == Eval(c, w, p)
  {
    if w.Handled? || w.Past1? || w.Past2? {
      CountAppend(p.served, p.cust, w.j);
    }
    hide Count;
  }

  lemma AfterPlaced(c: Config, p: Proc)
    requires WellPlaced(c, p) && Synchronises(c, p)
    ensures WellPlaced(c, After(c, p))
    ensures After(c, p).Customer? == p.Customer? && After(c, p).Clerk? == p.Clerk?
    ensures !Critical(After(c, p))
  {
  }

  /** The places about which the data invariants say something. */
  predicate Critical(p: Proc) {
    || (p.Customer? && p.cat in {BumpCounter, BumpIn})
    || (p.Clerk? && p.kat in {BumpOut, Take1, Record1, Take2})
  }

  /** t differs from s only in semaphores and in places no data invariant speaks about. */
  ghost predicate SameData(c: Config, s: State, t: State) {
    && t == s.(procs := t.procs, sems := t.sems) && |t.procs| == |s.procs|
    && (forall w :: IsData(w) ==> Sum(c, w, t.procs) == Sum(c, w, s.procs))
    && (forall i :: 0 <= i < |s.procs| ==> t.procs[i] == s.procs[i] || !Critical(t.procs[i]))
  }

  lemma SameDataTrans(c: Config, s: State, t: State, u: State)
    requires SameData(c, s, t) && SameData(c, t, u)
    ensures SameData(c, s, u)
  {
  }

  lemma SameDataKeeps(c: Config, s: State, t: State)
    requires SameData(c, s, t) && Numbers(c, s) && Slots(c, s) && Out(c, s) && Tickets(c, s) && Booking(c, s)
    ensures Numbers(c, t) && Slots(c, t) && Out(c, t) && Tickets(c, t) && Booking(c, t)
  {
    hide Sum, CountTo, Supply;
    assert Numbers(c, t);
    assert Slots(c, t);
    assert Out(c, t);
    assert Tickets(c, t);
    forall j: nat
      ensures BookingOf(c, t, j)
    {
      assert BookingOf(c, s, j);
    }
  }

  /** Moving one process past its wait or signal. */
  function Moved(c: Config, s: State, i: nat): State
    requires i < |s.procs|
  {
    s.(procs := s.procs[i := After(c, s.procs[i])])
  }

  lemma MovedSameData(c: Config, s: State, i: nat)
    requires i < |s.procs| && WellPlaced(c, s.procs[i]) && Synchronises(c, s.procs[i])
    ensures SameData(c, s, Moved(c, s, i))
  {
    var p := s.procs[i];
    AfterPlaced(c, p);
    hide Eval, Sum, After, WellPlaced, InstrOf;
    forall w | IsData(w)
      ensures Sum(c, w, s.procs[i := After(c, p)]) == Sum(c, w, s.procs)
    {
      DataStays(c, p, w);
      SumUpdate(c, w, s.procs, i, After(c, p));
    }
  }

  lemma MovedShape(c: Config, s: State, i: nat)
    requires i < |s.procs| && Shape(c, s) && AllPlaced(c, s) && Synchronises(c, s.procs[i])
    ensures Shape(c, Moved(c, s, i)) && AllPlaced(c, Moved(c, s, i))
  {
    AfterPlaced(c, s.procs[i]);
    hide After, InstrOf, WellPlaced;
  }

  lemma MovedDebt(c: Config, s: State, i: nat, y: SemId)
    requires i < |s.procs| && WellPlaced(c, s.procs[i]) && Synchronises(c, s.procs[i])
    ensures var instr := InstrOf(c, s.procs[i]);
      Sum(c, Debt(y), Moved(c, s, i).procs) == Sum(c, Debt(y), s.procs) + B(instr == DoWait(y)) - B(instr == DoSignal(y))
  {
    DebtMoves(c, s.procs[i], y);
    SumUpdate(c, Debt(y), s.procs, i, After(c, s.procs[i]));
  }

  // ----- customer numbers in use are below N -----

  lemma {:induction false} CustomersTo(c: Config, ps: seq<Proc>, n: nat)
    requires n <= |ps| && forall i :: c.N() <= i < |ps| ==> !ps[i].Customer?
    ensures SumTo(c, Counted, ps, n) <= if n < c.N() then n else c.N()
    ensures SumTo(c, Enqueued, ps, n) <= if n < c.N() then n else c.N()
    ensures forall k :: 0 <= k < n && ps[k].Customer? && k < c.N() && Eval(c, Counted, ps[k]) == 0 ==>
      SumTo(c, Counted, ps, n) < if n < c.N() then n else c.N()
    ensures forall k :: 0 <= k < n && ps[k].Customer? && k < c.N() && Eval(c, Enqueued, ps[k]) == 0 ==>
      SumTo(c, Enqueued, ps, n) < if n < c.N() then n else c.N()
  {
    if n > 0 {
      CustomersTo(c, ps, n - 1);
    }
  }

  /** No more numbers and slots are used than there are customers, one less while some customer has none. */
  lemma Customers(c: Config, s: State, i: nat)
    requires Shape(c, s) && i < |s.procs|
    ensures Sum(c, Counted, s.procs) <= c.N() && Sum(c, Enqueued, s.procs) <= c.N()
    ensures s.procs[i].Customer? && s.procs[i].cat.Rank() < SignalCounter.Rank() ==> Sum(c, Counted, s.procs) < c.N()
    ensures s.procs[i].Customer? && s.procs[i].cat.Rank() < SignalQueue.Rank() ==> Sum(c, Enqueued, s.procs) < c.N()
  {
    CustomersTo(c, s.procs, |s.procs|);
  }

  lemma {:induction false} CountToMonotone(s: seq<nat>, j: nat, m: nat, n: nat)
    requires m <= n <= |s|
    ensures CountTo(s, j, m) <= CountTo(s, j, n)
  {
    if m < n {
      CountToMonotone(s, j, m, n - 1);
    }
  }

  /** A number is handled at most once, and only after its customer enqueued it. */
  lemma HandledOnce(c: Config, s: State, j: nat)
    requires Numbers(c, s) && Slots(c, s) && Out(c, s)
    ensures Sum(c, Handled(j), s.procs) <= Sum(c, InSlot(j), s.procs) <= Sum(c, Numbered(j), s.procs) == B(j < s.counter)
  {
    CountToMonotone(s.slots, j, s.qout, s.qin);
    SumBelow(c, InSlot(j), Numbered(j), s.procs, 0);
  }

  lemma NumbersInRange(c: Config, s: State, i: nat)
    requires Inv(c, s) && i < |s.procs|
    ensures s.procs[i].Customer? && SignalCounter.Rank() <= s.procs[i].cat.Rank() ==> s.procs[i].id < s.counter
    ensures s.procs[i].Clerk? && Handling(s.procs[i].kat) ==> s.procs[i].cust < s.counter
    ensures s.counter <= c.N()
  {
    Customers(c, s, i);
    var p := s.procs[i];
    match p
    case Customer(_, id) =>
      SumNonNegative(c, Numbered(id), s.procs);
    case Clerk(_, cust, _) =>
      HandledOnce(c, s, cust);
      SumNonNegative(c, Handled(cust), s.procs);
    case Master(_) =>
  }

  /** Every semaphore a process names exists. */
  lemma InstrKnown(c: Config, s: State, i: nat)
    requires Inv(c, s) && i < |s.procs|
    ensures match InstrOf(c, s.procs[i]) { case DoWait(x) => x in s.sems case DoSignal(x) => x in s.sems case _ => true }
  {
    NumbersInRange(c, s, i);
  }

  // ----- a wait keeps the invariant -----

  lemma PassKeepsSems(c: Config, s: State, i: nat, x: SemId)
    requires Inv(c, s) && Enabled(c, s, i) && InstrOf(c, s.procs[i]) == DoWait(x) && x in s.sems && Passes(s.sems[x])
    ensures SemLaw(c, WaitStep(c, s, i, x)) && Queues(c, WaitStep(c, s, i, x))
  {
    var t := WaitStep(c, s, i, x);
    forall y | y in t.sems
      ensures LawAt(c, t, y) && QueueAt(c, t, y)
    {
      assert LawAt(c, s, y) && QueueAt(c, s, y);
      MovedDebt(c, s, i, y);
      assert i !in s.sems[y].queue;
    }
  }

  lemma BlockKeepsSems(c: Config, s: State, i: nat, x: SemId)
    requires Inv(c, s) && Enabled(c, s, i) && InstrOf(c, s.procs[i]) == DoWait(x) && x in s.sems && !Passes(s.sems[x])
    ensures SemLaw(c, WaitStep(c, s, i, x)) && Queues(c, WaitStep(c, s, i, x))
  {
    var t := WaitStep(c, s, i, x);
    forall y | y in t.sems
      ensures LawAt(c, t, y) && QueueAt(c, t, y)
    {
      assert LawAt(c, s, y) && QueueAt(c, s, y);
      assert i !in s.sems[y].queue;
    }
  }

  lemma InvIs(c: Config, s: State)
    ensures Inv(c, s) == (
      && Shape(c, s) && AllPlaced(c, s) && SemLaw(c, s) && Queues(c, s)
      && Numbers(c, s) && Slots(c, s) && Out(c, s) && Tickets(c, s) && Booking(c, s))
  {
  }

  lemma WaitKeeps(c: Config, s: State, i: nat, x: SemId)
    requires Inv(c, s) && Enabled(c, s, i) && InstrOf(c, s.procs[i]) == DoWait(x)
    ensures Inv(c, WaitStep(c, s, i, x))
  {
    var t := WaitStep(c, s, i, x);
    InstrKnown(c, s, i);
    var sem := s.sems[x];
    if Passes(sem) {
      PassKeepsSems(c, s, i, x);
    } else {
      BlockKeepsSems(c, s, i, x);
    }
    WaitSameData(c, s, i, x);
    hide *;
    InvIs(c, s);
    SameDataKeeps(c, s, t);
    InvIs(c, t);
  }

  lemma WaitSameData(c: Config, s: State, i: nat, x: SemId)
    requires Shape(c, s) && AllPlaced(c, s) && i < |s.procs| && InstrOf(c, s.procs[i]) == DoWait(x) && x in s.sems
    ensures var t := WaitStep(c, s, i, x); SameData(c, s, t) && Shape(c, t) && AllPlaced(c, t)
  {
    MovedSameData(c, s, i);
    MovedShape(c, s, i);
  }

  // ----- a signal keeps the invariant -----

  /** The process a signal releases is waiting for that semaphore. */
  lemma ReleasedWaits(c: Config, s: State, i: nat, x: SemId)
    requires Queues(c, s) && x in s.sems && Released(s.sems[x]).Some?
    requires i < |s.procs| && InstrOf(c, s.procs[i]) == DoSignal(x)
    ensures var q := Released(s.sems[x]).value; q < |s.procs| && q != i && InstrOf(c, s.procs[q]) == DoWait(x)
  {
    assert QueueAt(c, s, x);
  }

  /** SignalStep as one or two moves. */
  lemma SignalIsMoves(c: Config, s: State, i: nat, x: SemId)
    requires Queues(c, s) && x in s.sems && i < |s.procs| && InstrOf(c, s.procs[i]) == DoSignal(x)
    ensures match Released(s.sems[x]) {
      case None => SignalStep(c, s, i, x) == Moved(c, s, i).(sems := s.sems[x := Signal(s.sems[x])])
      case Some(q) => q < |s.procs| &&
        SignalStep(c, s, i, x) == Moved(c, Moved(c, s, i), q).(sems := s.sems[x := Signal(s.sems[x])])
    }
  {
    if Released(s.sems[x]).Some? {
      ReleasedWaits(c, s, i, x);
    }
  }

  lemma WithSems(c: Config, s: State, u: State, sems: map<SemId, Sem>)
    requires SameData(c, s, u) && Shape(c, u) && AllPlaced(c, u) && sems.Keys == u.sems.Keys
    ensures var t := u.(sems := sems); SameData(c, s, t) && Shape(c, t) && AllPlaced(c, t)
  {
  }

  lemma SignalSameData(c: Config, s: State, i: nat, x: SemId)
    requires Shape(c, s) && AllPlaced(c, s) && Queues(c, s)
    requires x in s.sems && i < |s.procs| && InstrOf(c, s.procs[i]) == DoSignal(x)
    ensures var t := SignalStep(c, s, i, x); SameData(c, s, t) && Shape(c, t) && AllPlaced(c, t)
  {
    SignalIsMoves(c, s, i, x);
    var m := Moved(c, s, i);
    MovedSameData(c, s, i);
    MovedShape(c, s, i);
    var sems := s.sems[x := Signal(s.sems[x])];
    assert sems.Keys == s.sems.Keys;
    match Released(s.sems[x])
    case None =>
      hide *;
      WithSems(c, s, m, sems);
    case Some(q) =>
      ReleasedWaits(c, s, i, x);
      assert WellPlaced(c, m.procs[q]);
      MovedSameData(c, m, q);
      MovedShape(c, m, q);
      hide *;
      SameDataTrans(c, s, m, Moved(c, m, q));
      WithSems(c, s, Moved(c, m, q), sems);
  }

  lemma SignalDebt(c: Config, s: State, i: nat, x: SemId, y: SemId)
    requires Shape(c, s) && AllPlaced(c, s) && Queues(c, s)
    requires x in s.sems && i < |s.procs| && InstrOf(c, s.procs[i]) == DoSignal(x)
    ensures Sum(c, Debt(y), SignalStep(c, s, i, x).procs) == Sum(c, Debt(y), s.procs)
              + if y == x && Released(s.sems[x]).None? then -1 else 0
  {
    SignalIsMoves(c, s, i, x);
    MovedDebt(c, s, i, y);
    match Released(s.sems[x])
    case None =>
    case Some(q) =>
      ReleasedWaits(c, s, i, x);
      MovedShape(c, s, i);
      MovedDebt(c, Moved(c, s, i), q, y);
  }

  lemma SignalKeepsLaw(c: Config, s: State, i: nat, x: SemId)
    requires Shape(c, s) && AllPlaced(c, s) && Queues(c, s) && SemLaw(c, s)
    requires x in s.sems && i < |s.procs| && InstrOf(c, s.procs[i]) == DoSignal(x)
    ensures SemLaw(c, SignalStep(c, s, i, x))
  {
    var t := SignalStep(c, s, i, x);
    forall y | y in t.sems
      ensures LawAt(c, t, y)
    {
      assert LawAt(c, s, y);
      SignalDebt(c, s, i, x, y);
    }
  }

  lemma SignalKeepsQueues(c: Config, s: State, i: nat, x: SemId)
    requires Queues(c, s) && Enabled(c, s, i)
    requires x in s.sems && i < |s.procs| && InstrOf(c, s.procs[i]) == DoSignal(x)
    ensures Queues(c, SignalStep(c, s, i, x))
  {
    var t := SignalStep(c, s, i, x);
    forall y | y in t.sems
      ensures QueueAt(c, t, y)
    {
      assert QueueAt(c, s, y);
      SignalTouches(c, s, i, x, y);
      hide *;
      QueueShrinks(c, s, t, y);
    }
  }

  /** A process table that agrees with s on everybody still queued at y keeps the queue. */
  lemma QueueShrinks(c: Config, s: State, t: State, y: SemId)
    requires y in s.sems && y in t.sems && QueueAt(c, s, y) && |t.procs| == |s.procs|
    requires var q := t.sems[y].queue;
      && (q == s.sems[y].queue || (|s.sems[y].queue| > 0 && q == s.sems[y].queue[1..]))
      && forall k :: 0 <= k < |q| && q[k] < |s.procs| ==> t.procs[q[k]] == s.procs[q[k]]
    ensures QueueAt(c, t, y)
  {
  }

  lemma SignalTouches(c: Config, s: State, i: nat, x: SemId, y: SemId)
    requires Queues(c, s) && Enabled(c, s, i) && x in s.sems && y in s.sems
    requires InstrOf(c, s.procs[i]) == DoSignal(x)
    ensures var t := SignalStep(c, s, i, x);
      && y in t.sems && |t.procs| == |s.procs|
      && var q := t.sems[y].queue;
      && (q == s.sems[y].queue || (|s.sems[y].queue| > 0 && q == s.sems[y].queue[1..]))
      && forall k :: 0 <= k < |q| && q[k] < |s.procs| ==> t.procs[q[k]] == s.procs[q[k]]
  {
    SignalIsMoves(c, s, i, x);
    EnabledIndex(c, s, i);
    if Released(s.sems[x]).Some? {
      ReleasedGone(c, s, x);
    }
    hide After, InstrOf, Queues;
  }

  /** After the release the released process is in no queue. */
  lemma ReleasedGone(c: Config, s: State, x: SemId)
    requires Queues(c, s) && x in s.sems && Released(s.sems[x]).Some?
    ensures var q := Released(s.sems[x]).value;
      && q !in Signal(s.sems[x]).queue
      && forall y :: y in s.sems && y != x ==> q !in s.sems[y].queue
  {
    assert QueueAt(c, s, x);
    forall y | y in s.sems && y != x
      ensures Released(s.sems[x]).value !in s.sems[y].queue
    {
      assert QueueAt(c, s, y);
    }
  }

  lemma SignalKeeps(c: Config, s: State, i: nat, x: SemId)
    requires Inv(c, s) && Enabled(c, s, i) && InstrOf(c, s.procs[i]) == DoSignal(x)
    ensures Inv(c, SignalStep(c, s, i, x))
  {
    var t := SignalStep(c, s, i, x);
    InstrKnown(c, s, i);
    InvIs(c, s);
    hide *;
    EnabledIndex(c, s, i);
    SignalSameData(c, s, i, x);
    SignalKeepsLaw(c, s, i, x);
    SignalKeepsQueues(c, s, i, x);
    SameDataKeeps(c, s, t);
    InvIs(c, t);
  }

  lemma EnabledIndex(c: Config, s: State, i: nat)
    requires Enabled(c, s, i)
    ensures i < |s.procs| && forall x :: x in s.sems ==> i !in s.sems[x].queue
  {
  }
}
