/**
 Accesses to shared memory keep the invariant.  Each of the five data
 invariants is carried through every access; the locks are used through the
 semaphore law, which allows one holder.
 */
module AirLocal {
  import opened AirModel
  import opened AirSums
  import opened AirInvariant

  /** A local step moves only process i and leaves the semaphores alone. */
  lemma LocalShape(c: Config, s: State, i: nat)
    requires i < |s.procs| && InstrOf(c, s.procs[i]) == Local
    ensures var t := LocalStep(c, s, i);
      && t.sems == s.sems && |t.procs| == |s.procs| && t.procs == s.procs[i := t.procs[i]]
      && |t.slots| == |s.slots|
      && t.procs[i].Customer? == s.procs[i].Customer? && t.procs[i].Clerk? == s.procs[i].Clerk?
      && (t.procs[i].Clerk? ==> t.procs[i].served == s.procs[i].served)
  {
  }

  lemma LocalPlaced(c: Config, s: State, i: nat)
    requires i < |s.procs| && InstrOf(c, s.procs[i]) == Local && WellPlaced(c, s.procs[i])
    ensures WellPlaced(c, LocalStep(c, s, i).procs[i])
  {
  }

  lemma LocalDebtSame(c: Config, s: State, i: nat, y: SemId)
    requires i < |s.procs| && InstrOf(c, s.procs[i]) == Local && WellPlaced(c, s.procs[i])
    ensures DebtOf(c, y, LocalStep(c, s, i).procs[i]) == DebtOf(c, y, s.procs[i])
  {
    LocalShape(c, s, i);
    if s.procs[i].Clerk? {
      LocalClerkDebtSame(c, s, i, y);
    }
  }

  lemma LocalClerkDebtSame(c: Config, s: State, i: nat, y: SemId)
    requires i < |s.procs| && InstrOf(c, s.procs[i]) == Local && WellPlaced(c, s.procs[i]) && s.procs[i].Clerk?
    ensures DebtOf(c, y, LocalStep(c, s, i).procs[i]) == DebtOf(c, y, s.procs[i])
  {
    hide Count;
    var p := LocalStep(c, s, i).procs[i];
    assert p.Clerk? && p.served == s.procs[i].served;
  }

  lemma LocalKeepsSems(c: Config, s: State, i: nat)
    requires Shape(c, s) && AllPlaced(c, s) && SemLaw(c, s) && Queues(c, s)
    requires i < |s.procs| && InstrOf(c, s.procs[i]) == Local
    ensures var t := LocalStep(c, s, i); Shape(c, t) && AllPlaced(c, t) && SemLaw(c, t) && Queues(c, t)
  {
    var t := LocalStep(c, s, i);
    LocalShape(c, s, i);
    LocalPlaced(c, s, i);
    hide LocalStep, WellPlaced;
    forall y | y in t.sems
      ensures LawAt(c, t, y) && QueueAt(c, t, y)
    {
      assert LawAt(c, s, y) && QueueAt(c, s, y);
      LocalDebtSame(c, s, i, y);
      SumUpdate(c, Debt(y), s.procs, i, t.procs[i]);
    }
  }

  // ----- mutual exclusion -----

  predicate IsLock(x: SemId) { x in {CounterCS, QueueCS, Flight1CS, Flight2CS} }

  /** At most one process is between wait and signal of a lock. */
  lemma OneHolder(c: Config, s: State, x: SemId, i: nat, j: nat)
    requires SemLaw(c, s) && x in s.sems && IsLock(x) && i < |s.procs| && j < |s.procs|
    requires Eval(c, Debt(x), s.procs[i]) == 1 && Eval(c, Debt(x), s.procs[j]) == 1
    ensures i == j
  {
    assert LawAt(c, s, x);
    assert NonNegative(c, Debt(x), s.procs);
    hide Eval;
    AtMostOne(c, Debt(x), s.procs, i, j);
  }

  /** How a weight moves in a local step. */
  lemma Shift(c: Config, s: State, i: nat, w: Weight)
    requires i < |s.procs| && InstrOf(c, s.procs[i]) == Local
    ensures var t := LocalStep(c, s, i);
      Sum(c, w, t.procs) == Sum(c, w, s.procs) + Eval(c, w, t.procs[i]) - Eval(c, w, s.procs[i])
  {
    var t := LocalStep(c, s, i);
    LocalShape(c, s, i);
    SumUpdate(c, w, s.procs, i, t.procs[i]);
  }

  // ----- customer numbers -----

  lemma NumberWeights(c: Config, s: State, i: nat, j: nat)
    requires i < |s.procs| && InstrOf(c, s.procs[i]) == Local
    ensures var t := LocalStep(c, s, i); var bump := AtCustomer(s.procs[i], BumpCounter);
      && Eval(c, Counted, t.procs[i]) - Eval(c, Counted, s.procs[i]) == B(bump)
      && Eval(c, Numbered(j), t.procs[i]) - Eval(c, Numbered(j), s.procs[i]) == B(bump && s.procs[i].id == j)
      && t.counter == s.counter + B(bump)
  {
  }

  lemma BumpPlace(c: Config, s: State, i: nat)
    requires i < |s.procs| && InstrOf(c, s.procs[i]) == Local
    ensures var t := LocalStep(c, s, i);
      && (AtCustomer(t.procs[i], BumpCounter) ==> t.procs[i].id == s.counter && AtCustomer(s.procs[i], ReadCounter))
      && (AtCustomer(t.procs[i], BumpIn) ==> AtCustomer(s.procs[i], WriteSlot) && t.procs[i].id == s.procs[i].id)
      && (AtClerk(t.procs[i], BumpOut) ==> AtClerk(s.procs[i], ReadSlot))
  {
  }

  lemma CounterHeld(c: Config, p: Proc)
    ensures AtCustomer(p, BumpCounter) ==> Eval(c, Debt(CounterCS), p) == 1
    ensures AtCustomer(p, WriteSlot) || AtCustomer(p, BumpIn) || AtClerk(p, ReadSlot) || AtClerk(p, BumpOut) ==>
      Eval(c, Debt(QueueCS), p) == 1
  {
  }

  lemma LocalKeepsNumbers(c: Config, s: State, i: nat)
    requires Shape(c, s) && SemLaw(c, s) && Numbers(c, s) && i < |s.procs| && InstrOf(c, s.procs[i]) == Local
    ensures Numbers(c, LocalStep(c, s, i))
  {
    var t := LocalStep(c, s, i);
    LocalShape(c, s, i);
    BumpPlace(c, s, i);
    NumberWeights(c, s, i, 0);
    Shift(c, s, i, Counted);
    forall j: nat
      ensures Sum(c, Numbered(j), t.procs) == B(j < t.counter)
    {
      NumberWeights(c, s, i, j);
      Shift(c, s, i, Numbered(j));
    }
    forall k | 0 <= k < |s.procs| && AtCustomer(t.procs[k], BumpCounter)
      ensures t.procs[k].id == t.counter
    {
      CounterHeld(c, s.procs[k]);
      CounterHeld(c, s.procs[i]);
      if k != i && AtCustomer(s.procs[i], BumpCounter) {
        OneHolder(c, s, CounterCS, i, k);
      }
    }
  }

  // ----- the queue of ready customers: producers -----

  lemma SlotWeights(c: Config, s: State, i: nat, j: nat)
    requires i < |s.procs| && InstrOf(c, s.procs[i]) == Local
    ensures var t := LocalStep(c, s, i); var bump := AtCustomer(s.procs[i], BumpIn);
      && Eval(c, Enqueued, t.procs[i]) - Eval(c, Enqueued, s.procs[i]) == B(bump)
      && Eval(c, InSlot(j), t.procs[i]) - Eval(c, InSlot(j), s.procs[i]) == B(bump && s.procs[i].id == j)
      && t.qin == s.qin + B(bump)
      && t.slots == if AtCustomer(s.procs[i], WriteSlot) && s.qin < |s.slots| then s.slots[s.qin := s.procs[i].id] else s.slots
  {
  }

  lemma LocalKeepsSlots(c: Config, s: State, i: nat)
    requires Shape(c, s) && SemLaw(c, s) && Slots(c, s) && i < |s.procs| && InstrOf(c, s.procs[i]) == Local
    ensures Slots(c, LocalStep(c, s, i))
  {
    var t := LocalStep(c, s, i);
    LocalShape(c, s, i);
    BumpPlace(c, s, i);
    SlotWeights(c, s, i, 0);
    Shift(c, s, i, Enqueued);
    Customers(c, s, i);
    forall j: nat
      ensures Sum(c, InSlot(j), t.procs) == CountTo(t.slots, j, t.qin)
    {
      SlotCounts(c, s, i, j);
    }
    forall k | 0 <= k < |s.procs| && AtCustomer(t.procs[k], BumpIn)
      ensures t.qin < |t.slots| && t.slots[t.qin] == t.procs[k].id
    {
      BumperSlot(c, s, i, k);
    }
    hide LocalStep, Eval, Sum, CountTo;
  }

  lemma SlotCounts(c: Config, s: State, i: nat, j: nat)
    requires Shape(c, s) && Slots(c, s) && i < |s.procs| && InstrOf(c, s.procs[i]) == Local
    ensures var t := LocalStep(c, s, i);
      t.qin <= |t.slots| && Sum(c, InSlot(j), t.procs) == CountTo(t.slots, j, t.qin)
  {
    var t := LocalStep(c, s, i);
    LocalShape(c, s, i);
    BumpPlace(c, s, i);
    Customers(c, s, i);
    SlotWeights(c, s, i, j);
    Shift(c, s, i, InSlot(j));
    CountToSame(s.slots, t.slots, j, s.qin);
    hide Eval, Sum;
  }

  /** Who is about to count a slot has just written it. */
  lemma BumperSlot(c: Config, s: State, i: nat, k: nat)
    requires Shape(c, s) && SemLaw(c, s) && Slots(c, s) && i < |s.procs| && InstrOf(c, s.procs[i]) == Local
    requires k < |s.procs| && |LocalStep(c, s, i).procs| == |s.procs| && AtCustomer(LocalStep(c, s, i).procs[k], BumpIn)
    ensures var t := LocalStep(c, s, i); t.qin < |t.slots| && t.slots[t.qin] == t.procs[k].id
  {
    LocalShape(c, s, i);
    BumpPlace(c, s, i);
    Customers(c, s, i);
    CounterHeld(c, s.procs[k]);
    CounterHeld(c, s.procs[i]);
    if k != i && (AtCustomer(s.procs[i], BumpIn) || AtCustomer(s.procs[i], WriteSlot)) {
      OneHolder(c, s, QueueCS, i, k);
    }
  }

  // ----- the queue of ready customers: consumers -----

  lemma TakenAfterReady(c: Config, p: Proc)
    ensures Eval(c, Taken, p) + B(AtClerk(p, ClerkWaitQueue) || AtClerk(p, ReadSlot) || AtClerk(p, BumpOut))
            <= Eval(c, Plus(Debt(Ready), Enqueued), p)
  {
    assert Eval(c, Plus(Debt(Ready), Enqueued), p) == DebtOf(c, Ready, p) + Eval(c, Enqueued, p);
  }

  /** A clerk past cust_ready reads only a slot already written. */
  lemma SlotIsWritten(c: Config, s: State, i: nat)
    requires Shape(c, s) && SemLaw(c, s) && Slots(c, s) && Out(c, s) && i < |s.procs|
    requires AtClerk(s.procs[i], ClerkWaitQueue) || AtClerk(s.procs[i], ReadSlot) || AtClerk(s.procs[i], BumpOut)
    ensures s.qout < s.qin <= |s.slots|
  {
    assert IsSem(c, Ready) && LawAt(c, s, Ready);
    forall k | 0 <= k < |s.procs|
      ensures Eval(c, Taken, s.procs[k]) <= Eval(c, Plus(Debt(Ready), Enqueued), s.procs[k])
    {
      TakenAfterReady(c, s.procs[k]);
    }
    TakenAfterReady(c, s.procs[i]);
    hide Eval;
    SumBelow(c, Taken, Plus(Debt(Ready), Enqueued), s.procs, i);
    SumPlus(c, Debt(Ready), Enqueued, s.procs);
  }

  lemma OutWeights(c: Config, s: State, i: nat, j: nat)
    requires i < |s.procs| && InstrOf(c, s.procs[i]) == Local
    ensures var t := LocalStep(c, s, i); var bump := AtClerk(s.procs[i], BumpOut);
      && Eval(c, Taken, t.procs[i]) - Eval(c, Taken, s.procs[i]) == B(bump)
      && Eval(c, Handled(j), t.procs[i]) - Eval(c, Handled(j), s.procs[i]) == B(bump && s.procs[i].cust == j)
      && t.qout == s.qout + B(bump)
  {
    TakenMoves(c, s, i);
    HandledMoves(c, s, i, j);
    hide Eval;
  }

  lemma TakenMoves(c: Config, s: State, i: nat)
    requires i < |s.procs| && InstrOf(c, s.procs[i]) == Local
    ensures Eval(c, Taken, LocalStep(c, s, i).procs[i]) == Eval(c, Taken, s.procs[i]) + B(AtClerk(s.procs[i], BumpOut))
  {
  }

  lemma HandledMoves(c: Config, s: State, i: nat, j: nat)
    requires i < |s.procs| && InstrOf(c, s.procs[i]) == Local
    ensures Eval(c, Handled(j), LocalStep(c, s, i).procs[i]) ==
            Eval(c, Handled(j), s.procs[i]) + B(AtClerk(s.procs[i], BumpOut) && s.procs[i].cust == j)
  {
    hide Count;
  }

  lemma SlotsFrame(c: Config, s: State, i: nat)
    requires i < |s.procs| && InstrOf(c, s.procs[i]) == Local
    ensures var t := LocalStep(c, s, i);
      && s.qin <= t.qin && |t.slots| == |s.slots|
      && (forall k :: 0 <= k < |s.slots| && k < s.qin ==> t.slots[k] == s.slots[k])
      && (AtClerk(s.procs[i], ReadSlot) && s.qout < |s.slots| ==>
            AtClerk(t.procs[i], BumpOut) && t.procs[i].cust == s.slots[s.qout])
  {
  }

  lemma LocalKeepsOut(c: Config, s: State, i: nat)
    requires Shape(c, s) && SemLaw(c, s) && Slots(c, s) && Out(c, s) && i < |s.procs| && InstrOf(c, s.procs[i]) == Local
    ensures Out(c, LocalStep(c, s, i))
  {
    var t := LocalStep(c, s, i);
    LocalShape(c, s, i);
    BumpPlace(c, s, i);
    SlotsFrame(c, s, i);
    LocalKeepsSlots(c, s, i);
    OutWeights(c, s, i, 0);
    Shift(c, s, i, Taken);
    if AtClerk(s.procs[i], BumpOut) || AtClerk(s.procs[i], ReadSlot) {
      SlotIsWritten(c, s, i);
    }
    OutCounts(c, s, i);
    forall k | 0 <= k < |s.procs| && AtClerk(t.procs[k], BumpOut)
      ensures t.qout < t.qin && t.slots[t.qout] == t.procs[k].cust
    {
      CounterHeld(c, s.procs[k]);
      CounterHeld(c, s.procs[i]);
      if k != i && (AtClerk(s.procs[i], BumpOut) || AtClerk(s.procs[i], ReadSlot)) {
        OneHolder(c, s, QueueCS, i, k);
      }
    }
  }

  lemma OutCounts(c: Config, s: State, i: nat)
    requires Shape(c, s) && Out(c, s) && i < |s.procs| && InstrOf(c, s.procs[i]) == Local
    ensures var t := LocalStep(c, s, i);
      t.qout <= |t.slots| ==> forall j: nat :: Sum(c, Handled(j), t.procs) == CountTo(t.slots, j, t.qout)
  {
    var t := LocalStep(c, s, i);
    if t.qout <= |t.slots| {
      forall j: nat
        ensures Sum(c, Handled(j), t.procs) == CountTo(t.slots, j, t.qout)
      {
        OutWeights(c, s, i, j);
        Shift(c, s, i, Handled(j));
        SlotsFrame(c, s, i);
        CountToSame(s.slots, t.slots, j, s.qout);
        hide LocalStep, Eval;
        assert AtClerk(s.procs[i], BumpOut) ==> t.slots[s.qout] == s.slots[s.qout] == s.procs[i].cust;
      }
    }
  }

  // ----- tickets -----

  /** Who holds the flight locks. */
  lemma FlightsHeld(c: Config, p: Proc)
    requires WellPlaced(c, p) && p.Clerk?
    ensures c.TypeOf(p.cust) != Two && p.kat in {Test, Take1, Record1, Take2, Record2} ==>
      Eval(c, Debt(Flight1CS), p) == 1
    ensures c.TypeOf(p.cust) != One && p.kat in {Test, Take1, Record1, Take2, Record2} ==>
      Eval(c, Debt(Flight2CS), p) == 1
    ensures p.kat in {Take1, Record1} ==> c.TypeOf(p.cust) != Two
    ensures p.kat in {Take2, Record2} ==> c.TypeOf(p.cust) != One
  {
  }

  lemma TicketWeights(c: Config, s: State, i: nat)
    requires i < |s.procs| && InstrOf(c, s.procs[i]) == Local
    ensures var t := LocalStep(c, s, i); var p := s.procs[i];
      && Eval(c, Recording1, t.procs[i]) - Eval(c, Recording1, p) == B(AtClerk(p, Take1)) - B(AtClerk(p, Record1))
      && Eval(c, Recording2, t.procs[i]) - Eval(c, Recording2, p) == B(AtClerk(p, Take2)) - B(AtClerk(p, Record2))
      && t.left1 == s.left1 - B(AtClerk(p, Take1)) && |t.booked1| == |s.booked1| + B(AtClerk(p, Record1))
      && t.left2 == s.left2 - B(AtClerk(p, Take2)) && |t.booked2| == |s.booked2| + B(AtClerk(p, Record2))
  {
    RecordingMoves(c, s, i);
    hide Eval;
  }

  lemma RecordingMoves(c: Config, s: State, i: nat)
    requires i < |s.procs| && InstrOf(c, s.procs[i]) == Local
    ensures var t := LocalStep(c, s, i); var p := s.procs[i];
      && Eval(c, Recording1, t.procs[i]) - Eval(c, Recording1, p) == B(AtClerk(p, Take1)) - B(AtClerk(p, Record1))
      && Eval(c, Recording2, t.procs[i]) - Eval(c, Recording2, p) == B(AtClerk(p, Take2)) - B(AtClerk(p, Record2))
  {
    hide Count, Holds1, Holds2;
  }

  ghost predicate TicketWaits(c: Config, s: State, p: Proc) {
    p.Clerk? ==>
      && (p.kat == Take1 ==> 0 < s.left1)
      && (p.kat == Take2 ==> 0 < s.left2)
      && (c.TypeOf(p.cust) == Three && p.kat in {Take1, Record1} ==> 0 < s.left2)
  }

  lemma MoverWaits(c: Config, s: State, i: nat)
    requires i < |s.procs| && InstrOf(c, s.procs[i]) == Local && WellPlaced(c, s.procs[i]) && TicketWaits(c, s, s.procs[i])
    ensures TicketWaits(c, LocalStep(c, s, i), LocalStep(c, s, i).procs[i])
  {
  }

  /** Nobody else waits to take a ticket while process i takes one. */
  lemma OthersWait(c: Config, s: State, i: nat, k: nat)
    requires Shape(c, s) && AllPlaced(c, s) && SemLaw(c, s) && i < |s.procs| && k < |s.procs| && k != i
    requires InstrOf(c, s.procs[i]) == Local && TicketWaits(c, s, s.procs[k])
    ensures TicketWaits(c, LocalStep(c, s, i), s.procs[k])
  {
    var p, q := s.procs[i], s.procs[k];
    TicketWeights(c, s, i);
    hide LocalStep;
    assert IsSem(c, Flight1CS) && IsSem(c, Flight2CS);
    if q.Clerk? && q.kat in {Take1, Record1, Take2} && p.Clerk? && p.kat in {Take1, Take2} {
      assert WellPlaced(c, p) && WellPlaced(c, q);
      FlightsHeld(c, p);
      FlightsHeld(c, q);
      hide Eval, WellPlaced, SemLaw;
      if p.kat == Take1 && q.kat == Take1 {
        OneHolder(c, s, Flight1CS, i, k);
      } else if p.kat == Take2 && (q.kat == Take2 || c.TypeOf(q.cust) == Three) {
        OneHolder(c, s, Flight2CS, i, k);
      }
    }
  }

  lemma LocalKeepsTickets(c: Config, s: State, i: nat)
    requires Shape(c, s) && AllPlaced(c, s) && SemLaw(c, s) && Tickets(c, s)
    requires i < |s.procs| && InstrOf(c, s.procs[i]) == Local
    ensures Tickets(c, LocalStep(c, s, i))
  {
    var t := LocalStep(c, s, i);
    LocalShape(c, s, i);
    TicketWeights(c, s, i);
    Shift(c, s, i, Recording1);
    Shift(c, s, i, Recording2);
    MoverWaits(c, s, i);
    hide LocalStep;
    forall k | 0 <= k < |s.procs|
      ensures TicketWaits(c, t, t.procs[k])
    {
      if k != i {
        assert TicketWaits(c, s, s.procs[k]);
        OthersWait(c, s, i, k);
      }
    }
  }

  // ----- bookings -----

  /** How each access moves the counts of one customer's tickets. */
  lemma BookingWeights1(c: Config, s: State, i: nat, j: nat)
    requires i < |s.procs| && InstrOf(c, s.procs[i]) == Local && WellPlaced(c, s.procs[i])
    ensures var t := LocalStep(c, s, i); var p := s.procs[i]; var mine := p.Clerk? && p.cust == j;
      && Eval(c, Claim1(j), t.procs[i]) - Eval(c, Claim1(j), p)
           == B(mine && p.kat == Take1) - B(mine && p.kat == Record1)
      && Eval(c, Past1(j), t.procs[i]) - Eval(c, Past1(j), p)
           == B(mine && p.kat == Take1) + B(mine && p.kat == Test && t.procs[i].kat != Take1)
      && t.booked1 == if AtClerk(p, Record1) then s.booked1 + [p.cust] else s.booked1
  {
    Claim1Moves(c, s, i, j);
    hide Count;
  }

  lemma Claim1Moves(c: Config, s: State, i: nat, j: nat)
    requires i < |s.procs| && InstrOf(c, s.procs[i]) == Local && WellPlaced(c, s.procs[i])
    ensures var p := s.procs[i]; var mine := p.Clerk? && p.cust == j;
      Eval(c, Claim1(j), LocalStep(c, s, i).procs[i]) ==
      Eval(c, Claim1(j), p) + B(mine && p.kat == Take1) - B(mine && p.kat == Record1)
  {
  }

  lemma BookingWeights2(c: Config, s: State, i: nat, j: nat)
    requires i < |s.procs| && InstrOf(c, s.procs[i]) == Local && WellPlaced(c, s.procs[i])
    ensures var t := LocalStep(c, s, i); var p := s.procs[i]; var mine := p.Clerk? && p.cust == j;
      && Eval(c, Claim2(j), t.procs[i]) - Eval(c, Claim2(j), p)
           == B(mine && p.kat == Take2) - B(mine && p.kat == Record2)
      && (c.TypeOf(j) != One ==>
            Eval(c, Past2(j), t.procs[i]) - Eval(c, Past2(j), p)
              == B(mine && p.kat == Take2) + B(mine && p.kat == Test && t.procs[i].kat !in {Take1, Take2}))
      && t.booked2 == if AtClerk(p, Record2) then s.booked2 + [p.cust] else s.booked2
  {
    Claim2Moves(c, s, i, j);
    hide Count;
  }

  lemma Claim2Moves(c: Config, s: State, i: nat, j: nat)
    requires i < |s.procs| && InstrOf(c, s.procs[i]) == Local && WellPlaced(c, s.procs[i])
    ensures var p := s.procs[i]; var mine := p.Clerk? && p.cust == j;
      Eval(c, Claim2(j), LocalStep(c, s, i).procs[i]) ==
      Eval(c, Claim2(j), p) + B(mine && p.kat == Take2) - B(mine && p.kat == Record2)
  {
  }

  lemma BookingWeights3(c: Config, s: State, i: nat, j: nat)
    requires i < |s.procs| && InstrOf(c, s.procs[i]) == Local && WellPlaced(c, s.procs[i])
    ensures var t := LocalStep(c, s, i); var p := s.procs[i]; var mine := p.Clerk? && p.cust == j;
      && (c.TypeOf(j) == Three ==>
            Eval(c, Between(j), t.procs[i]) - Eval(c, Between(j), p)
              == B(mine && p.kat == Take1) - B(mine && p.kat == Take2))
      && t.flags == if AtClerk(p, Take1) || AtClerk(p, Take2) then s.flags + {p.cust} else s.flags
  {
  }

  lemma Got1Moves(c: Config, s: State, i: nat, j: nat)
    requires i < |s.procs| && InstrOf(c, s.procs[i]) == Local && WellPlaced(c, s.procs[i])
    ensures var t := LocalStep(c, s, i); var p := s.procs[i]; var mine := p.Clerk? && p.cust == j;
      && Got1(c, t, j) == Got1(c, s, j) + B(mine && p.kat == Take1)
      && Sum(c, Past1(j), t.procs) == Sum(c, Past1(j), s.procs)
           + B(mine && p.kat == Take1) + B(mine && p.kat == Test && t.procs[i].kat != Take1)
  {
    BookingWeights1(c, s, i, j);
    Shift(c, s, i, Claim1(j));
    Shift(c, s, i, Past1(j));
    if AtClerk(s.procs[i], Record1) {
      CountAppend(s.booked1, s.procs[i].cust, j);
    }
    hide LocalStep, Eval, Sum, Count;
  }

  lemma Got2Moves(c: Config, s: State, i: nat, j: nat)
    requires i < |s.procs| && InstrOf(c, s.procs[i]) == Local && WellPlaced(c, s.procs[i])
    ensures var t := LocalStep(c, s, i); var p := s.procs[i]; var mine := p.Clerk? && p.cust == j;
      && Got2(c, t, j) == Got2(c, s, j) + B(mine && p.kat == Take2)
      && (c.TypeOf(j) != One ==>
            Sum(c, Past2(j), t.procs) == Sum(c, Past2(j), s.procs)
              + B(mine && p.kat == Take2) + B(mine && p.kat == Test && t.procs[i].kat !in {Take1, Take2}))
  {
    BookingWeights2(c, s, i, j);
    Shift(c, s, i, Claim2(j));
    Shift(c, s, i, Past2(j));
    if AtClerk(s.procs[i], Record2) {
      CountAppend(s.booked2, s.procs[i].cust, j);
    }
    hide LocalStep, Eval, Sum, Count;
  }

  // ----- with enough tickets nobody is refused -----

  /** A sequence without repetitions that stays in a set is no longer than the set. */
  lemma {:induction false} DistinctFits(s: seq<nat>, n: nat, d: set<nat>)
    requires n <= |s| && forall j: nat :: CountTo(s, j, n) <= B(j in d)
    ensures n <= |d|
  {
    if n > 0 {
      var x := s[n - 1];
      assert CountTo(s, x, n) == CountTo(s, x, n - 1) + 1;
      forall j: nat
        ensures CountTo(s, j, n - 1) <= B(j in d - {x})
      {
        assert CountTo(s, j, n) <= B(j in d);
      }
      DistinctFits(s, n - 1, d - {x});
    }
  }

  /** No ticket is spent on a customer whose clerk has not decided yet. */
  lemma Undecided(c: Config, s: State, i: nat)
    requires Inv(c, s) && i < |s.procs| && AtClerk(s.procs[i], Test)
    ensures var j := s.procs[i].cust;
      && Sum(c, Past1(j), s.procs) <= 0 && Sum(c, Past2(j), s.procs) <= 0
      && j < c.N()
  {
    var j := s.procs[i].cust;
    NumbersInRange(c, s, i);
    HandledOnce(c, s, j);
    PastHandled(c, j, s.procs);
    assert Eval(c, Handled(j), s.procs[i]) - Eval(c, Past1(j), s.procs[i]) == 1;
    assert Eval(c, Handled(j), s.procs[i]) - Eval(c, Past2(j), s.procs[i]) == 1;
    hide Eval;
    SumBelow(c, Past1(j), Handled(j), s.procs, i);
    SumBelow(c, Past2(j), Handled(j), s.procs, i);
  }

  lemma PastHandled(c: Config, j: nat, ps: seq<Proc>)
    ensures Below(c, Past1(j), Handled(j), ps) && Below(c, Past2(j), Handled(j), ps)
  {
    hide Count;
  }

  /** Customers past a decision are customers that were handled: their numbers are below N, once each. */
  lemma PastOnce(c: Config, s: State, j: nat)
    requires Inv(c, s)
    ensures Sum(c, Past1(j), s.procs) <= B(j < c.N()) && Sum(c, Past2(j), s.procs) <= B(j < c.N())
  {
    HandledOnce(c, s, j);
    Customers(c, s, 0);
    PastHandled(c, j, s.procs);
    hide Eval, Sum, Slots, Out, SemLaw, Queues, Tickets, Booking;
    SumBelow(c, Past1(j), Handled(j), s.procs, 0);
    SumBelow(c, Past2(j), Handled(j), s.procs, 0);
  }

  lemma RecorderHolds(c: Config, p: Proc)
    requires WellPlaced(c, p)
    ensures Eval(c, Recording1, p) <= Eval(c, Debt(Flight1CS), p)
    ensures Eval(c, Recording2, p) <= Eval(c, Debt(Flight2CS), p)
  {
  }

  /** While a clerk tests under the lock of flight 1 nobody is recording on flight 1. */
  lemma NobodyRecords1(c: Config, s: State, i: nat)
    requires Inv(c, s) && i < |s.procs| && AtClerk(s.procs[i], Test) && c.TypeOf(s.procs[i].cust) != Two
    ensures Sum(c, Recording1, s.procs) <= 0
  {
    assert IsSem(c, Flight1CS) && LawAt(c, s, Flight1CS);
    forall k | 0 <= k < |s.procs|
      ensures Eval(c, Recording1, s.procs[k]) <= Eval(c, Debt(Flight1CS), s.procs[k])
    {
      assert WellPlaced(c, s.procs[k]);
      RecorderHolds(c, s.procs[k]);
    }
    FlightsHeld(c, s.procs[i]);
    assert Eval(c, Recording1, s.procs[i]) == 0;
    hide Eval, Sum;
    SumBelow(c, Recording1, Debt(Flight1CS), s.procs, i);
  }

  lemma NobodyRecords2(c: Config, s: State, i: nat)
    requires Inv(c, s) && i < |s.procs| && AtClerk(s.procs[i], Test) && c.TypeOf(s.procs[i].cust) != One
    ensures Sum(c, Recording2, s.procs) <= 0
  {
    assert IsSem(c, Flight2CS) && LawAt(c, s, Flight2CS);
    forall k | 0 <= k < |s.procs|
      ensures Eval(c, Recording2, s.procs[k]) <= Eval(c, Debt(Flight2CS), s.procs[k])
    {
      assert WellPlaced(c, s.procs[k]);
      RecorderHolds(c, s.procs[k]);
    }
    FlightsHeld(c, s.procs[i]);
    assert Eval(c, Recording2, s.procs[i]) == 0;
    hide Eval, Sum;
    SumBelow(c, Recording2, Debt(Flight2CS), s.procs, i);
  }

  lemma ClaimsNonNegative(c: Config, s: State, j: nat)
    ensures 0 <= Sum(c, Claim1(j), s.procs) && 0 <= Sum(c, Claim2(j), s.procs)
  {
    SumNonNegative(c, Claim1(j), s.procs);
    SumNonNegative(c, Claim2(j), s.procs);
  }

  lemma EnoughFor1(c: Config, s: State, i: nat)
    requires Inv(c, s) && Supply(c) && i < |s.procs| && AtClerk(s.procs[i], Test) && c.TypeOf(s.procs[i].cust) != Two
    ensures 0 < s.left1
  {
    var j0 := s.procs[i].cust;
    Undecided(c, s, i);
    NobodyRecords1(c, s, i);
    var d := Demand1(c) - {j0};
    forall j: nat
      ensures CountTo(s.booked1, j, |s.booked1|) <= B(j in d)
    {
      assert BookingOf(c, s, j);
      PastOnce(c, s, j);
      ClaimsNonNegative(c, s, j);
      hide Sum, CountTo;
    }
    DistinctFits(s.booked1, |s.booked1|, d);
    assert j0 in Demand1(c);
  }

  lemma EnoughFor2(c: Config, s: State, i: nat)
    requires Inv(c, s) && Supply(c) && i < |s.procs| && AtClerk(s.procs[i], Test) && c.TypeOf(s.procs[i].cust) != One
    ensures 0 < s.left2
  {
    var j0 := s.procs[i].cust;
    Undecided(c, s, i);
    NobodyRecords2(c, s, i);
    var d := Demand2(c) - {j0};
    forall j: nat
      ensures CountTo(s.booked2, j, |s.booked2|) <= B(j in d)
    {
      assert BookingOf(c, s, j);
      PastOnce(c, s, j);
      ClaimsNonNegative(c, s, j);
      hide Sum, CountTo;
    }
    DistinctFits(s.booked2, |s.booked2|, d);
    assert j0 in Demand2(c);
  }

  /** With enough tickets a test always goes on to take a ticket. */
  lemma TestSucceeds(c: Config, s: State, i: nat)
    requires Inv(c, s) && Supply(c) && i < |s.procs| && AtClerk(s.procs[i], Test)
    ensures LocalStep(c, s, i).procs[i].kat == if c.TypeOf(s.procs[i].cust) == Two then Take2 else Take1
  {
    var ty := c.TypeOf(s.procs[i].cust);
    if ty != Two {
      EnoughFor1(c, s, i);
    }
    if ty != One {
      EnoughFor2(c, s, i);
    }
    hide Inv;
  }

  lemma LocalKeepsBooking(c: Config, s: State, i: nat)
    requires Inv(c, s) && i < |s.procs| && InstrOf(c, s.procs[i]) == Local
    ensures Booking(c, LocalStep(c, s, i))
  {
    assert WellPlaced(c, s.procs[i]);
    if Supply(c) && AtClerk(s.procs[i], Test) {
      TestSucceeds(c, s, i);
    }
    forall j: nat
      ensures BookingOf(c, LocalStep(c, s, i), j)
    {
      assert BookingOf(c, s, j);
      BookingStep(c, s, i, j);
    }
  }

  lemma BookingStep(c: Config, s: State, i: nat, j: nat)
    requires BookingOf(c, s, j) && i < |s.procs| && InstrOf(c, s.procs[i]) == Local && WellPlaced(c, s.procs[i])
    requires Supply(c) && AtClerk(s.procs[i], Test) ==>
      LocalStep(c, s, i).procs[i].kat == if c.TypeOf(s.procs[i].cust) == Two then Take2 else Take1
    ensures BookingOf(c, LocalStep(c, s, i), j)
  {
    var t := LocalStep(c, s, i);
    Got1Moves(c, s, i, j);
    Got2Moves(c, s, i, j);
    BookingWeights3(c, s, i, j);
    Shift(c, s, i, Between(j));
    LocalShape(c, s, i);
    Counts(c, s, j);
    hide LocalStep, Eval, Sum, Got1, Got2, Supply;
  }

  lemma Counts(c: Config, s: State, j: nat)
    ensures 0 <= Got1(c, s, j) && 0 <= Got2(c, s, j)
  {
    ClaimsNonNegative(c, s, j);
  }

  lemma LocalKeeps(c: Config, s: State, i: nat)
    requires Inv(c, s) && i < |s.procs| && InstrOf(c, s.procs[i]) == Local
    ensures Inv(c, LocalStep(c, s, i))
  {
    hide *;
    InvIs(c, s);
    LocalKeepsSems(c, s, i);
    LocalKeepsNumbers(c, s, i);
    LocalKeepsSlots(c, s, i);
    LocalKeepsOut(c, s, i);
    LocalKeepsTickets(c, s, i);
    LocalKeepsBooking(c, s, i);
    InvIs(c, LocalStep(c, s, i));
  }
}
