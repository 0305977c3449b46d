/**
 Sums over the processes of the air reservation system.

 Every invariant that counts processes is a sum of a weight over the process
 table.  The weight Debt(x) of a process is the number of times it has passed
 semaphore x minus the number of times it has signalled it, read off its own
 local state; that it moves by exactly one at each wait and signal is what ties
 the semaphore values to the places the processes are in.
 */
module AirSums {
  import opened AirModel

  function Count(s: seq<nat>, j: nat): nat {
    CountTo(s, j, |s|)
  }

  function CountTo(s: seq<nat>, j: nat, n: nat): (k: nat)
    requires n <= |s|
  {
    if n == 0 then 0 else CountTo(s, j, n - 1) + if s[n - 1] == j then 1 else 0
  }

  lemma {:induction false} CountToSame(s: seq<nat>, t: seq<nat>, j: nat, n: nat)
    requires n <= |s| && n <= |t| && forall i :: 0 <= i < n ==> s[i] == t[i]
    ensures CountTo(s, j, n) == CountTo(t, j, n)
  {
    if n > 0 {
      CountToSame(s, t, j, n - 1);
    }
  }

  lemma CountAppend(s: seq<nat>, x: nat, j: nat)
    ensures Count(s + [x], j) == Count(s, j) + if x == j then 1 else 0
  {
    CountToSame(s + [x], s, j, |s|);
  }

  lemma {:induction false} CountMember(s: seq<nat>, j: nat, n: nat)
    requires n <= |s|
    ensures CountTo(s, j, n) > 0 <==> j in s[..n]
  {
    if n > 0 {
      CountMember(s, j, n - 1);
      assert s[..n] == s[..n - 1] + [s[n - 1]];
    }
  }

  datatype Weight =
    | Debt(x: SemId)
    | Numbered(j: nat)   // customers that have number j for good
    | Counted            // customers that have bumped the counter
    | InSlot(j: nat)     // customers that have enqueued number j
    | Enqueued           // customers that have bumped queue_in
    | Handled(j: nat)    // clerks that have taken number j out of the queue
    | Taken              // clerks' bumps of queue_out
    | Recording1 | Recording2             // clerks between taking a ticket and recording it
    | Claim1(j: nat) | Claim2(j: nat)     // the same, for customer j
    | Past1(j: nat) | Past2(j: nat)       // clerks past the decision about flight 1 or 2 for customer j
    | Between(j: nat)                     // clerks holding a flight-1 ticket but not yet a flight-2 ticket for j
    | Progress
    | Plus(a: Weight, b: Weight)

  function B(b: bool): int { if b then 1 else 0 }

  /** Does a clerk hold the lock of a flight? */
  predicate Holds1(c: Config, at: ClerkAt, cust: nat) {
    c.TypeOf(cust) != Two && WaitF1.Rank() < at.Rank() <= SignalF1.Rank()
  }

  predicate Holds2(c: Config, at: ClerkAt, cust: nat) {
    c.TypeOf(cust) != One && Test.Rank() <= at.Rank() <= SignalF2.Rank()
  }

  function DebtOf(c: Config, x: SemId, p: Proc): int {
    match p
    case Customer(at, id) => (
      var r := at.Rank();
      match x
      case CounterCS => B(ReadCounter.Rank() <= r <= SignalCounter.Rank())
      case QueueCS => B(WriteSlot.Rank() <= r <= SignalQueue.Rank())
      case ClerkSem => B(WaitQueue.Rank() <= r)
      case Ready => 0 - B(WaitFinished.Rank() <= r)
      case Terminated => 0 - B(at == Done)
      case Finished(j) => B(id == j && SignalTerminated.Rank() <= r)
      case _ => 0)
    case Clerk(at, cust, served) => (
      var r := at.Rank();
      match x
      case QueueCS => B(ReadSlot.Rank() <= r <= ClerkSignalQueue.Rank())
      case Flight1CS => B(Holds1(c, at, cust))
      case Flight2CS => B(Holds2(c, at, cust))
      case ClerkSem => B(at == SignalClerk) - |served|
      case Ready => |served| + B(ClerkWaitQueue.Rank() <= r <= SignalFinished.Rank())
      case Finished(j) => 0 - Count(served, j)
      case _ => 0)
    case Master(seen) => if x == Terminated then seen else 0
  }

  function Eval(c: Config, w: Weight, p: Proc): int
    decreases w
  {
    match w
    case Debt(x) => DebtOf(c, x, p)
    case Numbered(j) => B(p.Customer? && SignalCounter.Rank() <= p.cat.Rank() && p.id == j)
    case Counted => B(p.Customer? && SignalCounter.Rank() <= p.cat.Rank())
    case InSlot(j) => B(p.Customer? && SignalQueue.Rank() <= p.cat.Rank() && p.id == j)
    case Enqueued => B(p.Customer? && SignalQueue.Rank() <= p.cat.Rank())
    case Handled(j) => if p.Clerk? then Count(p.served, j) + B(p.cust == j && Handling(p.kat)) else 0
    case Taken => if p.Clerk? then |p.served| + B(Handling(p.kat)) else 0
    case Recording1 => B(p.Clerk? && p.kat == Record1)
    case Recording2 => B(p.Clerk? && p.kat == Record2)
    case Claim1(j) => B(p.Clerk? && p.kat == Record1 && p.cust == j)
    case Claim2(j) => B(p.Clerk? && p.kat == Record2 && p.cust == j)
    case Past1(j) =>
      if p.Clerk? then Count(p.served, j) + B(p.cust == j && Record1.Rank() <= p.kat.Rank() <= SignalFinished.Rank())
      else 0
    case Past2(j) =>
      if p.Clerk? then Count(p.served, j) + B(p.cust == j && Record2.Rank() <= p.kat.Rank() <= SignalFinished.Rank())
      else 0
    case Between(j) => B(p.Clerk? && p.cust == j && (p.kat == Record1 || p.kat == Take2))
    case Progress => (
      match p
      case Customer(at, _) => at.Rank()
      case Clerk(at, _, served) => 16 * |served| + if at == SignalClerk then -1 else at.Rank()
      case Master(seen) => seen)
    case Plus(a, b) => Eval(c, a, p) + Eval(c, b, p)
  }

  /** The clerk has taken its customer out of the queue and not yet signalled it. */
  predicate Handling(at: ClerkAt) {
    ClerkSignalQueue.Rank() <= at.Rank() <= SignalFinished.Rank()
  }

  // ----- sums -----

  function Sum(c: Config, w: Weight, ps: seq<Proc>): int {
    SumTo(c, w, ps, |ps|)
  }

  function SumTo(c: Config, w: Weight, ps: seq<Proc>, n: nat): int
    requires n <= |ps|
  {
    if n == 0 then 0 else SumTo(c, w, ps, n - 1) + Eval(c, w, ps[n - 1])
  }

  lemma {:induction false} SumToUpdate(c: Config, w: Weight, ps: seq<Proc>, i: nat, p: Proc, n: nat)
    requires i < |ps| && n <= |ps|
    ensures SumTo(c, w, ps[i := p], n) ==
            SumTo(c, w, ps, n) + if i < n then Eval(c, w, p) - Eval(c, w, ps[i]) else 0
  {
    hide Eval;
    if n > 0 {
      SumToUpdate(c, w, ps, i, p, n - 1);
    }
  }

  lemma SumUpdate(c: Config, w: Weight, ps: seq<Proc>, i: nat, p: Proc)
    requires i < |ps|
    ensures Sum(c, w, ps[i := p]) == Sum(c, w, ps) + Eval(c, w, p) - Eval(c, w, ps[i])
  {
    SumToUpdate(c, w, ps, i, p, |ps|);
  }

  ghost predicate Below(c: Config, a: Weight, b: Weight, ps: seq<Proc>) {
    forall i :: 0 <= i < |ps| ==> Eval(c, a, ps[i]) <= Eval(c, b, ps[i])
  }

  lemma {:induction false} SumToBelow(c: Config, a: Weight, b: Weight, ps: seq<Proc>, n: nat)
    requires n <= |ps| && Below(c, a, b, ps)
    ensures SumTo(c, a, ps, n) <= SumTo(c, b, ps, n)
    ensures forall i :: 0 <= i < n ==>
      SumTo(c, a, ps, n) + Eval(c, b, ps[i]) - Eval(c, a, ps[i]) <= SumTo(c, b, ps, n)
  {
    hide Eval;
    if n > 0 {
      SumToBelow(c, a, b, ps, n - 1);
    }
  }

  /** A pointwise bound carries over to the sums, with the slack at one index to spare. */
  lemma SumBelow(c: Config, a: Weight, b: Weight, ps: seq<Proc>, i: nat)
    requires Below(c, a, b, ps)
    ensures Sum(c, a, ps) <= Sum(c, b, ps)
    ensures i < |ps| ==> Sum(c, a, ps) + Eval(c, b, ps[i]) - Eval(c, a, ps[i]) <= Sum(c, b, ps)
  {
    SumToBelow(c, a, b, ps, |ps|);
  }

  lemma {:induction false} SumToPlus(c: Config, a: Weight, b: Weight, ps: seq<Proc>, n: nat)
    requires n <= |ps|
    ensures SumTo(c, Plus(a, b), ps, n) == SumTo(c, a, ps, n) + SumTo(c, b, ps, n)
  {
    if n > 0 {
      SumToPlus(c, a, b, ps, n - 1);
    }
  }

  lemma SumPlus(c: Config, a: Weight, b: Weight, ps: seq<Proc>)
    ensures Sum(c, Plus(a, b), ps) == Sum(c, a, ps) + Sum(c, b, ps)
  {
    SumToPlus(c, a, b, ps, |ps|);
  }

  ghost predicate NonNegative(c: Config, w: Weight, ps: seq<Proc>) {
    forall i :: 0 <= i < |ps| ==> 0 <= Eval(c, w, ps[i])
  }

  lemma {:induction false} SumToNonNegative(c: Config, w: Weight, ps: seq<Proc>, n: nat)
    requires n <= |ps| && NonNegative(c, w, ps)
    ensures 0 <= SumTo(c, w, ps, n)
    ensures forall i :: 0 <= i < n ==> Eval(c, w, ps[i]) <= SumTo(c, w, ps, n)
    ensures forall i, j :: 0 <= i < j < n ==> Eval(c, w, ps[i]) + Eval(c, w, ps[j]) <= SumTo(c, w, ps, n)
  {
    hide Eval;
    if n > 0 {
      SumToNonNegative(c, w, ps, n - 1);
    }
  }

  lemma SumNonNegative(c: Config, w: Weight, ps: seq<Proc>)
    requires NonNegative(c, w, ps)
    ensures 0 <= Sum(c, w, ps)
    ensures forall i :: 0 <= i < |ps| ==> Eval(c, w, ps[i]) <= Sum(c, w, ps)
  {
    SumToNonNegative(c, w, ps, |ps|);
  }

  /** If a non-negative weight sums to at most one, no two processes carry it. */
  lemma AtMostOne(c: Config, w: Weight, ps: seq<Proc>, i: nat, j: nat)
    requires NonNegative(c, w, ps) && Sum(c, w, ps) <= 1 && i < |ps| && j < |ps|
    requires 1 <= Eval(c, w, ps[i]) && 1 <= Eval(c, w, ps[j])
    ensures i == j
  {
    SumToNonNegative(c, w, ps, |ps|);
  }

  lemma {:induction false} SumToZero(c: Config, w: Weight, ps: seq<Proc>, n: nat)
    requires n <= |ps| && forall i :: 0 <= i < n ==> Eval(c, w, ps[i]) == 0
    ensures SumTo(c, w, ps, n) == 0
  {
    hide Eval;
    if n > 0 {
      SumToZero(c, w, ps, n - 1);
    }
  }
}
