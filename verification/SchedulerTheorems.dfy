/**
 Every sequence of scheduler and semaphore operations keeps each environment on
 exactly one queue, named by its status; each semaphore behaves as its history
 of waits and signals says; and nobody ready waits longer than the length of
 the rotation ahead of it.
 */
module SchedulerTheorems {
  import S = SemaphoreSpec
  import RR = RoundRobin
  import opened ReadyQueue
  import opened SchedulerSpec

  // ----- queues and statuses -----

  lemma NamesAppend(q: seq<nat>, st: map<nat, Status>, v: Status, e: nat)
    requires Names(q, st, v) && (e in st ==> st[e] != v)
    ensures Names(q + [e], st[e := v], v)
  {
    assert e !in q;
    var r := q + [e];
    assert forall x: nat :: x in r <==> x in q || x == e;
  }

  lemma Around(q: seq<nat>, k: nat)
    requires k < |q| && RR.NoRepeats(q)
    ensures forall x: nat :: x in q <==> x in q[..k] || x == q[k] || x in q[k + 1..]
    ensures q[k] !in q[..k] && q[k] !in q[k + 1..]
    ensures RR.NoRepeats(q[..k] + q[k + 1..])
  {
    assert q == q[..k] + [q[k]] + q[k + 1..];
  }

  lemma DeleteMembers(q: seq<nat>, e: nat)
    requires RR.NoRepeats(q) && e in q
    ensures RR.NoRepeats(RR.Delete(q, e))
    ensures forall x: nat :: x in RR.Delete(q, e) <==> x in q && x != e
  {
    hide RR.NoRepeats;
    var k := RR.IndexOf(q, e);
    Around(q, k);
  }

  lemma NamesDelete(q: seq<nat>, st: map<nat, Status>, v: Status, e: nat, w: Status)
    requires Names(q, st, v) && e in q && w != v
    ensures Names(RR.Delete(q, e), st[e := w], v)
  {
    DeleteMembers(q, e);
    hide RR.Delete;
  }

  lemma NamesOther(q: seq<nat>, st: map<nat, Status>, v: Status, e: nat, w: Status)
    requires Names(q, st, v) && e !in q && w != v
    ensures Names(q, st[e := w], v)
  {
  }

  lemma NamesRotate(q: seq<nat>, st: map<nat, Status>, v: Status)
    requires Names(q, st, v) && q != []
    ensures Names(RR.Next(q, RR.Schedule), st, v)
  {
    var r := q[1..] + [q[0]];
    assert q == [q[0]] + q[1..];
    assert forall x: nat :: x in r <==> x in q;
  }

  lemma NamesBlockedOther(sems: seq<Semaphore>, st: map<nat, Status>, e: nat, w: Status)
    requires NamesBlocked(sems, st) && w != BLOCKED && (e in st ==> st[e] != BLOCKED)
    ensures NamesBlocked(sems, st[e := w])
  {
  }

  lemma OnAfterSet(sems: seq<Semaphore>, i: nat, sem: Semaphore, j: int, e: nat)
    requires i < |sems|
    ensures On(sems[i := sem], j, e) <==> if j == i then e in sem.sem.queue else On(sems, j, e)
  {
  }

  lemma NamesBlockedPush(sems: seq<Semaphore>, st: map<nat, Status>, i: nat, sem: Semaphore, e: nat)
    requires NamesBlocked(sems, st) && i < |sems| && (e in st ==> st[e] != BLOCKED)
    requires sem.sem.queue == sems[i].sem.queue + [e]
    ensures NamesBlocked(sems[i := sem], st[e := BLOCKED])
  {
    var t := sems[i := sem];
    forall j, x: nat
      ensures On(t, j, x) <==> On(sems, j, x) || (j == i && x == e)
    {
      OnAfterSet(sems, i, sem, j, x);
    }
    assert !On(sems, i, e);
    assert On(t, i, e);
    forall x: nat | x in st && st[x] == BLOCKED
      ensures exists j :: On(t, j, x)
    {
      var j :| On(sems, j, x);
      assert On(t, j, x);
    }
    hide On;
  }

  lemma NamesBlockedPop(sems: seq<Semaphore>, st: map<nat, Status>, i: nat, sem: Semaphore, w: Status)
    requires NamesBlocked(sems, st) && i < |sems| && w != BLOCKED
    requires sems[i].sem.queue != [] && sem.sem.queue == sems[i].sem.queue[1..]
    ensures NamesBlocked(sems[i := sem], st[sems[i].sem.queue[0] := w])
  {
    var t := sems[i := sem];
    var q := sems[i].sem.queue;
    var e := q[0];
    assert On(sems, i, e);
    assert forall x: nat :: x in q[1..] <==> x in q && x != e by {
      assert q == [e] + q[1..];
    }
    forall j, x: nat
      ensures On(t, j, x) <==> On(sems, j, x) && x != e
    {
      OnAfterSet(sems, i, sem, j, x);
      assert On(sems, j, e) ==> j == i;
    }
    forall x: nat | x in st && st[x] == BLOCKED && x != e
      ensures exists j :: On(t, j, x)
    {
      var j :| On(sems, j, x);
      assert On(t, j, x);
    }
    hide On;
  }

  lemma NamesBlockedSame(sems: seq<Semaphore>, st: map<nat, Status>, i: nat, sem: Semaphore)
    requires NamesBlocked(sems, st) && i < |sems| && sem.sem.queue == sems[i].sem.queue
    ensures NamesBlocked(sems[i := sem], st)
  {
    var t := sems[i := sem];
    forall j, x: nat
      ensures On(t, j, x) <==> On(sems, j, x)
    {
      OnAfterSet(sems, i, sem, j, x);
    }
    forall x: nat | x in st && st[x] == BLOCKED
      ensures exists j :: On(t, j, x)
    {
      var j :| On(sems, j, x);
      assert On(t, j, x);
    }
    hide On;
  }

  // ----- one queue per environment, kept by every operation -----

  lemma DispatchKeeps(s: State)
    requires Queues(s) && SemsSound(s.sems)
    ensures Inv(Dispatch(s))
  {
    if s.ready != [] {
      NamesRotate(s.ready, s.status, READY);
      assert Dispatch(s).ready[|s.ready| - 1] == s.ready[0];
    }
  }

  lemma StartKeeps(s: State)
    requires Queues(s) && SemsSound(s.sems) && (s.started ==> Current(s))
    ensures Inv(StartIfStopped(s))
  {
    hide Queues, SemsSound, Current, Dispatch;
    DispatchKeeps(s);
  }

  lemma NewKeeps(s: State, e: nat)
    requires Inv(s) && Enabled(s, New(e))
    ensures Inv(Step(s, New(e)))
  {
    assert e !in s.newQueue + s.ready + s.exited;
    hide Names, NamesBlocked, SemsSound;
    NamesAppend(s.newQueue, s.status, NEW, e);
    NamesOther(s.ready, s.status, READY, e, NEW);
    NamesOther(s.exited, s.status, EXIT, e, NEW);
    NamesBlockedOther(s.sems, s.status, e, NEW);
  }

  lemma Statuses(s: State, e: nat)
    requires Queues(s)
    ensures e in s.newQueue ==> e in s.status && s.status[e] == NEW && e !in s.ready && e !in s.exited
    ensures e in s.ready ==> e in s.status && s.status[e] == READY && e !in s.newQueue && e !in s.exited
    ensures e in s.status && s.status[e] == BLOCKED ==> e !in s.newQueue && e !in s.ready && e !in s.exited
  {
  }

  lemma RunEnvKeeps(s: State, e: nat)
    requires Inv(s)
    ensures Inv(Step(s, RunEnv(e)))
  {
    hide Names, NamesBlocked, SemsSound, Dispatch, RR.Delete, StartIfStopped;
    if e in s.newQueue {
      Statuses(s, e);
      NamesDelete(s.newQueue, s.status, NEW, e, READY);
      NamesAppend(s.ready, s.status, READY, e);
      NamesOther(s.exited, s.status, EXIT, e, READY);
      NamesBlockedOther(s.sems, s.status, e, READY);
      StartKeeps(MoveToReady(s, e));
    }
  }

  lemma NamesJoin(q: seq<nat>, r: seq<nat>, st: map<nat, Status>)
    requires Names(q, st, READY) && Names(r, st, NEW)
    ensures Names(q + r, AllReady(st, r), READY) && Names([], AllReady(st, r), NEW)
  {
    var t := q + r;
    assert forall e: nat :: e in t <==> e in q || e in r;
    forall i, j | 0 <= i < |q| <= j < |t|
      ensures t[i] != t[j]
    {
      assert q[i] in q && r[j - |q|] in r;
    }
  }

  lemma RunAllQueues(s: State)
    requires Queues(s)
    ensures Queues(s.(newQueue := [], ready := s.ready + s.newQueue, status := AllReady(s.status, s.newQueue)))
  {
    var t := AllReady(s.status, s.newQueue);
    NamesJoin(s.ready, s.newQueue, s.status);
    assert forall e: nat :: e in t && t[e] == BLOCKED <==> e in s.status && s.status[e] == BLOCKED;
    hide On;
  }

  lemma RunAllKeeps(s: State)
    requires Inv(s)
    ensures Inv(Step(s, RunAll))
  {
    RunAllQueues(s);
    hide Names, NamesBlocked, SemsSound, Dispatch, StartIfStopped, AllReady;
    StartKeeps(s.(newQueue := [], ready := s.ready + s.newQueue, status := AllReady(s.status, s.newQueue)));
  }

  lemma ExitNewKeeps(s: State, e: nat)
    requires Inv(s) && e in s.newQueue
    ensures Inv(Step(s, Exit(e)))
  {
    hide Names, NamesBlocked, SemsSound, RR.Delete;
    Statuses(s, e);
    NamesDelete(s.newQueue, s.status, NEW, e, EXIT);
    NamesAppend(s.exited, s.status, EXIT, e);
    NamesOther(s.ready, s.status, READY, e, EXIT);
    NamesBlockedOther(s.sems, s.status, e, EXIT);
  }

  lemma LeaveKeeps(s: State, e: nat)
    requires Inv(s) && e in s.ready
    ensures Queues(Leave(s, e)) && SemsSound(Leave(s, e).sems)
    ensures s.cur != S.Some(e) ==> Current(Leave(s, e))
  {
    DeleteMembers(s.ready, e);
    hide Names, NamesBlocked, SemsSound, RR.Delete, RR.NoRepeats;
    Statuses(s, e);
    NamesDelete(s.ready, s.status, READY, e, EXIT);
    NamesAppend(s.exited, s.status, EXIT, e);
    NamesOther(s.newQueue, s.status, NEW, e, EXIT);
    NamesBlockedOther(s.sems, s.status, e, EXIT);
    assert s.cur != S.Some(e) ==> s.cur.value in Leave(s, e).ready;
  }

  lemma ExitKeeps(s: State, e: nat)
    requires Inv(s)
    ensures Inv(Step(s, Exit(e)))
  {
    hide Names, NamesBlocked, SemsSound, RR.Delete, Dispatch, Leave, Queues;
    if e in s.newQueue {
      ExitNewKeeps(s, e);
    } else if e in s.ready {
      LeaveKeeps(s, e);
      DispatchKeeps(Leave(s, e));
    }
  }

  lemma SemsSet(sems: seq<Semaphore>, i: nat, sem: S.Sem)
    requires SemsSound(sems) && i < |sems| && !sems[i].empty && S.Balanced(sem)
    ensures SemsSound(sems[i := sems[i].(sem := sem)])
  {
  }

  lemma WaitKeeps(s: State, i: nat)
    requires Inv(s) && s.cur.Some? && i < |s.sems| && !s.sems[i].empty
    ensures Inv(WaitOn(s, i, s.cur.value))
  {
    var e := s.cur.value;
    var w := S.Wait(s.sems[i].sem, e);
    assert S.Balanced(w);
    SemsSet(s.sems, i, w);
    hide Names, NamesBlocked, SemsSound, RR.Delete, Dispatch;
    var t := SetSem(s, i, w);
    var slot := s.sems[i].(sem := w);
    if S.Passes(s.sems[i].sem) {
      NamesBlockedSame(s.sems, s.status, i, slot);
      DispatchKeeps(t);
    } else {
      Statuses(s, e);
      NamesBlockedPush(s.sems, s.status, i, slot, e);
      NamesDelete(s.ready, s.status, READY, e, BLOCKED);
      NamesOther(s.newQueue, s.status, NEW, e, BLOCKED);
      NamesOther(s.exited, s.status, EXIT, e, BLOCKED);
      DispatchKeeps(Block(t, e));
    }
  }

  lemma SignalKeeps(s: State, i: nat)
    requires Inv(s) && s.cur.Some? && i < |s.sems| && !s.sems[i].empty
    ensures Inv(SignalOn(s, i))
  {
    var w := S.Signal(s.sems[i].sem);
    assert S.Balanced(w);
    SemsSet(s.sems, i, w);
    var slot := s.sems[i].(sem := w);
    match S.Released(s.sems[i].sem)
    case None =>
      assert slot.sem.queue == s.sems[i].sem.queue;
      hide Names, NamesBlocked, SemsSound;
      NamesBlockedSame(s.sems, s.status, i, slot);
    case Some(e) =>
      assert On(s.sems, i, e);
      assert e in s.status && s.status[e] == BLOCKED;
      assert slot.sem.queue == s.sems[i].sem.queue[1..];
      hide Names, NamesBlocked, SemsSound;
      Statuses(s, e);
      NamesBlockedPop(s.sems, s.status, i, slot, READY);
      NamesAppend(s.ready, s.status, READY, e);
      NamesOther(s.newQueue, s.status, NEW, e, READY);
      NamesOther(s.exited, s.status, EXIT, e, READY);
  }

  lemma CreateKeeps(s: State, i: nat, owner: int, name: string, value: nat)
    requires Inv(s) && i < |s.sems| && s.sems[i].empty && Find(s.sems, owner, name) == |s.sems|
    ensures Inv(CreateAt(s, i, owner, name, value))
  {
    var slot := Semaphore(owner, name, S.Sem(value, s.sems[i].sem.queue), false);
    assert SemsSound(s.sems[i := slot]) by {
      assert forall j :: 0 <= j < |s.sems| ==> !Is(s.sems[j], owner, name);
    }
    hide Names, NamesBlocked, SemsSound;
    NamesBlockedSame(s.sems, s.status, i, slot);
  }

  lemma StepInv(s: State, op: Op)
    requires Inv(s) && Enabled(s, op)
    ensures Inv(Step(s, op))
  {
    match op
    case New(e) => NewKeeps(s, e);
    case RunEnv(e) => RunEnvKeeps(s, e);
    case RunAll => RunAllKeeps(s);
    case Exit(e) => ExitKeeps(s, e);
    case Tick => DispatchKeeps(s);
    case Wait(o, n) =>
      hide Inv;
      var i := Find(s.sems, o, n);
      if i < |s.sems| { WaitKeeps(s, i); }
    case Signal(o, n) =>
      hide Inv;
      var i := Find(s.sems, o, n);
      if i < |s.sems| { SignalKeeps(s, i); }
    case Create(o, n, v) =>
      hide Inv;
      if Find(s.sems, o, n) == |s.sems| { CreateKeeps(s, FirstEmpty(s.sems), o, n, v); }
  }

  // ----- runs -----

  ghost predicate Runs(s: State, ops: seq<Op>)
    decreases |ops|, 0
  {
    ops == [] || (Runs(s, ops[..|ops| - 1]) && Enabled(Run(s, ops[..|ops| - 1]), ops[|ops| - 1]))
  }

  ghost function Run(s: State, ops: seq<Op>): State
    requires Runs(s, ops)
    decreases |ops|, 1
  {
    if ops == [] then s else Step(Run(s, ops[..|ops| - 1]), ops[|ops| - 1])
  }

  /** The state sched_init and create_semaphores_array leave. */
  function Boot(maxSemaphores: nat): State {
    State([], [], [], map[], S.None, false, seq(maxSemaphores, _ => Semaphore(0, "", S.Sem(0, []), true)))
  }

  lemma BootInv(maxSemaphores: nat)
    ensures Inv(Boot(maxSemaphores))
  {
  }

  lemma {:induction false} RunInv(s: State, ops: seq<Op>)
    requires Inv(s) && Runs(s, ops)
    ensures Inv(Run(s, ops))
  {
    if ops != [] {
      RunInv(s, ops[..|ops| - 1]);
      StepInv(Run(s, ops[..|ops| - 1]), ops[|ops| - 1]);
    }
  }

  // ----- one queue per environment -----

  /** How often e is on the first k semaphore queues. */
  function HoldsBlocked(sems: seq<Semaphore>, k: nat, e: nat): nat
    requires k <= |sems|
  {
    if k == 0 then 0 else HoldsBlocked(sems, k - 1, e) + multiset(sems[k - 1].sem.queue)[e]
  }

  lemma {:induction false} CountOnce(q: seq<nat>, e: nat)
    requires RR.NoRepeats(q)
    ensures multiset(q)[e] == if e in q then 1 else 0
  {
    if q != [] {
      assert q == q[..|q| - 1] + [q[|q| - 1]];
      CountOnce(q[..|q| - 1], e);
    }
  }

  lemma {:induction false} CountBlocked(sems: seq<Semaphore>, status: map<nat, Status>, k: nat, e: nat)
    requires NamesBlocked(sems, status) && k <= |sems|
    ensures HoldsBlocked(sems, k, e) <= 1
    ensures HoldsBlocked(sems, k, e) == 1 <==> exists i :: i < k && On(sems, i, e)
  {
    if k > 0 {
      CountBlocked(sems, status, k - 1, e);
      CountOnce(sems[k - 1].sem.queue, e);
      assert On(sems, k - 1, e) <==> e in sems[k - 1].sem.queue;
    }
  }

  /**
   After any run from boot every environment created so far is on exactly one
   queue, exactly once, the one its status names; nobody else is on any.
   */
  lemma OneQueue(maxSemaphores: nat, ops: seq<Op>, e: nat)
    requires Runs(Boot(maxSemaphores), ops)
    ensures var s := Run(Boot(maxSemaphores), ops);
      && (e in s.status <==> New(e) in ops)
      && multiset(s.newQueue)[e] == (if e in s.status && s.status[e] == NEW then 1 else 0)
      && multiset(s.ready)[e] == (if e in s.status && s.status[e] == READY then 1 else 0)
      && multiset(s.exited)[e] == (if e in s.status && s.status[e] == EXIT then 1 else 0)
      && HoldsBlocked(s.sems, |s.sems|, e) == (if e in s.status && s.status[e] == BLOCKED then 1 else 0)
      && (e in s.status ==> s.status[e] in {NEW, READY, EXIT, BLOCKED})
  {
    hide SemsSound, Current;
    var b := Boot(maxSemaphores);
    var s := Run(b, ops);
    BootInv(maxSemaphores);
    RunInv(b, ops);
    Created(b, ops, e);
    hide Runs, Run, Boot;
    CountOnce(s.newQueue, e);
    CountOnce(s.ready, e);
    CountOnce(s.exited, e);
    CountBlocked(s.sems, s.status, |s.sems|, e);
  }

  /** An operation adds nobody to the created environments but the one it creates, and loses nobody. */
  lemma StepCreates(s: State, op: Op, e: nat)
    requires Inv(s) && Enabled(s, op)
    ensures e in Step(s, op).status <==> e in s.status || op == New(e)
  {
    hide RR.Delete, S.Balanced, SemsSound;
    if op.Signal? {
      var i := Find(s.sems, op.owner, op.name);
      if i < |s.sems| && S.Released(s.sems[i].sem).Some? {
        assert On(s.sems, i, s.sems[i].sem.queue[0]);
      }
    }
  }

  lemma {:induction false} Created(s: State, ops: seq<Op>, e: nat)
    requires Inv(s) && Runs(s, ops)
    ensures e in Run(s, ops).status <==> e in s.status || New(e) in ops
  {
    if ops != [] {
      var before := ops[..|ops| - 1];
      assert ops == before + [ops[|ops| - 1]];
      RunInv(s, before);
      Created(s, before, e);
      hide Inv, Step, Enabled;
      StepCreates(Run(s, before), ops[|ops| - 1], e);
    }
  }

  // ----- the semaphores refine the abstract semaphore -----

  /** What an operation does to the semaphore in slot i: it is about it when owner and name are the slot's. */
  function Project(s: State, op: Op, i: nat): seq<S.Event>
    requires Enabled(s, op)
  {
    match op
    case Wait(o, n) =>
      if i < |s.sems| && !s.sems[i].empty && s.sems[i].owner == o && s.sems[i].name == n then [S.WaitBy(s.cur.value)] else []
    case Signal(o, n) =>
      if i < |s.sems| && !s.sems[i].empty && s.sems[i].owner == o && s.sems[i].name == n then [S.SignalBy(s.cur.value)] else []
    case _ => []
  }

  ghost function Projected(s: State, ops: seq<Op>, i: nat): seq<S.Event>
    requires Runs(s, ops)
  {
    if ops == [] then []
    else
      var before := ops[..|ops| - 1];
      Projected(s, before, i) + Project(Run(s, before), ops[|ops| - 1], i)
  }

  lemma StepProjects(s: State, op: Op, i: nat)
    requires Inv(s) && Enabled(s, op) && i < |s.sems| && !s.sems[i].empty
    ensures |Step(s, op).sems| == |s.sems|
    ensures Step(s, op).sems[i] == s.sems[i].(sem := S.History(s.sems[i].sem, Project(s, op, i)))
  {
    hide RR.Delete, RR.Next, S.Wait, S.Signal;
    var p := Project(s, op, i);
    assert p != [] ==> p[..|p| - 1] == [];
  }

  lemma HistoryAppend(init: S.Sem, a: seq<S.Event>, b: seq<S.Event>)
    requires |b| <= 1
    ensures S.History(init, a + b) == S.History(S.History(init, a), b)
  {
    if b == [] {
      assert a + b == a;
    } else {
      assert (a + b)[..|a + b| - 1] == a && b[..0] == [];
    }
  }

  /** Over any run a semaphore's value and queue are those of its own history of waits and signals. */
  lemma {:induction false} SemaphoreRefines(s: State, ops: seq<Op>, i: nat)
    requires Inv(s) && Runs(s, ops) && i < |s.sems| && !s.sems[i].empty
    ensures |Run(s, ops).sems| == |s.sems|
    ensures Run(s, ops).sems[i] == s.sems[i].(sem := S.History(s.sems[i].sem, Projected(s, ops, i)))
  {
    if ops != [] {
      var before := ops[..|ops| - 1];
      RunInv(s, before);
      SemaphoreRefines(s, before, i);
      StepProjects(Run(s, before), ops[|ops| - 1], i);
      HistoryAppend(s.sems[i].sem, Projected(s, before, i), Project(Run(s, before), ops[|ops| - 1], i));
    }
  }

  /** The semaphore law of the kernel, from the moment a semaphore is created. */
  lemma KernelSemaphoreLaw(s: State, owner: int, name: string, value: nat, ops: seq<Op>)
    requires Inv(s) && Enabled(s, Create(owner, name, value)) && Find(s.sems, owner, name) == |s.sems|
    requires Runs(Step(s, Create(owner, name, value)), ops)
    ensures var t := Step(s, Create(owner, name, value));
      var i := FirstEmpty(s.sems);
      var events := Projected(t, ops, i);
      && |Run(t, ops).sems| == |s.sems| > i
      && var u := Run(t, ops).sems[i];
      && u.owner == owner && u.name == name && !u.empty
      && |u.sem.queue| == (if u.sem.value < 0 then -u.sem.value else 0)
      && |S.Departures(S.Sem(value, []), events)| + (if u.sem.value > 0 then u.sem.value else 0)
         == value + S.Signals(events)
      && S.Departures(S.Sem(value, []), events) + u.sem.queue == S.Arrivals(events)
  {
    var t := Step(s, Create(owner, name, value));
    var i := FirstEmpty(s.sems);
    StepInv(s, Create(owner, name, value));
    assert t.sems[i] == Semaphore(owner, name, S.Sem(value, []), false);
    SemaphoreRefines(t, ops, i);
    S.SemaphoreLaw(value, Projected(t, ops, i));
  }

  // ----- where the running environment is -----

  ghost predicate CurrentIsLast(s: State) {
    s.cur.Some? ==> s.ready != [] && s.ready[|s.ready| - 1] == s.cur.value
  }

  /** The operations that make somebody ready while another environment goes on running. */
  predicate Wakes(s: State, op: Op) {
    match op
    case RunEnv(e) => s.started && e in s.newQueue
    case RunAll => s.started && s.newQueue != []
    case Signal(o, n) => var i := Find(s.sems, o, n); i < |s.sems| && S.Released(s.sems[i].sem).Some?
    case _ => false
  }

  lemma DispatchIsLast(s: State)
    ensures CurrentIsLast(Dispatch(s))
  {
  }

  lemma DeleteKeepsLast(q: seq<nat>, e: nat)
    requires RR.NoRepeats(q) && e in q && q[|q| - 1] != e
    ensures RR.Delete(q, e) != [] && RR.Delete(q, e)[|q| - 2] == q[|q| - 1] && |RR.Delete(q, e)| == |q| - 1
  {
  }

  lemma BlockedIs(s: State, i: nat, e: nat)
    requires NamesBlocked(s.sems, s.status) && On(s.sems, i, e)
    ensures e in s.status && s.status[e] == BLOCKED
  {
  }

  /**
   A dispatched environment is the last of the rotation, and stays so exactly
   until another environment is made ready.
   */
  lemma CurrentIsLastIff(s: State, op: Op)
    requires Inv(s) && CurrentIsLast(s) && Enabled(s, op)
    ensures CurrentIsLast(Step(s, op)) <==> !Wakes(s, op)
  {
    hide RR.Delete, SemsSound, Dispatch, NamesBlocked;
    match op
    case New(e) =>
    case RunEnv(e) => DispatchIsLast(MoveToReady(s, e));
    case RunAll =>
      DispatchIsLast(s.(newQueue := [], ready := s.ready + s.newQueue, status := AllReady(s.status, s.newQueue)));
      assert s.newQueue != [] ==> s.newQueue[|s.newQueue| - 1] in s.newQueue;
    case Exit(e) =>
      DispatchIsLast(Leave(s, e));
      if e in s.ready && s.cur != S.Some(e) { DeleteKeepsLast(s.ready, e); }
    case Tick => DispatchIsLast(s);
    case Wait(o, n) =>
      var i := Find(s.sems, o, n);
      if i < |s.sems| {
        var t := SetSem(s, i, S.Wait(s.sems[i].sem, s.cur.value));
        DispatchIsLast(if S.Passes(s.sems[i].sem) then t else Block(t, s.cur.value));
      }
    case Signal(o, n) =>
      var i := Find(s.sems, o, n);
      if i < |s.sems| && S.Released(s.sems[i].sem).Some? {
        assert On(s.sems, i, s.sems[i].sem.queue[0]) && s.cur.value in s.ready;
        BlockedIs(s, i, s.sems[i].sem.queue[0]);
      }
    case Create(o, n, v) =>
  }

  lemma SchedulingIsLast(s: State, op: Op)
    requires Inv(s) && Enabled(s, op) && Schedules(s, op)
    ensures CurrentIsLast(Step(s, op))
  {
    hide RR.Delete, Inv, Dispatch, CurrentIsLast;
    match op
    case RunEnv(e) => DispatchIsLast(MoveToReady(s, e));
    case RunAll =>
      DispatchIsLast(s.(newQueue := [], ready := s.ready + s.newQueue, status := AllReady(s.status, s.newQueue)));
    case Exit(e) => DispatchIsLast(Leave(s, e));
    case Tick => DispatchIsLast(s);
    case Wait(o, n) =>
      var i := Find(s.sems, o, n);
      var t := SetSem(s, i, S.Wait(s.sems[i].sem, s.cur.value));
      DispatchIsLast(if S.Passes(s.sems[i].sem) then t else Block(t, s.cur.value));
    case _ =>
  }

  /** Somebody was made ready since the scheduler last ran. */
  ghost predicate WokenSince(s: State, ops: seq<Op>)
    requires Runs(s, ops)
  {
    ops != [] &&
    var t, op := Run(s, ops[..|ops| - 1]), ops[|ops| - 1];
    !Schedules(t, op) && (WokenSince(s, ops[..|ops| - 1]) || Wakes(t, op))
  }

  /** After any run, unless somebody was made ready since the scheduler last ran, the running environment is last. */
  lemma {:induction false} RunCurrentIsLast(s: State, ops: seq<Op>)
    requires Inv(s) && CurrentIsLast(s) && Runs(s, ops) && !WokenSince(s, ops)
    ensures CurrentIsLast(Run(s, ops))
  {
    hide Inv, CurrentIsLast, Step, Enabled, Schedules, Wakes;
    if ops != [] {
      var before, op := ops[..|ops| - 1], ops[|ops| - 1];
      var t := Run(s, before);
      RunInv(s, before);
      if Schedules(t, op) {
        SchedulingIsLast(t, op);
      } else {
        RunCurrentIsLast(s, before);
        CurrentIsLastIff(t, op);
      }
    }
  }

  /** Four operations from boot after which the running environment is not last: another was made ready behind it. */
  lemma WakingMovesCurrent(maxSemaphores: nat)
    ensures var ops := [New(1), RunAll, New(2), RunEnv(2)];
      && Runs(Boot(maxSemaphores), ops)
      && var s := Run(Boot(maxSemaphores), ops); s.cur == S.Some(1) && s.ready == [1, 2] && !CurrentIsLast(s)
  {
    var b := Boot(maxSemaphores);
    var ops := [New(1), RunAll, New(2), RunEnv(2)];
    assert ops[..3] == [New(1), RunAll, New(2)] && ops[..3][..2] == [New(1), RunAll] && ops[..3][..2][..1] == [New(1)];
    assert [New(1)][..0] == [];
    assert Runs(b, []) && Run(b, []) == b;
    var a := Step(b, New(1));
    assert Runs(b, [New(1)]) && Run(b, [New(1)]) == a && a.newQueue == [1] && a.ready == [];
    var c := Step(a, RunAll);
    assert a.ready + a.newQueue == [1] && [1][1..] + [1] == [1];
    assert Runs(b, [New(1), RunAll]) && Run(b, [New(1), RunAll]) == c && c.ready == [1] && c.cur == S.Some(1) && c.newQueue == [];
    var d := Step(c, New(2));
    assert Runs(b, ops[..3]) && Run(b, ops[..3]) == d && d.newQueue == [2];
    assert Run(b, ops) == Step(d, RunEnv(2));
  }

  // ----- bounded waiting -----

  /** The operations that call fos_scheduler. */
  predicate Schedules(s: State, op: Op) {
    match op
    case Tick => true
    case Wait(o, n) => Find(s.sems, o, n) < |s.sems|
    case RunEnv(e) => !s.started && e in s.newQueue
    case RunAll => !s.started
    case Exit(e) => e !in s.newQueue && e in s.ready && s.cur == S.Some(e)
    case _ => false
  }

  ghost function Schedulings(s: State, ops: seq<Op>): nat
    requires Runs(s, ops)
  {
    if ops == [] then 0
    else
      var before := ops[..|ops| - 1];
      Schedulings(s, before) + if Schedules(Run(s, before), ops[|ops| - 1]) then 1 else 0
  }

  /** e is among the first p + 1 of the rotation. */
  ghost predicate Within(ready: seq<nat>, e: nat, p: int) {
    exists q :: 0 <= q < |ready| && q <= p && ready[q] == e
  }

  lemma WithinAt(ready: seq<nat>, p: nat)
    requires p < |ready|
    ensures Within(ready, ready[p], p)
  {
  }

  lemma NotWithin(ready: seq<nat>, e: nat, p: int)
    requires p < 0
    ensures !Within(ready, e, p)
  {
  }

  lemma WithinDelete(ready: seq<nat>, x: nat, e: nat, p: int)
    requires RR.NoRepeats(ready) && Within(ready, e, p) && x != e
    ensures Within(RR.Delete(ready, x), e, p)
  {
    var q: nat :| q < |ready| && q <= p && ready[q] == e;
    RR.PositionAfter(ready, RR.Remove(x), q);
    var d := RR.Delete(ready, x);
    assert d[q - if x in ready[..q] then 1 else 0] == e;
  }

  lemma WithinDispatch(s: State, e: nat, p: int)
    requires Within(s.ready, e, p)
    ensures Dispatch(s).cur == S.Some(e) || Within(Dispatch(s).ready, e, p - 1)
  {
    var q: nat :| q < |s.ready| && q <= p && s.ready[q] == e;
    if q > 0 {
      assert Dispatch(s).ready[q - 1] == e;
    }
  }

  lemma WithinMore(ready: seq<nat>, more: seq<nat>, e: nat, p: int)
    requires Within(ready, e, p)
    ensures Within(ready + more, e, p)
  {
    var q: nat :| q < |ready| && q <= p && ready[q] == e;
    assert (ready + more)[q] == e;
  }

  /** The running environment waits on a semaphore that does not let it through. */
  predicate BlocksItself(s: State, op: Op) {
    op.Wait? && var i := Find(s.sems, op.owner, op.name); i < |s.sems| && !S.Passes(s.sems[i].sem)
  }

  /** An operation that schedules runs e or brings it one place nearer; the others leave the running one and never set e back. */
  lemma StepWithin(s: State, op: Op, e: nat, p: int)
    requires Inv(s) && Enabled(s, op) && Within(s.ready, e, p) && op != Exit(e)
    requires s.cur == S.Some(e) ==> !BlocksItself(s, op)
    ensures var t := Step(s, op);
      if Schedules(s, op) then t.cur == S.Some(e) || Within(t.ready, e, p - 1)
      else t.cur == s.cur && Within(t.ready, e, p)
  {
    assert RR.NoRepeats(s.ready) && s.started;
    hide Names, NamesBlocked, SemsSound, RR.Delete, Dispatch, Within, Find, RR.NoRepeats;
    match op
    case New(x) =>
    case RunEnv(x) => WithinMore(s.ready, [x], e, p);
    case RunAll => WithinMore(s.ready, s.newQueue, e, p);
    case Exit(x) =>
      WithinDelete(s.ready, x, e, p);
      WithinDispatch(Leave(s, x), e, p);
      assert x !in s.ready ==> !Schedules(s, op);
    case Tick => WithinDispatch(s, e, p);
    case Wait(o, n) =>
      var i := Find(s.sems, o, n);
      if i < |s.sems| {
        var x := s.cur.value;
        var t := SetSem(s, i, S.Wait(s.sems[i].sem, x));
        if S.Passes(s.sems[i].sem) {
          WithinDispatch(t, e, p);
        } else {
          WithinDelete(s.ready, x, e, p);
          WithinDispatch(Block(t, x), e, p);
        }
      }
    case Signal(o, n) =>
      var i := Find(s.sems, o, n);
      if i < |s.sems| && S.Released(s.sems[i].sem).Some? {
        WithinMore(s.ready, [S.Released(s.sems[i].sem).value], e, p);
      }
    case Create(o, n, v) =>
  }

  /** One of the operations schedules and picks e. */
  ghost predicate Ran(s: State, ops: seq<Op>, e: nat)
    requires Runs(s, ops)
  {
    ops != [] &&
    var before := ops[..|ops| - 1];
    Ran(s, before, e) || (Schedules(Run(s, before), ops[|ops| - 1]) && Run(s, ops).cur == S.Some(e))
  }

  /** The environment running at the start blocks itself before the scheduler has picked anybody. */
  ghost predicate BlocksFirst(s: State, ops: seq<Op>)
    requires Runs(s, ops)
  {
    ops != [] &&
    var before := ops[..|ops| - 1];
    BlocksFirst(s, before) || (Schedulings(s, before) == 0 && BlocksItself(Run(s, before), ops[|ops| - 1]))
  }

  /** Until e is picked, each scheduling brings it nearer, and it is not the running one unless it was at the start. */
  lemma {:induction false} Approaches(s: State, ops: seq<Op>, e: nat, p: nat)
    requires Inv(s) && Runs(s, ops) && Within(s.ready, e, p) && Exit(e) !in ops
    requires s.cur == S.Some(e) ==> !BlocksFirst(s, ops)
    ensures Ran(s, ops, e) ||
            (&& Within(Run(s, ops).ready, e, p - Schedulings(s, ops))
             && (Run(s, ops).cur == S.Some(e) ==> s.cur == S.Some(e) && Schedulings(s, ops) == 0))
  {
    hide Inv, Within, Step, Enabled, Schedules, BlocksItself;
    if ops != [] {
      var before, op := ops[..|ops| - 1], ops[|ops| - 1];
      assert op in ops && (forall x :: x in before ==> x in ops);
      RunInv(s, before);
      Approaches(s, before, e, p);
      if !Ran(s, before, e) {
        StepWithin(Run(s, before), op, e, p - Schedulings(s, before));
      }
    }
  }

  /**
   Bounded waiting in the kernel: a ready environment at position p of the
   rotation is picked by one of the next p + 1 calls of fos_scheduler, whatever
   others are created, started, blocked, released or ended meanwhile.  It must not
   exit and, should it be the running one, not block itself before the first of
   these calls is over.
   */
  lemma KernelBoundedWaiting(s: State, ops: seq<Op>, p: nat)
    requires Inv(s) && Runs(s, ops) && p < |s.ready|
    requires s.cur == S.Some(s.ready[p]) ==> !BlocksFirst(s, ops)
    requires Exit(s.ready[p]) !in ops && Schedulings(s, ops) > p
    ensures Ran(s, ops, s.ready[p])
  {
    hide *;
    WithinAt(s.ready, p);
    Approaches(s, ops, s.ready[p], p);
    NotWithin(Run(s, ops).ready, s.ready[p], p - Schedulings(s, ops));
  }
}
