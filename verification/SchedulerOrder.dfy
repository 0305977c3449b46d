/**
 Who is meant and in which order: a wait or signal is about the one semaphore
 with that owner and name, and the NEW and EXIT queues are in the order of
 creation and of leaving, so that sched_run_all starts environments in the order
 in which they were created.
 */
module SchedulerOrder {
  import S = SemaphoreSpec
  import RR = RoundRobin
  import opened ReadyQueue
  import opened SchedulerSpec
  import opened SchedulerTheorems

  // ----- which semaphore -----

  /** At most one semaphore has an owner and a name. */
  lemma OneSemaphore(s: State, i: nat, j: nat)
    requires Inv(s) && i < |s.sems| && j < |s.sems| && !s.sems[i].empty && !s.sems[j].empty
    requires s.sems[i].owner == s.sems[j].owner && s.sems[i].name == s.sems[j].name
    ensures i == j
  {
    hide Queues, Current;
  }

  lemma FindIs(s: State, i: nat)
    requires Inv(s) && i < |s.sems| && !s.sems[i].empty
    ensures Find(s.sems, s.sems[i].owner, s.sems[i].name) == i
  {
    hide Queues, Current, S.Balanced;
  }

  /** Only slot i differs, and there only the count and the queue. */
  predicate OnlySemaphore(s: State, t: State, i: nat)
    requires i < |s.sems|
  {
    && |t.sems| == |s.sems|
    && (forall j :: 0 <= j < |s.sems| && j != i ==> t.sems[j] == s.sems[j])
    && t.sems[i].owner == s.sems[i].owner && t.sems[i].name == s.sems[i].name && t.sems[i].empty == s.sems[i].empty
  }

  /** waitSemaphore changes the semaphore of that owner and name and no other, and does nothing when there is none. */
  lemma WaitIsAbout(s: State, owner: int, name: string, i: nat)
    requires Inv(s) && Enabled(s, Wait(owner, name))
    ensures i < |s.sems| && !s.sems[i].empty && s.sems[i].owner == owner && s.sems[i].name == name ==>
              var t := Step(s, Wait(owner, name));
              OnlySemaphore(s, t, i) && t.sems[i].sem == S.Wait(s.sems[i].sem, s.cur.value)
    ensures (forall j :: 0 <= j < |s.sems| ==> s.sems[j].empty || s.sems[j].owner != owner || s.sems[j].name != name) ==>
              Step(s, Wait(owner, name)) == s
  {
    if i < |s.sems| && !s.sems[i].empty && s.sems[i].owner == owner && s.sems[i].name == name {
      FindIs(s, i);
    }
    hide Inv, S.Wait, RR.Delete, RR.Next;
  }

  /** signalSemaphore, likewise. */
  lemma SignalIsAbout(s: State, owner: int, name: string, i: nat)
    requires Inv(s) && Enabled(s, Signal(owner, name))
    ensures i < |s.sems| && !s.sems[i].empty && s.sems[i].owner == owner && s.sems[i].name == name ==>
              var t := Step(s, Signal(owner, name));
              OnlySemaphore(s, t, i) && t.sems[i].sem == S.Signal(s.sems[i].sem)
    ensures (forall j :: 0 <= j < |s.sems| ==> s.sems[j].empty || s.sems[j].owner != owner || s.sems[j].name != name) ==>
              Step(s, Signal(owner, name)) == s
  {
    if i < |s.sems| && !s.sems[i].empty && s.sems[i].owner == owner && s.sems[i].name == name {
      FindIs(s, i);
    }
    hide Inv, S.Signal, RR.Delete, RR.Next;
  }

  /**
   A wait that goes through still gives up the processor: the first of the rotation
   runs and goes to its end. One that does not blocks the caller, and somebody else
   runs, nobody when the caller was alone.
   */
  lemma WaitYields(s: State, owner: int, name: string, i: nat)
    requires Inv(s) && Enabled(s, Wait(owner, name))
    requires i < |s.sems| && !s.sems[i].empty && s.sems[i].owner == owner && s.sems[i].name == name
    ensures var t, me := Step(s, Wait(owner, name)), s.cur.value;
      if 0 < s.sems[i].sem.value then
        |s.ready| > 0 && t.cur == S.Some(s.ready[0]) && t.ready == s.ready[1..] + [s.ready[0]] && t.status == s.status
      else
        && t.status == s.status[me := BLOCKED] && t.cur != s.cur && me !in t.ready
        && |t.ready| == |s.ready| - 1 && (t.cur == S.None <==> s.ready == [me])
  {
    FindIs(s, i);
    assert s.cur.value in s.ready && RR.NoRepeats(s.ready);
    hide Inv, Find, RR.Delete, Dispatch, RR.NoRepeats;
    if 0 < s.sems[i].sem.value {
      Dispatched(SetSem(s, i, S.Wait(s.sems[i].sem, s.cur.value)));
    } else {
      WithoutOne(s.ready, s.cur.value);
      Dispatched(Block(SetSem(s, i, S.Wait(s.sems[i].sem, s.cur.value)), s.cur.value));
    }
  }

  lemma Dispatched(s: State)
    ensures var t, q := Dispatch(s), s.ready;
      && t.status == s.status
      && if q == [] then t.cur == S.None && t.ready == [] else t.cur == S.Some(q[0]) && t.ready == q[1..] + [q[0]]
  {
  }

  lemma WithoutOne(q: seq<nat>, e: nat)
    requires e in q && RR.NoRepeats(q)
    ensures var d := RR.Delete(q, e); |d| == |q| - 1 && e !in d && (d == [] <==> q == [e])
  {
  }

  /** A signal leaves the running environment running; if somebody waits, the oldest goes to the end of the rotation. */
  lemma SignalWakes(s: State, owner: int, name: string, i: nat)
    requires Inv(s) && Enabled(s, Signal(owner, name))
    requires i < |s.sems| && !s.sems[i].empty && s.sems[i].owner == owner && s.sems[i].name == name
    ensures var t, q := Step(s, Signal(owner, name)), s.sems[i].sem.queue;
      && t.cur == s.cur && t.newQueue == s.newQueue
      && t.ready == s.ready + q[..if q == [] then 0 else 1]
      && t.status == if q == [] then s.status else s.status[q[0] := READY]
  {
    FindIs(s, i);
    assert S.Balanced(s.sems[i].sem);
    hide Inv, SemsSound, NamesBlocked, RR.Delete;
  }

  /**
   createSemaphore is refused exactly when a semaphore has that owner and name;
   otherwise the lowest empty slot becomes one, with nobody queued, and nothing
   else changes.
   */
  lemma CreateIsAbout(s: State, owner: int, name: string, value: int)
    requires Inv(s) && Enabled(s, Create(owner, name, value))
    ensures var t := Step(s, Create(owner, name, value));
      if exists j :: 0 <= j < |s.sems| && !s.sems[j].empty && s.sems[j].owner == owner && s.sems[j].name == name then t == s
      else exists i: nat :: i < |s.sems| && s.sems[i].empty && (forall j :: 0 <= j < i ==> !s.sems[j].empty)
                            && t == s.(sems := s.sems[i := Semaphore(owner, name, S.Sem(value, []), false)])
  {
    if j: nat :| j < |s.sems| && !s.sems[j].empty && s.sems[j].owner == owner && s.sems[j].name == name {
      FindIs(s, j);
    } else {
      var i := FirstEmpty(s.sems);
      assert Find(s.sems, owner, name) == |s.sems|;
      assert s.sems[i].sem.queue == [];
    }
    hide Queues, Current;
  }

  // ----- the NEW queue -----

  /** The environments created by a run, in order. */
  function Births(ops: seq<Op>): seq<nat> {
    if ops == [] then []
    else
      var rest := Births(ops[..|ops| - 1]);
      match ops[|ops| - 1]
      case New(e) => rest + [e]
      case _ => rest
  }

  /** Those of q that are still NEW, in the order of q. */
  function StillNew(q: seq<nat>, status: map<nat, Status>): (r: seq<nat>)
    ensures forall e: nat :: e in r <==> e in q && e in status && status[e] == NEW
  {
    if q == [] then []
    else
      var e := q[|q| - 1];
      StillNew(q[..|q| - 1], status) + if e in status && status[e] == NEW then [e] else []
  }

  lemma {:induction false} BirthsAre(ops: seq<Op>, e: nat)
    ensures e in Births(ops) <==> New(e) in ops
  {
    if ops != [] {
      BirthsAre(ops[..|ops| - 1], e);
      assert ops == ops[..|ops| - 1] + [ops[|ops| - 1]];
    }
  }

  lemma {:induction false} SameNew(q: seq<nat>, st: map<nat, Status>, us: map<nat, Status>)
    requires forall e: nat :: e in q ==> ((e in st && st[e] == NEW) <==> (e in us && us[e] == NEW))
    ensures StillNew(q, st) == StillNew(q, us)
  {
    if q != [] {
      SameNew(q[..|q| - 1], st, us);
      assert q[|q| - 1] in q;
    }
  }

  lemma IndexIs(q: seq<nat>, e: nat, k: nat)
    requires RR.NoRepeats(q) && k < |q| && q[k] == e
    ensures e in q && RR.IndexOf(q, e) == k
  {
  }

  lemma DeleteLast(p: seq<nat>, x: nat, e: nat)
    requires RR.NoRepeats(p + [x])
    ensures RR.Delete(p + [x], e) == if x == e then p else RR.Delete(p, e) + [x]
  {
    var q := p + [x];
    assert RR.NoRepeats(p) by {
      assert forall i :: 0 <= i < |p| ==> q[i] == p[i];
    }
    if x == e {
      assert q[|p|] == e;
      IndexIs(q, e, |p|);
      hide RR.NoRepeats, RR.IndexOf;
      assert q[..|p|] + q[|p| + 1..] == p;
    } else if e in p {
      var k := RR.IndexOf(p, e);
      assert q[k] == e;
      IndexIs(q, e, k);
      hide RR.NoRepeats, RR.IndexOf;
      assert q[..k] == p[..k] && q[k + 1..] == p[k + 1..] + [x];
      assert q[..k] + q[k + 1..] == p[..k] + p[k + 1..] + [x];
    } else {
      assert e !in q;
    }
  }

  lemma StillNewNext(p: seq<nat>, x: nat, st: map<nat, Status>)
    ensures StillNew([], st) == [] && StillNew(p + [x], st) == StillNew(p, st) + if x in st && st[x] == NEW then [x] else []
  {
    assert (p + [x])[..|p|] == p;
  }

  lemma NotDeleted(q: seq<nat>, e: nat)
    requires e !in q
    ensures RR.Delete(q, e) == q
  {
  }

  lemma PrefixOnce(p: seq<nat>, x: nat)
    requires RR.NoRepeats(p + [x])
    ensures RR.NoRepeats(p) && x !in p
  {
    assert forall i :: 0 <= i < |p| ==> (p + [x])[i] == p[i];
    assert (p + [x])[|p|] == x;
  }

  /** When one environment is NEW no longer it leaves the rest in order. */
  lemma {:induction false} OneLessNew(q: seq<nat>, st: map<nat, Status>, us: map<nat, Status>, e: nat)
    requires RR.NoRepeats(StillNew(q, st)) && !(e in us && us[e] == NEW)
    requires forall x: nat :: x != e ==> ((x in st && st[x] == NEW) <==> (x in us && us[x] == NEW))
    ensures StillNew(q, us) == RR.Delete(StillNew(q, st), e)
  {
    hide RR.NoRepeats, RR.Delete, StillNew;
    if q == [] {
      StillNewNext([], 0, st);
      StillNewNext([], 0, us);
      NotDeleted([], e);
    } else {
      var p, x := q[..|q| - 1], q[|q| - 1];
      assert q == p + [x];
      StillNewNext(p, x, st);
      StillNewNext(p, x, us);
      var a := StillNew(p, st);
      if x in st && st[x] == NEW {
        PrefixOnce(a, x);
        OneLessNew(p, st, us, e);
        DeleteLast(a, x, e);
        if x == e {
          NotDeleted(a, e);
        }
      } else {
        assert a + [] == a;
        OneLessNew(p, st, us, e);
        assert StillNew(p, us) + [] == StillNew(p, us);
      }
    }
  }

  /** What an operation does to the NEW queue. */
  lemma StepNewQueue(s: State, op: Op)
    requires Inv(s) && Enabled(s, op)
    ensures var q := Step(s, op).newQueue;
      match op {
        case New(e) => q == s.newQueue + [e]
        case RunEnv(e) => q == RR.Delete(s.newQueue, e)
        case Exit(e) => q == RR.Delete(s.newQueue, e)
        case RunAll => q == []
        case _ => q == s.newQueue
      }
  {
    hide Inv, RR.Delete, RR.Next, S.Wait, S.Signal;
    if (op.RunEnv? || op.Exit?) && op.e !in s.newQueue {
      NotDeleted(s.newQueue, op.e);
    }
  }

  lemma NewAre(s: State)
    requires Inv(s)
    ensures RR.NoRepeats(s.newQueue) && forall e: nat :: e in s.newQueue <==> e in s.status && s.status[e] == NEW
  {
    hide Current, NamesBlocked, SemsSound;
  }

  lemma OneMore(q: seq<nat>, born: seq<nat>, st: map<nat, Status>, us: map<nat, Status>, e: nat)
    requires q == StillNew(born, st) && e !in born
    requires forall x: nat :: x in q <==> x in st && st[x] == NEW
    requires forall x: nat :: x in q + [e] <==> x in us && us[x] == NEW
    ensures q + [e] == StillNew(born + [e], us)
  {
    assert e in q + [e];
    StillNewNext(born, e, us);
    hide StillNew;
    SameNew(born, st, us);
  }

  lemma {:induction false} NoneNew(born: seq<nat>, us: map<nat, Status>)
    requires forall x: nat :: x in us ==> us[x] != NEW
    ensures StillNew(born, us) == []
  {
    if born != [] {
      NoneNew(born[..|born| - 1], us);
    }
  }

  /** Births and statuses after one more operation. */
  lemma StepInOrder(s: State, op: Op, born: seq<nat>)
    requires Inv(s) && Enabled(s, op) && s.newQueue == StillNew(born, s.status)
    requires op.New? ==> op.e !in born
    ensures Step(s, op).newQueue == StillNew(if op.New? then born + [op.e] else born, Step(s, op).status)
  {
    hide *;
    var t := Step(s, op);
    StepInv(s, op);
    StepNewQueue(s, op);
    NewAre(s);
    NewAre(t);
    match op
    case New(e) => OneMore(s.newQueue, born, s.status, t.status, e);
    case RunEnv(e) => OneLess(s.newQueue, born, s.status, t.status, e);
    case Exit(e) => OneLess(s.newQueue, born, s.status, t.status, e);
    case RunAll => NoneNew(born, t.status);
    case _ => SameNew(born, s.status, t.status);
  }

  lemma OneLess(q: seq<nat>, born: seq<nat>, st: map<nat, Status>, us: map<nat, Status>, e: nat)
    requires RR.NoRepeats(q) && q == StillNew(born, st)
    requires forall x: nat :: x in q <==> x in st && st[x] == NEW
    requires forall x: nat :: x in RR.Delete(q, e) <==> x in us && us[x] == NEW
    ensures RR.Delete(q, e) == StillNew(born, us)
  {
    if e in q {
      DeleteMembers(q, e);
    } else {
      NotDeleted(q, e);
    }
    hide RR.Delete, RR.NoRepeats;
    OneLessNew(born, st, us, e);
  }

  /** After any run the NEW queue is the environments that are still NEW, in the order in which they were created. */
  lemma {:induction false} NewInOrder(maxSemaphores: nat, ops: seq<Op>)
    requires Runs(Boot(maxSemaphores), ops)
    ensures var s := Run(Boot(maxSemaphores), ops); s.newQueue == StillNew(Births(ops), s.status)
  {
    var b := Boot(maxSemaphores);
    BootInv(maxSemaphores);
    if ops != [] {
      var before, op := ops[..|ops| - 1], ops[|ops| - 1];
      assert |before| < |ops|;
      NewInOrder(maxSemaphores, before);
      RunInv(b, before);
      if op.New? {
        BirthsAre(before, op.e);
        Created(b, before, op.e);
        assert op.e !in b.status;
      }
      hide Inv, Step, StillNew, Boot;
      StepInOrder(Run(b, before), op, Births(before));
    }
  }

  /**
   sched_run_all after any run: the environments still NEW join the rotation in
   the order in which they were created; if nobody was running, the one created
   first runs now and the others follow it in that order.
   */
  lemma RunAllInOrder(maxSemaphores: nat, ops: seq<Op>)
    requires Runs(Boot(maxSemaphores), ops)
    ensures var s := Run(Boot(maxSemaphores), ops);
      var waiting := StillNew(Births(ops), s.status);
      var t := Step(s, RunAll);
      && t.newQueue == []
      && (s.cur.Some? ==> t.cur == s.cur && t.ready == s.ready + waiting)
      && (s.cur.None? && waiting != [] ==> t.cur == S.Some(waiting[0]) && t.ready == waiting[1..] + [waiting[0]])
      && (s.cur.None? && waiting == [] ==> t.cur == S.None && t.ready == [])
  {
    hide *;
    NewInOrder(maxSemaphores, ops);
    BootInv(maxSemaphores);
    RunInv(Boot(maxSemaphores), ops);
    StepRunAll(Run(Boot(maxSemaphores), ops));
  }

  lemma StepRunAll(s: State)
    requires Inv(s)
    ensures Enabled(s, RunAll)
    ensures var t := Step(s, RunAll);
      && t.newQueue == []
      && (s.cur.Some? ==> t.cur == s.cur && t.ready == s.ready + s.newQueue)
      && (s.cur.None? && s.newQueue != [] ==> t.cur == S.Some(s.newQueue[0]) && t.ready == s.newQueue[1..] + [s.newQueue[0]])
      && (s.cur.None? && s.newQueue == [] ==> t.cur == S.None && t.ready == [])
  {
    hide Queues, SemsSound;
    assert s.ready == [] ==> s.ready + s.newQueue == s.newQueue;
  }

  /** Of two environments still NEW the one created first comes first. */
  lemma {:induction false} OlderFirst(q: seq<nat>, st: map<nat, Status>, i: nat, j: nat)
    requires i < j < |q| && RR.NoRepeats(q) && q[i] in st && st[q[i]] == NEW && q[j] in st && st[q[j]] == NEW
    ensures var r := StillNew(q, st); q[i] in r && q[j] in r && RR.IndexOf(r, q[i]) < RR.IndexOf(r, q[j])
  {
    var p := q[..|q| - 1];
    var r, a := StillNew(q, st), StillNew(p, st);
    assert q == p + [q[|q| - 1]];
    StillNewNext(p, q[|q| - 1], st);
    PrefixOnce(p, q[|q| - 1]);
    hide RR.NoRepeats, RR.IndexOf, StillNew;
    if j < |q| - 1 {
      OlderFirst(p, st, i, j);
      IndexInPrefix(a, r, q[i]);
      IndexInPrefix(a, r, q[j]);
    } else {
      assert q[i] in p && q[j] !in p;
      assert q[i] in a && q[j] !in a;
      IndexInPrefix(a, r, q[i]);
      assert r == a + [q[j]];
      NotInPrefix(a, q[j]);
    }
  }

  lemma NotInPrefix(a: seq<nat>, x: nat)
    requires x !in a
    ensures x in a + [x] && RR.IndexOf(a + [x], x) == |a|
  {
    assert (a + [x])[|a|] == x && (a + [x])[..|a|] == a;
    FirstIndex(a + [x], x, |a|);
  }

  lemma IndexInPrefix(a: seq<nat>, r: seq<nat>, e: nat)
    requires |a| <= |r| && r[..|a|] == a && e in a
    ensures e in r && RR.IndexOf(r, e) == RR.IndexOf(a, e)
  {
    var k := RR.IndexOf(a, e);
    assert r[k] == a[k] && r[..k] == a[..k];
    FirstIndex(r, e, k);
  }

  lemma {:induction false} FirstIndex(q: seq<nat>, e: nat, k: nat)
    requires k < |q| && q[k] == e && e !in q[..k]
    ensures e in q && RR.IndexOf(q, e) == k
  {
    if k > 0 {
      assert q[..k] == [q[0]] + q[1..][..k - 1];
      FirstIndex(q[1..], e, k - 1);
    }
  }

  // ----- the EXIT queue -----

  /** The environments that left by exiting, in order: a NEW or READY one when Exit names it. */
  ghost function Leavers(s: State, ops: seq<Op>): seq<nat>
    requires Runs(s, ops)
  {
    if ops == [] then []
    else
      var before, op := ops[..|ops| - 1], ops[|ops| - 1];
      var t := Run(s, before);
      Leavers(s, before) + if op.Exit? && op.e in t.status && t.status[op.e] in {NEW, READY} then [op.e] else []
  }

  lemma StepExit(s: State, op: Op)
    requires Inv(s) && Enabled(s, op)
    ensures Step(s, op).exited == s.exited + if op.Exit? && op.e in s.status && s.status[op.e] in {NEW, READY} then [op.e] else []
  {
    assert forall e: nat :: e in s.newQueue || e in s.ready <==> e in s.status && s.status[e] in {NEW, READY};
    assert s.exited + [] == s.exited;
    hide Inv, RR.Delete, RR.Next, S.Wait, S.Signal;
  }

  /** After any run the EXIT queue is the environments that exited, in the order in which they did. */
  lemma {:induction false} ExitInOrder(s: State, ops: seq<Op>)
    requires Inv(s) && Runs(s, ops)
    ensures Run(s, ops).exited == s.exited + Leavers(s, ops)
  {
    hide Inv, Step;
    if ops != [] {
      var before := ops[..|ops| - 1];
      ExitInOrder(s, before);
      RunInv(s, before);
      StepExit(Run(s, before), ops[|ops| - 1]);
    }
  }
}
