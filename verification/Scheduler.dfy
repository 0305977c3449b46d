/**
 kern/sched.c and kern/semaphore_manager.c as they run: global queues, a
 current environment, and an array of semaphores whose queues are kept newest
 first.  Each operation is proved to perform its step of SchedulerSpec.  All
 queues share one pair of links, so an insertion asks that the environment is on
 no queue, and every caller is proved to see to that.
 */
module Scheduler {
  import S = SemaphoreSpec
  import RR = RoundRobin
  import opened ReadyQueue
  import opened SchedulerSpec
  import T = SchedulerTheorems

  /** struct Semaphore; envQueue is in list order, newest first. */
  datatype Slot = Slot(owner: int, name: string, envQueue: seq<nat>, value: int, empty: bool)

  ghost function Reversed(q: seq<nat>): (r: seq<nat>)
    ensures |r| == |q|
  {
    seq(|q|, i requires 0 <= i < |q| => q[|q| - 1 - i])
  }

  lemma ReversedEnds(q: seq<nat>, e: nat)
    ensures Reversed([e] + q) == Reversed(q) + [e]
    ensures q != [] ==> Reversed(q)[0] == q[|q| - 1] && Reversed(q[..|q| - 1]) == Reversed(q)[1..]
  {
  }

  ghost function AbsSlot(s: Slot): Semaphore {
    Semaphore(s.owner, s.name, S.Sem(s.value, Reversed(s.envQueue)), s.empty)
  }

  ghost function AbsSlots(slots: seq<Slot>): (a: seq<Semaphore>)
    ensures |a| == |slots| && forall i :: 0 <= i < |a| ==> a[i] == AbsSlot(slots[i])
  {
    seq(|slots|, i requires 0 <= i < |slots| => AbsSlot(slots[i]))
  }

  lemma AbsUpdate(slots: seq<Slot>, i: nat, s: Slot)
    requires i < |slots|
    ensures AbsSlots(slots[i := s]) == AbsSlots(slots)[i := AbsSlot(s)]
  {
  }

  lemma FoundAt(sems: seq<Semaphore>, owner: int, name: string, i: nat)
    requires i <= |sems| && (i < |sems| ==> Is(sems[i], owner, name))
    requires forall j :: 0 <= j < i ==> !Is(sems[j], owner, name)
    ensures Find(sems, owner, name) == i
  {
  }

  lemma StatusTwice(st: map<nat, Status>, e: nat, v: Status, w: Status)
    ensures st[e := v][e := w] == st[e := w]
  {
  }

  lemma HeadDeleted(q: seq<nat>)
    requires q != []
    ensures RR.Delete(q, q[0]) == q[1..]
  {
  }

  lemma AllReadyNext(st: map<nat, Status>, all: seq<nat>, k: nat)
    requires k < |all| && all[k] in st
    ensures AllReady(st, all[..k])[all[k] := READY] == AllReady(st, all[..k + 1])
    ensures all[k..][0] == all[k] && all[k..][1..] == all[k + 1..]
  {
    assert all[..k + 1] == all[..k] + [all[k]];
  }

  lemma AllReadyNone(st: map<nat, Status>)
    ensures AllReady(st, []) == st
  {
  }

  lemma SetTwice<T>(q: seq<T>, i: nat, x: T, y: T)
    requires i < |q|
    ensures q[i := x][i := y] == q[i := y]
  {
  }

  lemma AnyoneReady(s: State)
    requires Inv(s) && s.ready != []
    ensures s.cur.Some?
  {
  }

  lemma SameQueues(sems: seq<Semaphore>, i: nat, sem: Semaphore, e: nat)
    requires i < |sems| && sem.sem.queue == sems[i].sem.queue
    requires forall j :: !On(sems, j, e)
    ensures var t := sems[i := sem]; forall j :: !On(t, j, e)
  {
    var t := sems[i := sem];
    forall j
      ensures !On(t, j, e)
    {
      assert !On(sems, j, e);
    }
  }

  lemma CurrentIsReady(s: State)
    requires Inv(s) && s.cur.Some?
    ensures s.cur.value in s.ready
  {
  }

  lemma UsedIsBalanced(s: State, i: nat)
    requires Inv(s) && i < |s.sems| && !s.sems[i].empty
    ensures S.Balanced(s.sems[i].sem)
  {
  }

  // ----- environments on no queue -----

  /** e is on no queue: its links are free. */
  ghost predicate LooseIn(s: State, e: nat) {
    e !in s.newQueue && e !in s.ready && e !in s.exited && forall i :: !On(s.sems, i, e)
  }

  lemma NewIsLoose(s: State, e: nat)
    requires Inv(s) && e !in s.status
    ensures LooseIn(s, e)
  {
  }

  lemma FreedFromNew(s: State, e: nat)
    requires Inv(s) && e in s.newQueue
    ensures LooseIn(s.(newQueue := RR.Delete(s.newQueue, e)), e)
  {
    T.DeleteMembers(s.newQueue, e);
    T.Statuses(s, e);
    hide RR.Delete, RR.NoRepeats;
  }

  lemma FreedFromReady(s: State, e: nat)
    requires Inv(s) && e in s.ready
    ensures LooseIn(s.(ready := RR.Delete(s.ready, e)), e)
  {
    T.DeleteMembers(s.ready, e);
    T.Statuses(s, e);
    hide RR.Delete, RR.NoRepeats;
  }

  /** The oldest environment of a semaphore, off its queue. */
  lemma FreedFromSemaphore(s: State, i: nat, sem: Semaphore)
    requires Inv(s) && i < |s.sems| && s.sems[i].sem.queue != [] && sem.sem.queue == s.sems[i].sem.queue[1..]
    ensures LooseIn(s.(sems := s.sems[i := sem]), s.sems[i].sem.queue[0])
  {
    var q := s.sems[i].sem.queue;
    var e := q[0];
    assert On(s.sems, i, e) && RR.NoRepeats(q) && q == [e] + q[1..];
    T.Statuses(s, e);
    var t := s.sems[i := sem];
    forall j
      ensures On(t, j, e) ==> On(s.sems, j, e) && j != i
    {
    }
    hide RR.NoRepeats;
  }

  /** None of `all` is on another queue. */
  ghost predicate Movable(all: seq<nat>, ready: seq<nat>, exited: seq<nat>, sems: seq<Semaphore>) {
    RR.NoRepeats(all) && forall e: nat :: e in all ==> e !in ready && e !in exited && forall i :: !On(sems, i, e)
  }

  lemma NewAreMovable(s: State)
    requires Inv(s)
    ensures Movable(s.newQueue, s.ready, s.exited, s.sems)
    ensures forall i: nat {:trigger s.newQueue[i]} :: i < |s.newQueue| ==> s.newQueue[i] in s.status
  {
    forall e: nat | e in s.newQueue
      ensures e !in s.ready && e !in s.exited && forall i :: !On(s.sems, i, e)
    {
      T.Statuses(s, e);
    }
    hide RR.NoRepeats;
  }

  lemma NextIsLoose(all: seq<nat>, ready: seq<nat>, exited: seq<nat>, sems: seq<Semaphore>, k: nat)
    requires Movable(all, ready, exited, sems) && k < |all|
    ensures var e := all[k];
      e !in all[k..][1..] && e !in ready + all[..k] && e !in exited && forall i :: !On(sems, i, e)
  {
    assert all[k] in all;
  }

  datatype Created = SemaphoreId(id: nat) | SemaphoreExists | NoSemaphore

  class Kernel {
    var newQueue: seq<nat>
    var ready: seq<nat>      // from sched_next on
    var exitQueue: seq<nat>
    var status: map<nat, Status>
    var curenv: S.Option<nat>
    var started: bool
    var semaphores: seq<Slot>

    ghost function View(): State
      reads this
    {
      State(newQueue, ready, exitQueue, status, curenv, started, AbsSlots(semaphores))
    }

    ghost predicate Loose(e: nat)
      reads this
    {
      LooseIn(View(), e)
    }

    /** sched_init and create_semaphores_array */
    constructor (maxSemaphores: nat)
      ensures |semaphores| == maxSemaphores && Inv(View()) && View().status == map[]
    {
      newQueue, ready, exitQueue, status := [], [], [], map[];
      curenv, started := S.None, false;
      semaphores := seq(maxSemaphores, _ => Slot(0, "", [], 0, true));
    }

    method FosScheduler()
      modifies this
      ensures View() == Dispatch(old(View()))
    {
      started := true;
      if ready == [] {
        curenv := S.None;
        started := false;
      } else {
        curenv := S.Some(ready[0]);
        ready := ready[1..] + [ready[0]];
      }
    }

    method InsertReady(e: nat)
      requires Loose(e)
      modifies `ready, `status
      ensures ready == old(ready) + [e] && status == old(status)[e := READY]
    {
      status := status[e := READY];
      ready := ready + [e];
    }

    method RemoveReady(e: nat)
      requires e in ready
      modifies `ready, `status
      ensures ready == RR.Delete(old(ready), e) && status == old(status)[e := UNKNOWN]
    {
      ready := RR.Delete(ready, e);
      status := status[e := UNKNOWN];
    }

    method RemoveNew(e: nat)
      requires e in newQueue
      modifies `newQueue, `status
      ensures newQueue == RR.Delete(old(newQueue), e) && status == old(status)[e := UNKNOWN]
    {
      newQueue := RR.Delete(newQueue, e);
      status := status[e := UNKNOWN];
    }

    method InsertExit(e: nat)
      requires Loose(e)
      modifies `exitQueue, `status
      ensures exitQueue == old(exitQueue) + [e] && status == old(status)[e := EXIT]
    {
      status := status[e := EXIT];
      exitQueue := exitQueue + [e];
    }

    /** sched_new_env */
    method NewEnv(e: nat)
      requires Inv(View()) && Enabled(View(), New(e))
      modifies this
      ensures View() == Step(old(View()), New(e))
    {
      NewIsLoose(View(), e);
      InsertNew(e);
    }

    method InsertNew(e: nat)
      requires Loose(e)
      modifies `newQueue, `status
      ensures newQueue == old(newQueue) + [e] && status == old(status)[e := NEW]
    {
      status := status[e := NEW];
      newQueue := newQueue + [e];
    }

    /** sched_run_env */
    method RunEnv(e: nat)
      requires Inv(View())
      modifies this
      ensures View() == Step(old(View()), SchedulerSpec.RunEnv(e))
    {
      var i := 0;
      while i < |newQueue|
        invariant i <= |newQueue| && e !in newQueue[..i] && View() == old(View())
      {
        if newQueue[i] == e {
          FreedFromNew(View(), e);
          hide Inv, RR.Delete, Dispatch;
          RemoveNew(e);
          InsertReady(e);
          StatusTwice(old(status), e, UNKNOWN, READY);
          if !started {
            FosScheduler();
          }
          return;
        }
        i := i + 1;
      }
    }

    method MoveFirst()
      requires newQueue != [] && newQueue[0] !in newQueue[1..] && newQueue[0] !in ready && newQueue[0] !in exitQueue
      requires forall i :: !On(View().sems, i, newQueue[0])
      modifies `newQueue, `ready, `status
      ensures newQueue == old(newQueue)[1..] && ready == old(ready) + [old(newQueue)[0]]
      ensures status == old(status)[old(newQueue)[0] := READY]
    {
      var e := newQueue[0];
      HeadDeleted(newQueue);
      StatusTwice(status, e, UNKNOWN, READY);
      hide RR.Delete;
      ghost var sems := View().sems;
      RemoveNew(e);
      assert newQueue == old(newQueue)[1..] && View().sems == sems;
      assert forall i :: !On(sems, i, e);
      InsertReady(e);
    }

    /** The loop of sched_run_all. */
    method MoveAll()
      requires forall i: nat {:trigger newQueue[i]} :: i < |newQueue| ==> newQueue[i] in status
      requires Movable(newQueue, ready, exitQueue, View().sems)
      modifies `newQueue, `ready, `status
      ensures newQueue == [] && ready == old(ready) + old(newQueue)
      ensures status == AllReady(old(status), old(newQueue))
    {
      ghost var all, rot, st := newQueue, ready, status;
      ghost var k := 0;
      AllReadyNone(st);
      ghost var sems := View().sems;
      hide AllReady, Movable;
      while newQueue != []
        invariant k <= |all| && newQueue == all[k..] && ready == rot + all[..k]
        invariant status == AllReady(st, all[..k]) && exitQueue == old(exitQueue) && View().sems == sems
      {
        AllReadyNext(st, all, k);
        NextIsLoose(all, rot, exitQueue, sems, k);
        Slide(all, rot, k);
        MoveFirst();
        k := k + 1;
      }
      assert all[..k] == all;
    }

    /** sched_run_all */
    method RunAll()
      requires Inv(View())
      modifies this
      ensures View() == Step(old(View()), SchedulerSpec.RunAll)
    {
      NewAreMovable(View());
      hide Inv, Dispatch, AllReady, AbsSlots, Movable;
      MoveAll();
      if !started {
        FosScheduler();
      }
    }

    /** sched_exit_env */
    method ExitEnv(e: nat)
      requires Inv(View())
      modifies this
      ensures View() == Step(old(View()), Exit(e))
    {
      var i := 0;
      while i < |newQueue|
        invariant i <= |newQueue| && e !in newQueue[..i] && View() == old(View())
      {
        if newQueue[i] == e {
          FreedFromNew(View(), e);
          hide Inv, RR.Delete, Dispatch;
          RemoveNew(e);
          InsertExit(e);
          StatusTwice(old(status), e, UNKNOWN, EXIT);
          return;
        }
        i := i + 1;
      }
      i := 0;
      while i < |ready|
        invariant i <= |ready| && e !in ready[..i] && View() == old(View())
      {
        if ready[i] == e {
          FreedFromReady(View(), e);
          AnyoneReady(View());
          hide Inv, RR.Delete, Dispatch;
          RemoveReady(e);
          InsertExit(e);
          StatusTwice(old(status), e, UNKNOWN, EXIT);
          if curenv.value == e {
            FosScheduler();
          }
          return;
        }
        i := i + 1;
      }
    }

    /** The search loop of waitSemaphore, signalSemaphore and createSemaphore; |semaphores| when none is found. */
    method Search(owner: int, name: string) returns (i: nat)
      ensures i == Find(View().sems, owner, name) <= |semaphores|
      ensures i < |semaphores| ==> !semaphores[i].empty && semaphores[i].owner == owner && semaphores[i].name == name
      ensures forall j {:trigger semaphores[j]} :: 0 <= j < i ==>
                semaphores[j].empty || semaphores[j].owner != owner || semaphores[j].name != name
    {
      i := 0;
      ghost var sems := View().sems;
      while i < |semaphores|
        invariant i <= |sems| && forall j :: 0 <= j < i ==> !Is(sems[j], owner, name)
        invariant forall j {:trigger semaphores[j]} :: 0 <= j < i ==>
                    semaphores[j].empty || semaphores[j].owner != owner || semaphores[j].name != name
      {
        var s := semaphores[i];
        assert sems[i] == AbsSlot(s);
        if !s.empty && s.owner == owner && s.name == name {
          break;
        }
        i := i + 1;
      }
      FoundAt(sems, owner, name, i);
    }

    /** waitSemaphore, called by the current environment */
    method WaitSemaphore(owner: int, name: string)
      requires Inv(View()) && curenv.Some?
      modifies this
      ensures View() == Step(old(View()), Wait(owner, name))
    {
      CurrentIsReady(View());
      hide Inv, WaitOn, SignalOn, Find, FirstEmpty, AbsSlots, Dispatch;
      var i := Search(owner, name);
      if i < |semaphores| {
        WaitAt(i);
      }
    }

    method WaitAt(i: nat)
      requires i < |semaphores| && curenv.Some? && curenv.value in ready && Inv(View())
      modifies this
      ensures View() == WaitOn(old(View()), i, old(curenv.value))
    {
      FreedFromReady(View(), curenv.value);
      hide RR.Delete, RR.Next, Dispatch, Inv;
      var s := semaphores[i];
      var me := curenv.value;
      ghost var sems := View().sems;
      SameQueues(sems, i, AbsSlot(s.(value := s.value - 1)), me);
      AbsUpdate(semaphores, i, s.(value := s.value - 1));
      semaphores := semaphores[i := s.(value := s.value - 1)];
      if s.value - 1 < 0 {
        RemoveReady(me);
        assert View().sems == sems[i := AbsSlot(s.(value := s.value - 1))];
        SetTwice(old(AbsSlots(semaphores)), i, AbsSlots(semaphores)[i], AbsSlot(s).(sem := S.Wait(AbsSlot(s).sem, me)));
        Enqueue(i, me);
        status := status[me := BLOCKED];
        StatusTwice(old(status), me, UNKNOWN, BLOCKED);
      }
      FosScheduler();
    }

    /** enqueue: LIST_INSERT_HEAD */
    method Enqueue(i: nat, e: nat)
      requires i < |semaphores| && Loose(e)
      modifies `semaphores
      ensures |semaphores| == |old(semaphores)|
      ensures AbsSlots(semaphores) ==
              var a := old(AbsSlots(semaphores)); a[i := a[i].(sem := a[i].sem.(queue := a[i].sem.queue + [e]))]
    {
      var s := semaphores[i];
      AbsUpdate(semaphores, i, s.(envQueue := [e] + s.envQueue));
      ReversedEnds(s.envQueue, e);
      semaphores := semaphores[i := s.(envQueue := [e] + s.envQueue)];
    }

    /** dequeue: LIST_LAST and LIST_REMOVE */
    method Dequeue(i: nat) returns (e: nat)
      requires i < |semaphores| && semaphores[i].envQueue != []
      modifies `semaphores
      ensures |semaphores| == |old(semaphores)|
      ensures var a := old(AbsSlots(semaphores));
        && a[i].sem.queue != [] && e == a[i].sem.queue[0]
        && AbsSlots(semaphores) == a[i := a[i].(sem := a[i].sem.(queue := a[i].sem.queue[1..]))]
    {
      var s := semaphores[i];
      var n := |s.envQueue|;
      e := s.envQueue[n - 1];
      AbsUpdate(semaphores, i, s.(envQueue := s.envQueue[..n - 1]));
      ReversedEnds(s.envQueue, e);
      semaphores := semaphores[i := s.(envQueue := s.envQueue[..n - 1])];
    }

    /** signalSemaphore */
    method SignalSemaphore(owner: int, name: string)
      requires Inv(View()) && curenv.Some?
      modifies this
      ensures View() == Step(old(View()), Signal(owner, name))
    {
      hide Inv, WaitOn, SignalOn, Find, FirstEmpty, AbsSlots, Dispatch;
      var i := Search(owner, name);
      if i < |semaphores| {
        UsedIsBalanced(View(), i);
        SignalAt(i);
      }
    }

    method SignalAt(i: nat)
      requires i < |semaphores| && S.Balanced(AbsSlot(semaphores[i]).sem) && Inv(View())
      modifies this
      ensures View() == SignalOn(old(View()), i)
    {
      var s := semaphores[i];
      AbsUpdate(semaphores, i, s.(value := s.value + 1));
      semaphores := semaphores[i := s.(value := s.value + 1)];
      if s.value + 1 <= 0 {
        var e := Dequeue(i);
        FreedFromSemaphore(old(View()), i, View().sems[i]);
        assert View() == old(View()).(sems := old(View()).sems[i := View().sems[i]]);
        InsertReady(e);
        status := status[e := READY];
        StatusTwice(old(status), e, READY, READY);
      }
    }

    /** The search of allocate_semaphore_object; the slot it returns is filled in by the caller. */
    method AllocateObject() returns (i: nat)
      requires FirstEmpty(View().sems) < |semaphores|
      ensures i == FirstEmpty(View().sems)
    {
      i := 0;
      ghost var sems := View().sems;
      assert forall j :: 0 <= j < |sems| ==> sems[j].empty == semaphores[j].empty;
      while !semaphores[i].empty
        invariant i <= FirstEmpty(sems)
        decreases |semaphores| - i
      {
        assert i < FirstEmpty(sems);
        i := i + 1;
      }
    }

    /** createSemaphore */
    method CreateSemaphore(owner: int, name: string, initialValue: nat) returns (r: Created)
      requires Inv(View()) && Enabled(View(), Create(owner, name, initialValue))
      modifies this
      ensures View() == Step(old(View()), Create(owner, name, initialValue))
      ensures r == if Find(old(View().sems), owner, name) < |old(semaphores)| then SemaphoreExists
                   else SemaphoreId(FirstEmpty(old(View().sems)))
      ensures r == SemaphoreExists <==>
                exists j {:trigger old(semaphores[j])} :: 0 <= j < |old(semaphores)| && !old(semaphores[j].empty)
                          && old(semaphores[j].owner) == owner && old(semaphores[j].name) == name
    {
      hide Inv, Find, FirstEmpty;
      var i := Search(owner, name);
      if i < |semaphores| {
        return SemaphoreExists;
      }
      i := AllocateObject();
      var s := Slot(owner, name, semaphores[i].envQueue, initialValue, false);
      AbsUpdate(semaphores, i, s);
      semaphores := semaphores[i := s];
      r := SemaphoreId(i);
    }
  }
}
