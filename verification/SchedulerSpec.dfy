/**
 What the kernel's queues hold after each operation of kern/sched.c and
 kern/semaphore_manager.c, as functions on one state.

 `ready` is the ready list read circularly from sched_next; a semaphore's queue
 is written oldest first.  The invariant says that every created environment is
 on exactly one queue, that its status names that queue, that the scheduler is
 stopped exactly when nobody is ready, and that semaphores are balanced.
 */
module SchedulerSpec {
  import S = SemaphoreSpec
  import RR = RoundRobin
  import opened ReadyQueue

  datatype Semaphore = Semaphore(owner: int, name: string, sem: S.Sem, empty: bool)

  datatype State = State(newQueue: seq<nat>, ready: seq<nat>, exited: seq<nat>, status: map<nat, Status>,
                         cur: S.Option<nat>, started: bool, sems: seq<Semaphore>)

  datatype Op =
    | New(e: nat)
    | RunEnv(e: nat)
    | RunAll
    | Exit(e: nat)
    | Tick
    | Wait(owner: int, name: string)
    | Signal(owner: int, name: string)
    | Create(owner: int, name: string, value: int)

  predicate Is(s: Semaphore, owner: int, name: string) {
    !s.empty && s.owner == owner && s.name == name
  }

  /** Index of the first semaphore of that owner and name, or |sems|. */
  function Find(sems: seq<Semaphore>, owner: int, name: string): (i: nat)
    ensures i <= |sems| && (i < |sems| ==> Is(sems[i], owner, name))
    ensures forall j :: 0 <= j < i ==> !Is(sems[j], owner, name)
  {
    if sems == [] then 0 else if Is(sems[0], owner, name) then 0 else 1 + Find(sems[1..], owner, name)
  }

  function FirstEmpty(sems: seq<Semaphore>): (i: nat)
    ensures i <= |sems| && (i < |sems| ==> sems[i].empty)
    ensures forall j :: 0 <= j < i ==> !sems[j].empty
  {
    if sems == [] then 0 else if sems[0].empty then 0 else 1 + FirstEmpty(sems[1..])
  }

  /** fos_scheduler: run the head of the rotation, or stop. */
  function Dispatch(s: State): State {
    if s.ready == [] then s.(cur := S.None, started := false)
    else s.(cur := S.Some(s.ready[0]), ready := RR.Next(s.ready, RR.Schedule), started := true)
  }

  function MoveToReady(s: State, e: nat): State {
    s.(newQueue := RR.Delete(s.newQueue, e), ready := s.ready + [e], status := s.status[e := READY])
  }

  function AllReady(status: map<nat, Status>, q: seq<nat>): map<nat, Status> {
    map e | e in status :: if e in q then READY else status[e]
  }

  function StartIfStopped(s: State): State {
    if s.started then s else Dispatch(s)
  }

  function Leave(s: State, e: nat): State {
    s.(ready := RR.Delete(s.ready, e), exited := s.exited + [e], status := s.status[e := EXIT])
  }

  function ExitEnv(s: State, e: nat): State {
    if e in s.newQueue then s.(newQueue := RR.Delete(s.newQueue, e), exited := s.exited + [e], status := s.status[e := EXIT])
    else if e in s.ready then
      if s.cur == S.Some(e) then Dispatch(Leave(s, e)) else Leave(s, e)
    else s
  }

  function SetSem(s: State, i: nat, sem: S.Sem): State
    requires i < |s.sems|
  {
    s.(sems := s.sems[i := s.sems[i].(sem := sem)])
  }

  function Block(s: State, e: nat): State {
    s.(ready := RR.Delete(s.ready, e), status := s.status[e := BLOCKED])
  }

  function WaitOn(s: State, i: nat, e: nat): State
    requires i < |s.sems|
  {
    var t := SetSem(s, i, S.Wait(s.sems[i].sem, e));
    Dispatch(if S.Passes(s.sems[i].sem) then t else Block(t, e))
  }

  function SignalOn(s: State, i: nat): State
    requires i < |s.sems|
  {
    var t := SetSem(s, i, S.Signal(s.sems[i].sem));
    match S.Released(s.sems[i].sem)
    case None => t
    case Some(e) => t.(ready := t.ready + [e], status := t.status[e := READY])
  }

  function CreateAt(s: State, i: nat, owner: int, name: string, value: nat): State
    requires i < |s.sems|
  {
    s.(sems := s.sems[i := Semaphore(owner, name, S.Sem(value, s.sems[i].sem.queue), false)])
  }

  /** What the code asks of its caller: a new environment, a running caller, a free slot. */
  predicate Enabled(s: State, op: Op) {
    match op
    case New(e) => e !in s.status
    case Wait(_, _) => s.cur.Some?
    case Signal(_, _) => s.cur.Some?
    case Create(owner, name, v) =>
      0 <= v < 0x8000_0000 && (Find(s.sems, owner, name) == |s.sems| ==> FirstEmpty(s.sems) < |s.sems|)
    case _ => true
  }

  function Step(s: State, op: Op): State
    requires Enabled(s, op)
  {
    match op
    case New(e) => s.(newQueue := s.newQueue + [e], status := s.status[e := NEW])
    case RunEnv(e) => if e in s.newQueue then StartIfStopped(MoveToReady(s, e)) else s
    case RunAll =>
      StartIfStopped(s.(newQueue := [], ready := s.ready + s.newQueue, status := AllReady(s.status, s.newQueue)))
    case Exit(e) => ExitEnv(s, e)
    case Tick => Dispatch(s)
    case Wait(o, n) => var i := Find(s.sems, o, n); if i < |s.sems| then WaitOn(s, i, s.cur.value) else s
    case Signal(o, n) => var i := Find(s.sems, o, n); if i < |s.sems| then SignalOn(s, i) else s
    case Create(o, n, v) =>
      if Find(s.sems, o, n) < |s.sems| then s else CreateAt(s, FirstEmpty(s.sems), o, n, v)
  }

  // ----- invariant -----

  /** q holds, once each, exactly the environments whose status is v. */
  ghost predicate Names(q: seq<nat>, status: map<nat, Status>, v: Status) {
    RR.NoRepeats(q) && forall e: nat :: e in q <==> e in status && status[e] == v
  }

  ghost predicate On(sems: seq<Semaphore>, i: int, e: nat) {
    0 <= i < |sems| && e in sems[i].sem.queue
  }

  /** The blocked environments are on exactly one semaphore queue, once. */
  ghost predicate NamesBlocked(sems: seq<Semaphore>, status: map<nat, Status>) {
    && (forall i :: 0 <= i < |sems| ==> RR.NoRepeats(sems[i].sem.queue))
    && (forall i, e: nat :: On(sems, i, e) ==> e in status && status[e] == BLOCKED)
    && (forall i, j, e: nat :: On(sems, i, e) && On(sems, j, e) ==> i == j)
    && (forall e: nat :: e in status && status[e] == BLOCKED ==> exists i :: On(sems, i, e))
  }

  ghost predicate SemsSound(sems: seq<Semaphore>) {
    && (forall i :: 0 <= i < |sems| ==> S.Balanced(sems[i].sem) || sems[i].empty)
    && (forall i :: 0 <= i < |sems| && sems[i].empty ==> sems[i].sem.queue == [])
    && (forall i, j :: 0 <= i < |sems| && 0 <= j < |sems| && !sems[j].empty ==>
                         Is(sems[i], sems[j].owner, sems[j].name) ==> i == j)
  }

  ghost predicate Current(s: State) {
    && s.started == (s.ready != [])
    && s.cur.Some? == (s.ready != [])
    && (s.cur.Some? ==> s.cur.value in s.ready)
  }

  ghost predicate Queues(s: State) {
    && Names(s.newQueue, s.status, NEW)
    && Names(s.ready, s.status, READY)
    && Names(s.exited, s.status, EXIT)
    && NamesBlocked(s.sems, s.status)
    && (forall e: nat :: e in s.status ==> s.status[e] in {NEW, READY, EXIT, BLOCKED})
  }

  ghost predicate Inv(s: State) {
    Queues(s) && Current(s) && SemsSound(s.sems)
  }
}
