/**
 The ready queue of kern/sched.c: a linked list with the cursor sched_next.

 Read circularly from the cursor the list is a FIFO rotation: insertion appends
 to it, scheduling moves its head to the end, removal deletes from it.
 */
module ReadyQueue {
  import opened Queue
  import RR = RoundRobin

  datatype Status = FREE | READY | BLOCKED | NEW | EXIT | UNKNOWN

  /** The part of struct Env the scheduler reads: env_id and env_status. */
  datatype Env = Env(id: int, status: Status)

  ghost function Rotate<T>(s: seq<T>, at: nat): (r: seq<T>)
    requires at <= |s|
  {
    s[at..] + s[..at]
  }

  ghost function Drop<T>(s: seq<T>, p: nat): (r: seq<T>)
    requires p < |s|
  {
    s[..p] + s[p + 1..]
  }

  lemma RotationInsert(nodes: seq<Node<Env>>, at: nat, e: Node<Env>)
    requires at <= |nodes|
    ensures Rotate(Inserted(nodes, at, e), at + 1) == Rotate(nodes, at) + [e]
  {
    var r := Inserted(nodes, at, e);
    assert r[at + 1..] == nodes[at..];
    assert r[..at + 1] == nodes[..at] + [e];
  }

  /** Place in the rotation of the node at index i. */
  ghost function Place(n: nat, at: nat, i: nat): nat
    requires at < n && i < n
  {
    if at <= i then i - at else i + n - at
  }

  /** Where the cursor is after the node at index i is gone. */
  ghost function CursorAfterRemove(n: nat, at: nat, i: nat): nat
    requires at < n && i < n
  {
    if i < at then at - 1 else if i == at == n - 1 then 0 else at
  }

  lemma RotationRemove(nodes: seq<Node<Env>>, at: nat, i: nat)
    requires at < |nodes| && i < |nodes|
    ensures Rotate(Removed(nodes, i), CursorAfterRemove(|nodes|, at, i)) ==
            Drop(Rotate(nodes, at), Place(|nodes|, at, i))
  {
    var n := |nodes|;
    var a := CursorAfterRemove(n, at, i);
    var l := Rotate(Removed(nodes, i), a);
    var r := Drop(Rotate(nodes, at), Place(n, at, i));
    assert |l| == |r| == n - 1;
    forall k | 0 <= k < n - 1
      ensures l[k] == r[k]
    {
      var p := if k < Place(n, at, i) then k else k + 1;
      assert r[k] == Rotate(nodes, at)[p] == nodes[if at + p < n then at + p else at + p - n];
    }
  }

  lemma RotationAt(nodes: seq<Node<Env>>, at: nat, i: nat)
    requires at < |nodes| && i < |nodes|
    ensures Rotate(nodes, at)[Place(|nodes|, at, i)] == nodes[i]
    ensures Distinct(nodes) ==> RR.NoRepeats(Rotate(nodes, at))
  {
    var r := Rotate(nodes, at);
    assert forall k {:trigger r[k]} :: 0 <= k < |r| ==> r[k] == nodes[if at + k < |r| then at + k else at + k - |r|];
  }

  lemma DropIsDelete<T>(r: seq<T>, p: nat)
    requires p < |r| && RR.NoRepeats(r)
    ensures Drop(r, p) == RR.Next(r, RR.Remove(r[p]))
  {
    assert RR.IndexOf(r, r[p]) == p;
  }

  /** Deleting a node from the list deletes it from the rotation. */
  lemma RotationDelete(nodes: seq<Node<Env>>, at: nat, i: nat)
    requires at < |nodes| && i < |nodes| && Distinct(nodes)
    ensures Rotate(Removed(nodes, i), CursorAfterRemove(|nodes|, at, i)) ==
            RR.Next(Rotate(nodes, at), RR.Remove(nodes[i]))
  {
    assert |Rotate(nodes, at)| == |nodes| && Place(|nodes|, at, i) < |nodes|;
    hide *;
    RotationRemove(nodes, at, i);
    RotationAt(nodes, at, i);
    DropIsDelete(Rotate(nodes, at), Place(|nodes|, at, i));
  }

  lemma RotateOne<T>(s: seq<T>)
    requires |s| == 1
    ensures Rotate(s, 0) == Rotate(s, 1)
  {
  }

  lemma RotationStep(nodes: seq<Node<Env>>, at: nat)
    requires at < |nodes|
    ensures Rotate(nodes, if at + 1 == |nodes| then 0 else at + 1) == Rotate(nodes, at)[1..] + [nodes[at]]
  {
  }

  class ReadyQueue {
    const list: List<Env>
    var next: Node?<Env>     // sched_next
    ghost var at: nat        // its index

    /** sched_next is NULL exactly when the list is empty. */
    ghost predicate Cursor()
      reads this, list
    {
      if |list.nodes| == 0 then next == null && at == 0 else at < |list.nodes| && next == list.nodes[at]
    }

    ghost predicate Valid()
      reads this, list, list.nodes
    {
      list.Valid() && Cursor()
    }

    ghost function Rotation(): seq<Node<Env>>
      reads this, list
    {
      if at <= |list.nodes| then Rotate(list.nodes, at) else []
    }

    constructor ()
      ensures Valid() && Rotation() == [] && fresh(list) && |list.nodes| == 0
    {
      list := new List<Env>();
      next := null;
      at := 0;
    }

    /** sched_next_circular */
    method NextCircular(env: Node?<Env>, ghost i: nat) returns (n: Node?<Env>)
      requires list.Valid() && (env != null ==> i < |list.nodes| && env == list.nodes[i])
      ensures env == null ==> n == null
      ensures env != null ==> n == list.nodes[if i + 1 == |list.nodes| then 0 else i + 1]
    {
      if env == null {
        return null;
      }
      n := env.next;
      if n == null {
        n := list.first;
      }
    }

    lemma CursorIsItem()
      requires at <= |list.nodes| && (|list.nodes| > 0 ==> at < |list.nodes|) && next == Item(list.nodes, at)
      ensures Cursor()
    {
    }

    lemma ItemIsCursor()
      requires Cursor()
      ensures next == Item(list.nodes, at) && at <= |list.nodes| && (next == null <==> |list.nodes| == 0)
      ensures next != null ==> at < |list.nodes| && next == list.nodes[at]
    {
    }

    lemma RotationIs(r: seq<Node<Env>>)
      requires at <= |list.nodes| && Rotate(list.nodes, at) == r
      ensures Rotation() == r
    {
    }

    /** sched_insert_ready, without the status write */
    method Insert(env: Node<Env>)
      requires Valid() && env !in list.nodes
      modifies this, list, list.nodes`next, list.nodes`prev, env`next, env`prev
      ensures Valid() && Rotation() == RR.Next(old(Rotation()), RR.Insert(env)) && next != null
      ensures list.nodes == Inserted(old(list.nodes), old(at), env)
    {
      ItemIsCursor();
      RotationInsert(list.nodes, at, env);
      RotationIs(Rotate(list.nodes, at));
      hide Rotate, Rotation, Cursor, Distinct, List<Env>.Valid;
      if next != null {
        list.InsertBefore(next, env, at);
        at := at + 1;
        assert Item(list.nodes, at) == list.nodes[at];
      } else {
        list.InsertTail(env);
        next := env;
        assert Item(list.nodes, 0) == list.nodes[0];
        RotateOne(list.nodes);
      }
      RotationIs(old(Rotation()) + [env]);
      CursorIsItem();
    }

    /** The first half of sched_remove_ready: the cursor steps off the node that is leaving. */
    method StepOff(env: Node<Env>, ghost i: nat)
      requires Valid() && i < |list.nodes| && env == list.nodes[i]
      modifies `next
      ensures list.Valid()
      ensures next == Item(Removed(list.nodes, i), CursorAfterRemove(|list.nodes|, at, i))
    {
      ghost var n := |list.nodes|;
      assert env == next <==> i == at;
      assert n > 1 ==> list.nodes[0] != list.nodes[n - 1];
      if env == next {
        next := NextCircular(env, i);
        if next == env {
          next := null;
        }
      }
    }

    /** sched_remove_ready, without the status write */
    method Remove(env: Node<Env>, ghost i: nat)
      requires Valid() && i < |list.nodes| && env == list.nodes[i]
      modifies this, list, list.nodes`next, list.nodes`prev
      ensures Valid() && Rotation() == RR.Next(old(Rotation()), RR.Remove(env))
      ensures list.nodes == Removed(old(list.nodes), i) && env !in list.nodes
    {
      ItemIsCursor();
      RotationDelete(list.nodes, at, i);
      RotationIs(Rotate(list.nodes, at));
      hide Rotate, Rotation, RR.Next, Cursor, Distinct, List<Env>.Valid, Item;
      StepOff(env, i);
      list.Remove(env, i);
      at := CursorAfterRemove(|old(list.nodes)|, at, i);
      RotationIs(Rotate(list.nodes, at));
      CursorIsItem();
    }

    /** The choice fos_scheduler makes: the head of the rotation, which moves to the end. */
    method Choose() returns (env: Node?<Env>)
      requires Valid()
      modifies this
      ensures Valid() && list.nodes == old(list.nodes)
      ensures env == null <==> |list.nodes| == 0
      ensures Rotation() == RR.Next(old(Rotation()), RR.Schedule)
      ensures env != null ==> old(Rotation()) != [] && env == old(Rotation())[0]
    {
      env := next;
      if env != null {
        RotationStep(list.nodes, at);
      }
      next := NextCircular(next, at);
      if env != null {
        at := if at + 1 == |list.nodes| then 0 else at + 1;
      }
    }
  }

  // ----- sched_run_all -----

  ghost predicate AllIn(nodes: seq<Node<Env>>, s: set<Node<Env>>) {
    forall i {:trigger nodes[i]} :: 0 <= i < |nodes| ==> nodes[i] in s
  }

  /** A list and a ready queue that share no node, all nodes being in s. */
  ghost predicate Sides(q: List<Env>, r: ReadyQueue, s: set<Node<Env>>)
    reads q, q.nodes, r, r.list, r.list.nodes
  {
    && q != r.list && q.Valid() && r.list.Valid() && r.Cursor()
    && Disjoint(q.nodes, r.list.nodes) && AllIn(q.nodes, s) && AllIn(r.list.nodes, s)
  }

  lemma AfterTake(nodes: seq<Node<Env>>, others: seq<Node<Env>>, s: set<Node<Env>>)
    requires |nodes| > 0 && Disjoint(nodes, others) && AllIn(nodes, s) && AllIn(others, s) && Distinct(nodes)
    ensures Removed(nodes, 0) == nodes[1..]
    ensures Disjoint(nodes[1..], others) && AllIn(nodes[1..], s)
    ensures nodes[0] !in nodes[1..] && nodes[0] !in others && nodes[0] in s
  {
  }

  lemma AfterPut(nodes: seq<Node<Env>>, others: seq<Node<Env>>, e: Node<Env>, i: nat, s: set<Node<Env>>)
    requires i <= |nodes| && Disjoint(others, nodes) && AllIn(nodes, s) && e in s && e !in others
    ensures Disjoint(others, Inserted(nodes, i, e)) && AllIn(Inserted(nodes, i, e), s)
  {
  }

  lemma SidesAre(q: List<Env>, r: ReadyQueue, s: set<Node<Env>>)
    requires Sides(q, r, s)
    ensures q != r.list && q.Valid() && r.list.Valid() && r.Cursor() && Distinct(q.nodes)
    ensures Disjoint(q.nodes, r.list.nodes) && AllIn(q.nodes, s) && AllIn(r.list.nodes, s)
    ensures q.At(0) != null ==> |q.nodes| > 0 && q.At(0) == q.nodes[0]
  {
  }

  /** LIST_REMOVE of the first node of q, which shares no node with other. */
  method TakeFirst(q: List<Env>, ghost other: List<Env>, env: Node<Env>)
    requires q != other && q.Valid() && other.Valid() && Disjoint(q.nodes, other.nodes) && env == q.At(0)
    modifies q, q.nodes`next, q.nodes`prev
    ensures q.Valid() && other.Valid() && q.nodes == Removed(old(q.nodes), 0)
  {
    q.Remove(env, 0);
  }

  method SetStatus(q: List<Env>, r: ReadyQueue, env: Node<Env>, status: Status, ghost s: set<Node<Env>>)
    requires Sides(q, r, s)
    modifies env`data
    ensures Sides(q, r, s) && env.data == old(env.data).(status := status)
  {
    hide Distinct, Disjoint, AllIn, ReadyQueue.Cursor;
    env.data := env.data.(status := status);
  }

  /** sched_remove_new on the first new environment. */
  method RemoveNew(q: List<Env>, r: ReadyQueue, env: Node<Env>, ghost s: set<Node<Env>>)
    requires Sides(q, r, s) && env == q.At(0)
    modifies q, q.nodes`next, q.nodes`prev, env`data
    ensures Sides(q, r, s) && q.nodes == old(q.nodes[1..]) && env in s && env !in q.nodes && env !in r.list.nodes
    ensures r.Rotation() == old(r.Rotation())
    ensures env.data == old(env.data).(status := UNKNOWN)
  {
    SidesAre(q, r, s);
    hide Distinct, Disjoint, AllIn, Removed, List<Env>.Valid, ReadyQueue.Cursor;
    AfterTake(q.nodes, r.list.nodes, s);
    TakeFirst(q, r.list, env);
    SetStatus(q, r, env, UNKNOWN, s);
  }

  method PutReady(ghost q: List<Env>, r: ReadyQueue, env: Node<Env>)
    requires q != r.list && q.Valid() && r.Valid() && Disjoint(q.nodes, r.list.nodes)
    requires env !in q.nodes && env !in r.list.nodes
    modifies r, r.list, r.list.nodes`next, r.list.nodes`prev, env`next, env`prev
    ensures q.Valid() && q.nodes == old(q.nodes) && r.Valid() && r.Rotation() == old(r.Rotation()) + [env]
    ensures old(r.at) <= |old(r.list.nodes)| && r.list.nodes == Inserted(old(r.list.nodes), old(r.at), env)
  {
    hide Distinct, Inserted, ReadyQueue.Rotation;
    r.Insert(env);
  }

  /** sched_insert_ready on an environment that is on no list. */
  method InsertReady(q: List<Env>, r: ReadyQueue, env: Node<Env>, ghost s: set<Node<Env>>)
    requires Sides(q, r, s) && env in s && env !in q.nodes && env !in r.list.nodes
    modifies r, r.list, r.list.nodes`next, r.list.nodes`prev, env
    ensures Sides(q, r, s) && q.nodes == old(q.nodes)
    ensures r.Rotation() == old(r.Rotation()) + [env]
    ensures env.data == old(env.data).(status := READY)
  {
    hide Distinct, Disjoint, AllIn, ReadyQueue.Cursor, ReadyQueue.Rotation, List<Env>.Valid;
    r.ItemIsCursor();
    AfterPut(r.list.nodes, q.nodes, env, r.at, s);
    SetStatus(q, r, env, READY, s);
    PutReady(q, r, env);
  }

  method MoveOne(q: List<Env>, r: ReadyQueue, env: Node<Env>, ghost s: set<Node<Env>>)
    requires Sides(q, r, s) && env == q.At(0)
    modifies q, r, r.list, s
    ensures Sides(q, r, s) && q.nodes == old(q.nodes[1..])
    ensures r.Rotation() == old(r.Rotation()) + [env]
    ensures env.data == old(env.data).(status := READY)
    ensures forall n :: n in s && n != env ==> n.data == old(n.data)
  {
    NodesInside(q, r, s);
    FirstNodes(q, r, s);
    hide Sides, ReadyQueue.Rotation;
    RemoveNew(q, r, env, s);
    NodesInside(q, r, s);
    InsertReady(q, r, env, s);
  }

  lemma FirstNodes(q: List<Env>, r: ReadyQueue, s: set<Node<Env>>)
    requires Sides(q, r, s)
    ensures q.first == q.At(0) && (q.first != null ==> q.first.next == q.At(1))
    ensures q.At(0) == null <==> q.nodes == []
    ensures |q.nodes| <= 1 ==> q.At(1) == null
    ensures |q.nodes| > 0 ==> q.At(0) == q.nodes[0] && (|q.nodes| > 1 ==> q.At(1) == q.nodes[1] == q.nodes[1..][0])
  {
  }

  lemma Slide<T>(all: seq<T>, rot: seq<T>, k: nat)
    requires k < |all|
    ensures all[k..][1..] == all[k + 1..] && all[k..][0] == all[k]
    ensures rot + all[..k + 1] == (rot + all[..k]) + [all[k]]
    ensures forall x :: x in all[..k + 1] <==> x in all[..k] || x == all[k]
  {
  }

  /**
   sched_run_all.  The loop is LIST_FOREACH: the successor is saved before the
   body runs, because the body takes the current node off the list.
   */
  method RunAll(q: List<Env>, r: ReadyQueue, ghost s: set<Node<Env>>)
    requires Sides(q, r, s)
    modifies q, r, r.list, s
    ensures Sides(q, r, s) && q.nodes == []
    ensures r.Rotation() == old(r.Rotation()) + old(q.nodes)
    ensures forall n :: n in s ==> n.data == if n in old(q.nodes) then old(n.data).(status := READY) else old(n.data)
  {
    hide *;
    ghost var all := q.nodes;
    ghost var rot := r.Rotation();
    ghost var k := 0;
    FirstNodes(q, r, s);
    var ptr := q.first;
    var saved := if ptr == null then null else ptr.next;
    while saved != null || ptr != null
      invariant k <= |all| && q.nodes == all[k..] && Sides(q, r, s)
      invariant ptr == q.At(0) && (ptr != null ==> saved == q.At(1)) && (ptr == null ==> saved == null)
      invariant r.Rotation() == rot + all[..k]
      invariant forall n :: n in s ==> n.data == if n in all[..k] then old(n.data).(status := READY) else old(n.data)
      decreases |all| - k
    {
      FirstNodes(q, r, s);
      Slide(all, rot, k);
      MoveOne(q, r, ptr, s);
      k := k + 1;
      ptr := saved;
      FirstNodes(q, r, s);
      saved := if ptr == null then null else ptr.next;
    }
    FirstNodes(q, r, s);
    assert all[..k] == all;
  }

  // ----- blocking and waking -----

  lemma AfterTakeAt(nodes: seq<Node<Env>>, others: seq<Node<Env>>, i: nat, s: set<Node<Env>>)
    requires i < |nodes| && Disjoint(nodes, others) && AllIn(nodes, s) && Distinct(nodes)
    ensures Disjoint(Removed(nodes, i), others) && AllIn(Removed(nodes, i), s)
    ensures nodes[i] !in Removed(nodes, i) && nodes[i] !in others && nodes[i] in s
    ensures i == |nodes| - 1 ==> Removed(nodes, i) == nodes[..i]
  {
  }

  lemma DisjointBoth(a: seq<Node<Env>>, b: seq<Node<Env>>)
    requires Disjoint(a, b)
    ensures Disjoint(b, a)
  {
  }

  /** sched_remove_ready, next to a queue that shares no node with the ready list. */
  method TakeReady(ghost q: List<Env>, r: ReadyQueue, env: Node<Env>, ghost i: nat)
    requires q != r.list && q.Valid() && r.Valid() && Disjoint(q.nodes, r.list.nodes)
    requires i < |r.list.nodes| && env == r.list.nodes[i]
    modifies r, r.list, r.list.nodes`next, r.list.nodes`prev
    ensures q.Valid() && q.nodes == old(q.nodes) && r.Valid()
    ensures r.list.nodes == Removed(old(r.list.nodes), i)
    ensures r.Rotation() == RR.Next(old(r.Rotation()), RR.Remove(env))
  {
    hide Distinct, Removed, RR.Next, ReadyQueue.Rotation;
    r.Remove(env, i);
  }

  method PutHead(q: List<Env>, ghost r: ReadyQueue, env: Node<Env>)
    requires q != r.list && q.Valid() && r.Valid() && Disjoint(q.nodes, r.list.nodes)
    requires env !in q.nodes && env !in r.list.nodes
    modifies q, q.nodes`next, q.nodes`prev, env`next, env`prev
    ensures q.Valid() && q.nodes == [env] + old(q.nodes) == Inserted(old(q.nodes), 0, env)
    ensures r.Valid() && r.Rotation() == old(r.Rotation())
  {
    hide Distinct, Inserted, ReadyQueue.Rotation;
    q.InsertHead(env);
  }

  /** sched_remove_ready */
  method RemoveReady(q: List<Env>, r: ReadyQueue, env: Node<Env>, ghost i: nat, ghost s: set<Node<Env>>)
    requires Sides(q, r, s) && i < |r.list.nodes| && env == r.list.nodes[i]
    modifies r, r.list, r.list.nodes`next, r.list.nodes`prev, env`data
    ensures Sides(q, r, s) && q.nodes == old(q.nodes) && env in s && env !in q.nodes && env !in r.list.nodes
    ensures r.Rotation() == RR.Next(old(r.Rotation()), RR.Remove(env))
    ensures env.data == old(env.data).(status := UNKNOWN)
  {
    SidesAre(q, r, s);
    NodesDistinct(r.list);
    DisjointBoth(q.nodes, r.list.nodes);
    hide Distinct, Disjoint, AllIn, Removed, List<Env>.Valid, ReadyQueue.Cursor, ReadyQueue.Rotation, RR.Next;
    AfterTakeAt(r.list.nodes, q.nodes, i, s);
    TakeReady(q, r, env, i);
    DisjointBoth(r.list.nodes, q.nodes);
    SetStatus(q, r, env, UNKNOWN, s);
  }

  /** enqueue, and the status waitSemaphore gives. */
  method Enqueue(q: List<Env>, r: ReadyQueue, env: Node<Env>, ghost s: set<Node<Env>>)
    requires Sides(q, r, s) && env in s && env !in q.nodes && env !in r.list.nodes
    modifies q, q.nodes`next, q.nodes`prev, env
    ensures Sides(q, r, s) && q.nodes == [env] + old(q.nodes) && r.Rotation() == old(r.Rotation())
    ensures env.data == old(env.data).(status := BLOCKED)
  {
    SidesAre(q, r, s);
    DisjointBoth(q.nodes, r.list.nodes);
    hide Distinct, Disjoint, AllIn, Inserted, List<Env>.Valid, ReadyQueue.Cursor, ReadyQueue.Rotation;
    AfterPut(q.nodes, r.list.nodes, env, 0, s);
    PutHead(q, r, env);
    DisjointBoth(r.list.nodes, q.nodes);
    SetStatus(q, r, env, BLOCKED, s);
  }

  /** What waitSemaphore does with an environment it blocks: off the ready list, to the head of the semaphore's queue. */
  method BlockEnv(q: List<Env>, r: ReadyQueue, env: Node<Env>, ghost i: nat, ghost s: set<Node<Env>>)
    requires Sides(q, r, s) && i < |r.list.nodes| && env == r.list.nodes[i]
    modifies q, r, r.list, q.nodes`next, q.nodes`prev, r.list.nodes`next, r.list.nodes`prev, env
    ensures Sides(q, r, s) && q.nodes == [env] + old(q.nodes)
    ensures r.Rotation() == RR.Next(old(r.Rotation()), RR.Remove(env))
    ensures env.data == old(env.data).(status := BLOCKED)
    ensures forall n :: n in s && n != env ==> n.data == old(n.data)
  {
    hide *;
    RemoveReady(q, r, env, i, s);
    Enqueue(q, r, env, s);
  }

  lemma NodesInside(q: List<Env>, r: ReadyQueue, s: set<Node<Env>>)
    requires Sides(q, r, s)
    ensures AllIn(q.nodes, s) && AllIn(r.list.nodes, s)
    ensures forall x :: x in q.nodes || x in r.list.nodes ==> x in s
  {
  }

  lemma NodesDistinct(q: List<Env>)
    requires q.Valid()
    ensures Distinct(q.nodes) && q.last == q.At(|q.nodes| - 1)
    ensures q.nodes != [] ==> q.last == q.nodes[|q.nodes| - 1]
  {
  }

  /** dequeue: LIST_LAST and LIST_REMOVE. */
  method TakeLast(q: List<Env>, ghost r: ReadyQueue) returns (env: Node<Env>)
    requires q != r.list && q.Valid() && r.Valid() && Disjoint(q.nodes, r.list.nodes) && q.nodes != []
    modifies q, q.nodes`next, q.nodes`prev
    ensures q.Valid() && env == old(q.nodes)[|old(q.nodes)| - 1] && q.nodes == Removed(old(q.nodes), |old(q.nodes)| - 1)
    ensures r.Valid() && r.Rotation() == old(r.Rotation())
  {
    NodesDistinct(q);
    hide Distinct, Removed, ReadyQueue.Rotation;
    env := q.last;
    q.Remove(env, |q.nodes| - 1);
  }

  /** What signalSemaphore does when somebody waits: the oldest goes from the semaphore's queue to the ready list. */
  method WakeOldest(q: List<Env>, r: ReadyQueue, ghost s: set<Node<Env>>) returns (env: Node<Env>)
    requires Sides(q, r, s) && q.nodes != []
    modifies q, r, r.list, s
    ensures Sides(q, r, s) && env == old(q.nodes)[|old(q.nodes)| - 1] && q.nodes == old(q.nodes)[..|old(q.nodes)| - 1]
    ensures r.Rotation() == old(r.Rotation()) + [env]
    ensures env.data == old(env.data).(status := READY)
    ensures forall n :: n in s && n != env ==> n.data == old(n.data)
  {
    SidesAre(q, r, s);
    hide Distinct, Disjoint, AllIn, Removed, List<Env>.Valid, ReadyQueue.Cursor, ReadyQueue.Rotation;
    AfterTakeAt(q.nodes, r.list.nodes, |q.nodes| - 1, s);
    env := TakeLast(q, r);
    InsertReady(q, r, env, s);
  }
}
