/**
 The intrusive doubly linked lists of inc/queue.h.

 A node carries its own two links, so it can be on one list at a time; the list
 header keeps the first node, the last node and a size.  The ghost sequence
 `nodes` is what the list stands for, and `Valid` ties every link to it.  Each
 macro is a method whose contract is the sequence operation it performs.
 */
module Queue {

  /** LIST_ENTRY plus the rest of the structure it is embedded in. */
  class Node<T> {
    var next: Node?<T>
    var prev: Node?<T>
    var data: T

    constructor (data: T)
      ensures this.data == data && next == null && prev == null
    {
      this.data := data;
      next, prev := null, null;
    }
  }

  /** The payloads of the given nodes, in order. */
  ghost function Contents<T>(nodes: seq<Node<T>>): (c: seq<T>)
    reads nodes
    ensures |c| == |nodes| && forall i :: 0 <= i < |nodes| ==> c[i] == nodes[i].data
  {
    seq(|nodes|, i requires 0 <= i < |nodes| reads nodes => nodes[i].data)
  }

  ghost predicate Distinct<T>(nodes: seq<Node<T>>) {
    forall i, j :: 0 <= i < j < |nodes| ==> nodes[i] != nodes[j]
  }

  /** No node is on both lists. */
  ghost predicate Disjoint<T>(a: seq<Node<T>>, b: seq<Node<T>>) {
    && (forall i {:trigger a[i]} :: 0 <= i < |a| ==> a[i] !in b)
    && (forall i {:trigger b[i]} :: 0 <= i < |b| ==> b[i] !in a)
  }

  /** `nodes` with `elm` put in at position i. */
  ghost function Inserted<T>(nodes: seq<Node<T>>, i: nat, elm: Node<T>): (r: seq<Node<T>>)
    requires i <= |nodes|
    ensures |r| == |nodes| + 1 && r[i] == elm
    ensures forall k {:trigger r[k]} :: 0 <= k < i ==> r[k] == nodes[k]
    ensures forall k {:trigger r[k]} :: i < k <= |nodes| ==> r[k] == nodes[k - 1]
    ensures Distinct(nodes) && elm !in nodes ==> Distinct(r)
  {
    nodes[..i] + [elm] + nodes[i..]
  }

  ghost function Removed<T>(nodes: seq<Node<T>>, i: nat): (r: seq<Node<T>>)
    requires i < |nodes|
    ensures |r| == |nodes| - 1
    ensures forall k {:trigger r[k]} :: 0 <= k < i ==> r[k] == nodes[k]
    ensures forall k {:trigger r[k]} :: i <= k < |r| ==> r[k] == nodes[k + 1]
    ensures Distinct(nodes) ==> Distinct(r) && nodes[i] !in r
  {
    nodes[..i] + nodes[i + 1..]
  }

  ghost function Item<T>(nodes: seq<Node<T>>, i: int): Node?<T> {
    if 0 <= i < |nodes| then nodes[i] else null
  }

  class List<T> {
    var first: Node?<T>
    var last: Node?<T>
    var size: nat
    ghost var nodes: seq<Node<T>>

    ghost function At(i: int): (n: Node?<T>)
      reads this
    {
      Item(nodes, i)
    }

    ghost predicate Valid()
      reads this, nodes
    {
      && Distinct(nodes)
      && size == |nodes|
      && first == At(0)
      && last == At(|nodes| - 1)
      && (forall i {:trigger nodes[i].next} :: 0 <= i < |nodes| ==> nodes[i].next == At(i + 1))
      && (forall i {:trigger nodes[i].prev} :: 0 <= i < |nodes| ==> nodes[i].prev == At(i - 1))
    }

    /** LIST_INIT */
    constructor ()
      ensures Valid() && nodes == []
    {
      first, last, size := null, null, 0;
      nodes := [];
    }

    /** Links of s that detour over elm between i - 1 and i are the links of the longer list. */
    lemma DetourIsInserted(s: seq<Node<T>>, i: nat, elm: Node<T>)
      requires Distinct(s) && i <= |s| && elm !in s && nodes == Inserted(s, i, elm) && size == |nodes|
      requires first == At(0) && last == At(|nodes| - 1)
      requires elm.next == Item(s, i) && elm.prev == Item(s, i - 1)
      requires forall k {:trigger s[k].next} :: 0 <= k < |s| ==>
                 s[k].next == if k == i - 1 then elm else Item(s, k + 1)
      requires forall k {:trigger s[k].prev} :: 0 <= k < |s| ==>
                 s[k].prev == if k == i then elm else Item(s, k - 1)
      ensures Valid()
    {
      forall k | 0 <= k < |nodes|
        ensures nodes[k].next == At(k + 1) && nodes[k].prev == At(k - 1)
      {
        if k != i {
          assert nodes[k] == s[if k < i then k else k - 1];
        }
      }
    }

    method InsertAfter(listelm: Node<T>, elm: Node<T>, ghost i: nat)
      requires Valid() && i < |nodes| && nodes[i] == listelm && elm !in nodes
      modifies this, nodes`next, nodes`prev, elm`next, elm`prev
      ensures Valid() && nodes == Inserted(old(nodes), i + 1, elm)
    {
      elm.next := listelm.next;
      if elm.next != null {
        listelm.next.prev := elm;
      }
      listelm.next := elm;
      elm.prev := listelm;
      if elm.next == null {
        last := elm;
      }
      size := size + 1;
      ghost var s := nodes;
      nodes := Inserted(s, i + 1, elm);
      DetourIsInserted(s, i + 1, elm);
    }

    method InsertBefore(listelm: Node<T>, elm: Node<T>, ghost i: nat)
      requires Valid() && i < |nodes| && nodes[i] == listelm && elm !in nodes
      modifies this, nodes`next, nodes`prev, elm`next, elm`prev
      ensures Valid() && nodes == Inserted(old(nodes), i, elm)
    {
      elm.prev := listelm.prev;
      elm.next := listelm;
      if listelm.prev != null {
        listelm.prev.next := elm;
      } else {
        first := elm;
      }
      listelm.prev := elm;
      size := size + 1;
      ghost var s := nodes;
      nodes := Inserted(s, i, elm);
      DetourIsInserted(s, i, elm);
    }

    method InsertHead(elm: Node<T>)
      requires Valid() && elm !in nodes
      modifies this, nodes`next, nodes`prev, elm`next, elm`prev
      ensures Valid() && nodes == Inserted(old(nodes), 0, elm) == [elm] + old(nodes)
    {
      elm.next := first;
      if elm.next != null {
        first.prev := elm;
      } else {
        last := elm;
      }
      first := elm;
      elm.prev := null;
      size := size + 1;
      assert [elm] + nodes == Inserted(nodes, 0, elm);
      nodes := [elm] + nodes;
    }

    method InsertTail(elm: Node<T>)
      requires Valid() && elm !in nodes
      modifies this, nodes`next, nodes`prev, elm`next, elm`prev
      ensures Valid() && nodes == Inserted(old(nodes), |old(nodes)|, elm) == old(nodes) + [elm]
    {
      elm.prev := last;
      if elm.prev != null {
        last.next := elm;
      } else {
        first := elm;
      }
      last := elm;
      elm.next := null;
      size := size + 1;
      assert nodes + [elm] == Inserted(nodes, |nodes|, elm);
      nodes := nodes + [elm];
    }

    /** Links that skip index i of s are the links of the list without it. */
    lemma SkippedIsRemoved(s: seq<Node<T>>, i: nat)
      requires Distinct(s) && i < |s| && nodes == Removed(s, i) && size == |nodes|
      requires first == At(0) && last == At(|nodes| - 1)
      requires forall k {:trigger s[k].next} :: 0 <= k < |s| && k != i ==>
                 s[k].next == Item(s, if k == i - 1 then i + 1 else k + 1)
      requires forall k {:trigger s[k].prev} :: 0 <= k < |s| && k != i ==>
                 s[k].prev == Item(s, if k == i + 1 then i - 1 else k - 1)
      ensures Valid()
    {
      forall k | 0 <= k < |nodes|
        ensures nodes[k].next == At(k + 1) && nodes[k].prev == At(k - 1)
      {
        assert nodes[k] == s[if k < i then k else k + 1];
      }
    }

    method Remove(elm: Node<T>, ghost i: nat)
      requires Valid() && i < |nodes| && nodes[i] == elm
      modifies this, nodes`next, nodes`prev
      ensures Valid() && nodes == Removed(old(nodes), i)
      ensures elm.next == null && elm.prev == null && elm !in nodes
    {
      if elm.next != null {
        elm.next.prev := elm.prev;
      } else {
        last := elm.prev;
      }
      if elm.prev != null {
        elm.prev.next := elm.next;
      } else {
        first := elm.next;
      }
      elm.next := null;
      elm.prev := null;
      size := size - 1;
      ghost var s := nodes;
      nodes := Removed(s, i);
      SkippedIsRemoved(s, i);
    }
  }
}
