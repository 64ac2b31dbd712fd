/**
 The head/tail doubly linked list of src/llist.c, on which every registry and
 queue of miau is built, and the walk of src/llist.h that may delete the node
 it stands on because it has fetched the next one first.
 */
module LinkedQueue {
  import opened Sequences

  class Node<T> {
    var data: T
    var next: Node?<T>
    var prev: Node?<T>

    constructor (data: T)
      ensures this.data == data && next == prev == null
    {
      this.data := data;
      next, prev := null, null;
    }
  }

  ghost predicate Linked<T>(nodes: seq<Node<T>>)
    reads nodes
  {
    && (forall i {:trigger nodes[i].next} :: 0 <= i < |nodes| ==>
          nodes[i].next == if i + 1 < |nodes| then nodes[i + 1] else null)
    && (forall i {:trigger nodes[i].prev} :: 0 <= i < |nodes| ==>
          nodes[i].prev == if 0 < i then nodes[i - 1] else null)
  }

  ghost function Contents<T>(nodes: seq<Node<T>>): seq<T>
    reads nodes
  {
    seq(|nodes|, i requires 0 <= i < |nodes| reads nodes => nodes[i].data)
  }

  /** Of the first v nodes with the given data, those whose data `drop` does not name. */
  function Kept<N, T>(nodes: seq<N>, data: seq<T>, drop: T -> bool, v: nat): seq<N>
    requires v <= |nodes| == |data|
  {
    if v == 0 then []
    else Kept(nodes, data, drop, v - 1) + if drop(data[v - 1]) then [] else [nodes[v - 1]]
  }

  /** A walk keeps a node exactly when its data is not named. */
  lemma {:induction false} KeptExactly<N, T>(nodes: seq<N>, data: seq<T>, drop: T -> bool, v: nat)
    requires v <= |nodes| == |data| && Distinct(nodes)
    ensures forall i :: 0 <= i < v ==> (nodes[i] in Kept(nodes, data, drop, v) <==> !drop(data[i]))
    ensures forall n :: n in Kept(nodes, data, drop, v) ==> n in nodes[..v]
  {
    if v != 0 {
      KeptExactly(nodes, data, drop, v - 1);
    }
  }

  lemma NextNode<X>(before: seq<X>, s: seq<X>, v: nat)
    requires v < |s|
    ensures before + s[v..] == before + [s[v]] + s[v + 1..]
    ensures s[..v + 1] == s[..v] + [s[v]]
  {
  }

  class List<T(==)> {
    var head: Node?<T>
    var tail: Node?<T>
    ghost var nodes: seq<Node<T>>

    ghost predicate Valid()
      reads this, nodes
    {
      && Distinct(nodes)
      && Linked(nodes)
      && head == (if nodes == [] then null else nodes[0])
      && tail == (if nodes == [] then null else nodes[|nodes| - 1])
    }

    constructor ()
      ensures Valid() && nodes == []
    {
      head, tail, nodes := null, null, [];
    }

    method Add(node: Node<T>)
      requires Valid() && node !in nodes
      modifies this, nodes, node
      ensures Valid() && nodes == [node] + old(nodes)
      ensures Contents(nodes) == [old(node.data)] + old(Contents(nodes))
    {
      node.next := head;
      node.prev := null;
      if head != null {
        head.prev := node;
      } else if tail == null {
        tail := node;
      }
      head := node;
      nodes := [node] + nodes;
      assert forall i :: 0 < i < |nodes| ==> nodes[i] == old(nodes)[i - 1];
    }

    method AddTail(node: Node<T>)
      requires Valid() && node !in nodes
      modifies this, nodes, node
      ensures Valid() && nodes == old(nodes) + [node]
      ensures Contents(nodes) == old(Contents(nodes)) + [old(node.data)]
    {
      node.next := null;
      node.prev := tail;
      if head == null {
        head := node;
      } else if tail != null {
        tail.next := node;
      }
      tail := node;
      nodes := nodes + [node];
    }

    method Delete(node: Node<T>, ghost k: nat)
      requires Valid() && k < |nodes| && node == nodes[k]
      modifies this, nodes
      ensures Valid() && nodes == Without(old(nodes), k)
      ensures forall n :: n in old(nodes) ==> n.data == old(n.data)
      ensures node.next == old(node.next)
    {
      if node.prev == null {
        head := node.next;
      } else {
        node.prev.next := node.next;
      }
      if node.next == null {
        tail := node.prev;
      } else {
        node.next.prev := node.prev;
      }
      nodes := Without(nodes, k);
    }

    method Find(data: T) returns (r: Node?<T>)
      requires Valid()
      ensures r == null ==> forall n :: n in nodes ==> n.data != data
      ensures r != null ==> exists k :: 0 <= k < |nodes| && r == nodes[k] && r.data == data
                              && forall i :: 0 <= i < k ==> nodes[i].data != data
    {
      r := head;
      ghost var k := 0;
      while r != null
        invariant k <= |nodes| && r == if k < |nodes| then nodes[k] else null
        invariant forall i :: 0 <= i < k ==> nodes[i].data != data
        decreases |nodes| - k
      {
        if r.data == data {
          return;
        }
        r := r.next;
        k := k + 1;
      }
    }

    /** Of the initial nodes `all`, the first v are dealt with. */
    ghost predicate Walking(all: seq<Node<T>>, data: seq<T>, drop: T -> bool, v: nat)
      reads this, all
    {
      && v <= |all| == |data| && nodes == Kept(all, data, drop, v) + all[v..]
      && (forall i :: 0 <= i < |nodes| ==> nodes[i] in all)
      && (forall i {:trigger all[i]} :: 0 <= i < |all| ==> all[i].data == data[i])
    }

    /** One turn of the walk: the next node is fetched before the body runs. */
    method WalkTurn(node: Node<T>, drop: T -> bool,
                    ghost all: seq<Node<T>>, ghost data: seq<T>, ghost v: nat, ghost before: seq<Node<T>>)
      returns (nextnode: Node?<T>, ghost visited: seq<Node<T>>)
      requires Valid() && Walking(all, data, drop, v) && before == all[..v]
      requires v < |all| && node == all[v]
      modifies this, all
      ensures Valid() && Walking(all, data, drop, v + 1) && visited == all[..v + 1]
      ensures nextnode == if v + 1 < |all| then all[v + 1] else null
    {
      visited := before + [node];
      ghost var kept := Kept(all, data, drop, v);
      NextNode(kept, all, v);
      assert nodes[|kept|] == node && (v + 1 < |all| ==> nodes[|kept| + 1] == all[v + 1]);
      nextnode := node.next;
      if drop(node.data) {
        Delete(node, |kept|);
        assert nodes == kept + all[v + 1..];
      }
    }

    /** A walk whose body deletes the current node when `drop` says so. It visits
        every initial node exactly once, in order, and leaves the others. */
    method WalkDeleting(drop: T -> bool) returns (ghost visited: seq<Node<T>>)
      requires Valid()
      modifies this, nodes
      ensures Valid()
      ensures visited == old(nodes)
      ensures nodes == Kept(old(nodes), old(Contents(nodes)), drop, |old(nodes)|)
      ensures forall n :: n in old(nodes) ==> n.data == old(n.data)
    {
      ghost var all, data := nodes, Contents(nodes);
      assert Walking(all, data, drop, 0);
      visited := WalkFrom(drop, all, data);
    }

    method WalkFrom(drop: T -> bool, ghost all: seq<Node<T>>, ghost data: seq<T>)
      returns (ghost visited: seq<Node<T>>)
      requires Valid() && nodes == all && Walking(all, data, drop, 0)
      modifies this, all
      ensures Valid() && visited == all && Walking(all, data, drop, |all|)
    {
      var node := head;
      visited := [];
      ghost var v := 0;
      while node != null
        invariant Valid() && Walking(all, data, drop, v) && visited == all[..v]
        invariant node == if v < |all| then all[v] else null
        decreases |all| - v
      {
        node, visited := WalkTurn(node, drop, all, data, v, visited);
        v := v + 1;
      }
      assert v == |all|;
    }
  }
}
