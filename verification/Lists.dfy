/**
 The doubly linked list of src/list.c. A list is a pointer to its first node;
 every node has a `last` link, but only the first node's is kept up to date,
 so the links of all other nodes may be stale. Each operation is proved
 against the sequence of nodes it works on.
 */
module Lists {
  import opened Sequences

  class Node<T> {
    var data: T
    var prev: Node?<T>
    var next: Node?<T>
    var last: Node?<T>

    constructor (data: T)
      ensures this.data == data && prev == next == last == null
    {
      this.data := data;
      prev, next, last := null, null, null;
    }
  }

  ghost predicate Linked<T>(nodes: seq<Node<T>>)
    reads nodes
  {
    && (forall i {:trigger nodes[i].next} :: 0 <= i < |nodes| - 1 ==> nodes[i].next == nodes[i + 1])
    && (forall i {:trigger nodes[i].prev} :: 0 < i < |nodes| ==> nodes[i].prev == nodes[i - 1])
  }

  ghost predicate IsList<T>(head: Node?<T>, nodes: seq<Node<T>>)
    reads nodes
  {
    && Distinct(nodes)
    && Linked(nodes)
    && if nodes == [] then head == null
       else
         var end := nodes[|nodes| - 1];
         head == nodes[0] && head.prev == null && head.last == end && end.next == null
  }

  ghost function Contents<T>(nodes: seq<Node<T>>): seq<T>
    reads nodes
  {
    seq(|nodes|, i requires 0 <= i < |nodes| reads nodes => nodes[i].data)
  }

  method AddHead<T>(list: Node?<T>, data: T, ghost nodes: seq<Node<T>>) returns (r: Node<T>)
    requires IsList(list, nodes)
    modifies nodes
    ensures fresh(r) && IsList(r, [r] + nodes)
    ensures Contents([r] + nodes) == [data] + old(Contents(nodes))
  {
    r := new Node(data);
    r.next := list;
    if list == null {
      r.last := r;
    } else {
      r.last := list.last;
      list.prev := r;
    }
    ghost var all := [r] + nodes;
    assert forall i :: 0 < i < |all| ==> all[i] == nodes[i - 1];
  }

  method AddTail<T>(list: Node?<T>, data: T, ghost nodes: seq<Node<T>>)
    returns (r: Node<T>, ghost node: Node<T>)
    requires IsList(list, nodes)
    modifies nodes
    ensures fresh(node) && IsList(r, nodes + [node])
    ensures Contents(nodes + [node]) == old(Contents(nodes)) + [data]
  {
    var created := new Node(data);
    node := created;
    if list == null {
      created.last := created;
      return created, node;
    }
    created.prev := list.last;
    list.last.next := created;
    list.last := created;
    r := list;
  }

  ghost function Inserted<X>(s: seq<X>, k: nat, x: X): (r: seq<X>)
    requires k <= |s|
    ensures |r| == |s| + 1 && r[k] == x
    ensures forall i :: 0 <= i < k ==> r[i] == s[i]
    ensures forall i :: k < i < |r| ==> r[i] == s[i - 1]
  {
    s[..k] + [x] + s[k..]
  }

  lemma InsertedDistinct<T>(nodes: seq<Node<T>>, k: nat, node: Node<T>)
    requires k <= |nodes| && Distinct(nodes) && node !in nodes
    ensures Distinct(Inserted(nodes, k, node))
  {
  }

  lemma InsertedAtEnds<X>(s: seq<X>, x: X)
    ensures Inserted(s, 0, x) == [x] + s && Inserted(s, |s|, x) == s + [x]
  {
  }

  /** `dest` is the node at place k, or null for the end of the list. */
  method InsertAt<T>(list: Node?<T>, dest: Node?<T>, data: T, ghost nodes: seq<Node<T>>, ghost k: nat)
    returns (r: Node<T>, ghost node: Node<T>)
    requires IsList(list, nodes) && k <= |nodes|
    requires dest == if k < |nodes| then nodes[k] else null
    modifies nodes
    ensures fresh(node) && IsList(r, Inserted(nodes, k, node))
    ensures Contents(Inserted(nodes, k, node)) == Inserted(old(Contents(nodes)), k, data)
  {
    if dest == list {
      r := AddHead(list, data, nodes);
      node := r;
      InsertedAtEnds(nodes, node);
      InsertedAtEnds(old(Contents(nodes)), data);
    } else if dest == null {
      r, node := AddTail(list, data, nodes);
      InsertedAtEnds(nodes, node);
      InsertedAtEnds(old(Contents(nodes)), data);
    } else {
      r, node := InsertBetween(list, dest, data, nodes, k);
    }
  }

  method InsertBetween<T>(list: Node<T>, dest: Node<T>, data: T, ghost nodes: seq<Node<T>>, ghost k: nat)
    returns (r: Node<T>, ghost node: Node<T>)
    requires IsList(list, nodes) && 0 < k < |nodes| && dest == nodes[k]
    modifies nodes
    ensures fresh(node) && IsList(r, Inserted(nodes, k, node))
    ensures Contents(Inserted(nodes, k, node)) == Inserted(old(Contents(nodes)), k, data)
  {
    var created := new Node(data);
    node := created;
    LinkBefore(created, dest, nodes, k);
    r := list;
    assert Contents(nodes) == old(Contents(nodes));
    ContentsInserted(nodes, k, node);
  }

  method LinkBefore<T>(created: Node<T>, dest: Node<T>, ghost nodes: seq<Node<T>>, ghost k: nat)
    requires 0 < k < |nodes| && dest == nodes[k] && created !in nodes && IsList(nodes[0], nodes)
    modifies nodes, created
    ensures IsList(nodes[0], Inserted(nodes, k, created))
    ensures created.data == old(created.data) && forall n :: n in nodes ==> n.data == old(n.data)
  {
    InsertedDistinct(nodes, k, created);
    created.prev := dest.prev;
    created.next := dest;
    dest.prev.next := created;
    dest.prev := created;
    ghost var all := Inserted(nodes, k, created);
    assert all[|nodes|] == nodes[|nodes| - 1];
    assert Linked(all) by {
      forall i | 0 <= i < |nodes|
        ensures all[i].next == all[i + 1] && all[i + 1].prev == all[i]
      {
        assert i < k - 1 ==> all[i] == nodes[i] && all[i + 1] == nodes[i + 1];
        assert k < i ==> all[i] == nodes[i - 1] && all[i + 1] == nodes[i];
      }
    }
  }

  lemma ContentsInserted<T>(nodes: seq<Node<T>>, k: nat, node: Node<T>)
    requires k <= |nodes|
    ensures Contents(Inserted(nodes, k, node)) == Inserted(Contents(nodes), k, node.data)
  {
  }

  lemma WithoutDistinct<T>(nodes: seq<Node<T>>, k: nat)
    requires k < |nodes| && Distinct(nodes)
    ensures Distinct(Without(nodes, k)) && nodes[k] !in Without(nodes, k)
  {
  }

  /** The deleted node was the one at place k. */
  method Delete<T>(list: Node<T>, node: Node<T>, ghost nodes: seq<Node<T>>, ghost k: nat)
    returns (first: Node?<T>)
    requires IsList(list, nodes) && k < |nodes| && node == nodes[k]
    modifies nodes
    ensures IsList(first, Without(nodes, k))
    ensures Contents(Without(nodes, k)) == Without(old(Contents(nodes)), k)
  {
    WithoutDistinct(nodes, k);
    if node.prev != null {
      node.prev.next := node.next;
    }
    if node.next != null {
      node.next.prev := node.prev;
    }
    if node == list {
      if node.next != null {
        node.next.last := node.last;
        first := node.next;
      } else {
        first := null;
      }
    } else {
      first := list;
    }
    if node == list.last {
      list.last := node.prev;
    }
    assert forall n :: n in nodes ==> n.data == old(n.data);
    assert Contents(nodes) == old(Contents(nodes));
  }

  /** The first node that holds `data`, if any does. */
  method Find<T(==)>(list: Node?<T>, data: T, ghost nodes: seq<Node<T>>) returns (r: Node?<T>)
    requires IsList(list, nodes)
    ensures r == null ==> forall n :: n in nodes ==> n.data != data
    ensures r != null ==> exists k :: 0 <= k < |nodes| && r == nodes[k] && r.data == data
                            && forall i :: 0 <= i < k ==> nodes[i].data != data
  {
    r := list;
    ghost var k := 0;
    while r != null
      invariant k <= |nodes| && r == if k < |nodes| then nodes[k] else null
      invariant forall i :: 0 <= i < k ==> nodes[i].data != data
      decreases |nodes| - k
    {
      if r.data == data {
        return;
      }
      r := r.next;
      k := k + 1;
    }
  }

  ghost function FirstMovedTo<T>(nodes: seq<Node<T>>, k: nat): (moved: seq<Node<T>>)
    requires 2 <= k <= |nodes|
    ensures |moved| == |nodes| && moved[k - 1] == nodes[0]
    ensures forall i :: 0 <= i < k - 1 ==> moved[i] == nodes[i + 1]
    ensures forall i :: k <= i < |nodes| ==> moved[i] == nodes[i]
  {
    nodes[1..k] + [nodes[0]] + nodes[k..]
  }

  lemma FirstMovedDistinct<T>(nodes: seq<Node<T>>, k: nat)
    requires 2 <= k <= |nodes| && Distinct(nodes)
    ensures Distinct(FirstMovedTo(nodes, k))
  {
  }

  /** Moves the first node before the node at place k, or to the end; the links
      that pass through the moved node are rewired in place. */
  method MoveFirstTo<T>(list: Node<T>, dest: Node?<T>, ghost nodes: seq<Node<T>>, ghost k: nat)
    returns (r: Node<T>)
    requires IsList(list, nodes) && k <= |nodes|
    requires dest == if k < |nodes| then nodes[k] else null
    modifies nodes
    ensures IsList(r, if k < 2 then nodes else FirstMovedTo(nodes, k))
    ensures forall n :: n in nodes ==> n.data == old(n.data)
  {
    if dest == list {
      return list;
    } else if list.next == dest {
      return list;
    }
    r := list.next;
    if dest != null {
      MoveBefore(list, dest, nodes, k);
    } else {
      MoveToEnd(list, nodes);
    }
  }

  method MoveBefore<T>(moved: Node<T>, dest: Node<T>, ghost nodes: seq<Node<T>>, ghost k: nat)
    requires IsList(moved, nodes) && 2 <= k < |nodes| && dest == nodes[k]
    modifies nodes
    ensures IsList(nodes[1], FirstMovedTo(nodes, k))
    ensures forall n :: n in nodes ==> n.data == old(n.data)
  {
    FirstMovedDistinct(nodes, k);
    var head := moved.next;
    head.prev := null;
    head.last := moved.last;
    moved.prev := dest.prev;
    moved.next := dest;
    dest.prev.next := moved;
    dest.prev := moved;
  }

  method MoveToEnd<T>(moved: Node<T>, ghost nodes: seq<Node<T>>)
    requires IsList(moved, nodes) && 2 <= |nodes|
    modifies nodes
    ensures IsList(nodes[1], FirstMovedTo(nodes, |nodes|))
    ensures forall n :: n in nodes ==> n.data == old(n.data)
  {
    FirstMovedDistinct(nodes, |nodes|);
    var head := moved.next;
    head.prev := null;
    head.last := moved;
    moved.last.next := moved;
    moved.prev := moved.last;
    moved.next := null;
  }
}
