// The linked list that holds the processes and their queues: nodes with a link in them, a head, a
// tail and a count, changed in place; the list is the sequence of its nodes.
module IntrusiveList {
  import opened Finite

  class Node<T> {
    const item: T
    var next: Node?<T>

    constructor (value: T)
      ensures item == value && next == null
    {
      item, next := value, null;
    }
  }

  class LinkedList<T> {
    ghost var nodes: seq<Node<T>>
    var head: Node?<T>
    var tail: Node?<T>
    var count: nat

    // Head, tail and links are those of the sequence, in which no node is twice.
    ghost predicate Valid()
      reads this, nodes
    {
      && Distinct(nodes) && count == |nodes|
      && head == NodeAt(nodes, 0) && tail == NodeAt(nodes, |nodes| - 1)
      && forall i :: 0 <= i < |nodes| ==> nodes[i].next == NodeAt(nodes, i + 1)
    }

    constructor ()
      ensures Valid() && nodes == []
    {
      nodes, head, tail, count := [], null, null, 0;
    }

    method PushBack(node: Node<T>)
      requires Valid() && node !in nodes
      modifies this, node, nodes
      ensures Valid() && nodes == old(nodes) + [node]
    {
      node.next := null;
      if tail != null { tail.next := node; } else { head := node; }
      tail := node;
      count := count + 1;
      nodes := nodes + [node];
    }

    method PushFront(node: Node<T>)
      requires Valid() && node !in nodes
      modifies this, node
      ensures Valid() && nodes == [node] + old(nodes)
    {
      node.next := head;
      if head == null { tail := node; }
      head := node;
      count := count + 1;
      nodes := [node] + nodes;
    }

    method PopFront() returns (node: Node?<T>)
      requires Valid()
      modifies this
      ensures Valid() && node == NodeAt(old(nodes), 0)
      ensures nodes == if old(nodes) == [] then [] else old(nodes)[1..]
    {
      if head == null { return null; }
      node := head;
      head := head.next;
      if head == null { tail := null; }
      count := count - 1;
      nodes := nodes[1..];
    }

    // The node p behind prev taken out.
    method Unlink(prev: Node?<T>, p: Node<T>, ghost i: nat)
      requires Valid() && i < |nodes| && p == nodes[i] && prev == NodeAt(nodes, i - 1)
      modifies this, nodes
      ensures Valid() && nodes == Dropped(old(nodes), i)
    {
      if prev != null { prev.next := p.next; } else { head := p.next; }
      if p == tail { tail := prev; }
      count := count - 1;
      DroppedNodes(nodes, i);
      nodes := Dropped(nodes, i);
    }

    // Taken out wherever it is.
    method Remove(target: Node<T>) returns (found: bool)
      requires Valid()
      modifies this, nodes
      ensures Valid() && (found <==> target in old(nodes))
      ensures found ==> exists i | 0 <= i < |old(nodes)| :: old(nodes)[i] == target && nodes == Dropped(old(nodes), i)
      ensures !found ==> nodes == old(nodes)
    {
      var prev: Node?<T> := null;
      var p := head;
      ghost var i := 0;
      while p != null
        invariant Valid() && nodes == old(nodes) && 0 <= i <= |nodes| && target !in nodes[..i]
        invariant p == NodeAt(nodes, i) && prev == NodeAt(nodes, i - 1)
        decreases |nodes| - i
      {
        if p == target {
          Unlink(prev, p, i);
          return true;
        }
        prev := p;
        p := p.next;
        i := i + 1;
      }
      return false;
    }
  }

  function NodeAt<T>(nodes: seq<Node<T>>, i: int): Node?<T> {
    if 0 <= i < |nodes| then nodes[i] else null
  }

  lemma DroppedNodes<T>(nodes: seq<Node<T>>, i: nat)
    requires Distinct(nodes) && i < |nodes|
    ensures Distinct(Dropped(nodes, i))
    ensures forall j :: NodeAt(Dropped(nodes, i), j) == NodeAt(nodes, if j < i then j else j + 1)
  {
  }
}
