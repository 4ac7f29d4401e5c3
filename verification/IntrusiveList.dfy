/** The circular doubly linked list all queues are built from: on the heap, it behaves as a sequence. */
module IntrusiveList {

  /** A link embedded in its owner. Unlinked nodes have neither neighbours nor a container. */
  class Node {
    var next: Node?
    var prev: Node?
    var container: List?

    constructor ()
      ensures next == null && prev == null && container == null
    {
      next, prev, container := null, null, null;
    }

    /** What list_holding asserts of every node it is given. */
    ghost predicate Consistent()
      reads this
    {
      (next == null <==> prev == null) && (next == null <==> container == null)
    }

    method Holding() returns (linked: bool)
      requires Consistent()
      ensures linked <==> container != null
    {
      linked := next != null || prev != null;
    }
  }

  /** The nodes of a ring from its head round to its head again. */
  function At(head: Node, nodes: seq<Node>, i: nat): Node
    requires i <= |nodes| + 1
  {
    if i == 0 || i == |nodes| + 1 then head else nodes[i - 1]
  }

  ghost predicate LinkedAt(head: Node, nodes: seq<Node>, i: nat)
    requires i <= |nodes|
    reads head, nodes
  {
    At(head, nodes, i).next == At(head, nodes, i + 1) && At(head, nodes, i + 1).prev == At(head, nodes, i)
  }

  class List {
    const head: Node
    ghost var nodes: seq<Node>

    /** Links and containers agree with the sequence; no node is on it twice. */
    ghost predicate Valid()
      reads this, head, nodes
    {
      && head.container == null
      && (forall i :: 0 <= i <= |nodes| ==> LinkedAt(head, nodes, i))
      && (forall i :: 0 <= i < |nodes| ==> nodes[i].container == this)
      && (forall i, j :: 0 <= i < j < |nodes| ==> nodes[i] != nodes[j])
    }

    constructor ()
      ensures Valid() && nodes == [] && fresh(head)
    {
      head := new Node();
      nodes := [];
      new;
      head.next := head;
      head.prev := head;
    }

    /** Links node at the end, unless it is on a list already. */
    method Append(node: Node)
      requires Valid() && node.Consistent()
      modifies this, head, node, nodes
      ensures Valid() && node.Consistent()
      ensures nodes == if old(node.container) == null then old(nodes) + [node] else old(nodes)
      ensures old(node.container) != null ==> node.container == old(node.container)
    {
      var linked := node.Holding();
      if linked {
        return;
      }
      assert LinkedAt(head, nodes, |nodes|) && LinkedAt(head, nodes, 0);
      var last := head.prev;
      node.prev := last;
      node.next := head;
      last.next := node;
      head.prev := node;
      node.container := this;
      nodes := nodes + [node];
      forall i | 0 <= i <= |nodes| ensures LinkedAt(head, nodes, i) {
        assert i < |old(nodes)| ==> old(LinkedAt(head, nodes, i));
      }
    }

    /** Links node at the front, unless it is on a list already. */
    method Prepend(node: Node)
      requires Valid() && node.Consistent()
      modifies this, head, node, nodes
      ensures Valid() && node.Consistent()
      ensures nodes == if old(node.container) == null then [node] + old(nodes) else old(nodes)
      ensures old(node.container) != null ==> node.container == old(node.container)
    {
      var linked := node.Holding();
      if linked {
        return;
      }
      assert LinkedAt(head, nodes, |nodes|) && LinkedAt(head, nodes, 0);
      var first := head.next;
      node.next := first;
      node.prev := head;
      first.prev := node;
      head.next := node;
      node.container := this;
      nodes := [node] + nodes;
      forall i | 0 <= i <= |nodes| ensures LinkedAt(head, nodes, i) {
        assert i > 1 ==> old(LinkedAt(head, nodes, i - 1));
      }
    }

    /** Unlinks a node from wherever it stands. */
    method Delete(node: Node, ghost k: nat)
      requires Valid() && k < |nodes| && nodes[k] == node
      modifies this, head, nodes
      ensures Valid() && nodes == old(nodes)[..k] + old(nodes)[k + 1..]
      ensures node.next == null && node.prev == null && node.container == null
    {
      assert LinkedAt(head, nodes, k) && LinkedAt(head, nodes, k + 1);
      var before, after := node.prev, node.next;
      before.next := after;
      after.prev := before;
      node.prev := null;
      node.next := null;
      node.container := null;
      nodes := nodes[..k] + nodes[k + 1..];
      forall i | 0 <= i <= |nodes| ensures LinkedAt(head, nodes, i) {
        assert i < k ==> old(LinkedAt(head, nodes, i));
        assert i > k ==> old(LinkedAt(head, nodes, i + 1));
      }
    }

    /** Takes the first node off, if there is one. */
    method Shift() returns (node: Node?)
      requires Valid()
      modifies this, head, nodes
      ensures Valid() && (node == null <==> old(nodes) == [])
      ensures old(nodes) == [] ==> nodes == []
      ensures old(nodes) != [] ==> node == old(nodes)[0] && nodes == old(nodes)[1..]
      ensures node != null ==> node.next == null && node.prev == null && node.container == null
    {
      assert LinkedAt(head, nodes, 0);
      if head.next == head {
        return null;
      }
      node := head.next;
      Delete(node, 0);
    }

    /** Takes the last node off, if there is one. */
    method Pop() returns (node: Node?)
      requires Valid()
      modifies this, head, nodes
      ensures Valid() && (node == null <==> old(nodes) == [])
      ensures old(nodes) == [] ==> nodes == []
      ensures old(nodes) != [] ==> node == old(nodes)[|old(nodes)| - 1] && nodes == old(nodes)[..|old(nodes)| - 1]
      ensures node != null ==> node.next == null && node.prev == null && node.container == null
    {
      assert LinkedAt(head, nodes, |nodes|);
      if head.prev == head {
        return null;
      }
      node := head.prev;
      Delete(node, |nodes| - 1);
    }

    /** Counts the nodes by walking round the ring. */
    method Size() returns (size: nat)
      requires Valid()
      ensures size == |nodes|
    {
      size := 0;
      assert LinkedAt(head, nodes, 0);
      var current := head.next;
      while current != head
        invariant size <= |nodes| && current == At(head, nodes, size + 1)
        decreases |nodes| - size
      {
        assert LinkedAt(head, nodes, size + 1);
        size := size + 1;
        current := current.next;
      }
    }

    /** Moves a node to the end of another list; neither list disturbs the other. */
    method MoveTo(node: Node, to: List, ghost k: nat)
      requires Valid() && to.Valid() && to != this && to.head != head && k < |nodes| && nodes[k] == node
      modifies this, head, nodes, to, to.head, to.nodes
      ensures Valid() && nodes == old(nodes)[..k] + old(nodes)[k + 1..]
      ensures to.Valid() && to.nodes == old(to.nodes) + [node]
    {
      Delete(node, k);
      to.Append(node);
    }
  }
}
