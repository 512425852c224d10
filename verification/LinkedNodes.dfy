// Doubly linked nodes, and the two lists of the repository that append to, unlink from
// and cut them.
module LinkedNodes {
  import opened Options
  import opened Sequences

  class Node<T> {
    var value: T
    var prev: Node?<T>
    var next: Node?<T>

    constructor (value: T)
      ensures this.value == value && prev == null && next == null
    {
      this.value := value;
      prev, next := null, null;
    }
  }

  // The nodes, in order, are linked to each other and to nothing else.
  ghost predicate Linked<T>(nodes: seq<Node<T>>, head: Node?<T>, tail: Node?<T>)
    reads nodes
  {
    && (nodes == [] ==> head == null && tail == null)
    && (nodes != [] ==> head == nodes[0] && tail == nodes[|nodes| - 1] && head.prev == null && tail.next == null)
    && (forall i, j :: 0 <= i < j < |nodes| ==> nodes[i] != nodes[j])
    && (forall i, j :: 0 <= i < j < |nodes| && j == i + 1 ==> nodes[i].next == nodes[j] && nodes[j].prev == nodes[i])
  }

  ghost function At<T>(nodes: seq<Node<T>>, i: int): Node?<T> {
    if 0 <= i < |nodes| then nodes[i] else null
  }

  ghost predicate TakenOut<T>(nodes: seq<T>, rest: seq<T>, node: T) {
    exists i :: 0 <= i < |nodes| && nodes[i] == node && rest == Without(nodes, i)
  }

  class List<T> {
    var head: Node?<T>
    var tail: Node?<T>
    var length: int
    ghost var nodes: seq<Node<T>>
    ghost var values: seq<T>

    ghost predicate Valid()
      reads this, nodes
    {
      && Linked(nodes, head, tail) && length == |nodes| == |values|
      && forall i :: 0 <= i < |nodes| ==> nodes[i].value == values[i]
    }

    constructor ()
      ensures Valid() && nodes == [] && values == []
    {
      head, tail, length, nodes, values := null, null, 0, [], [];
    }

    method PushBack(value: T) returns (node: Node<T>)
      requires Valid()
      modifies this, nodes
      ensures Valid() && fresh(node) && nodes == old(nodes) + [node]
      ensures values == old(values) + [value]
    {
      node := new Node(value);
      if length == 0 {
        head, tail := node, node;
      } else {
        node.prev := tail;
        tail.next := node;
        tail := node;
      }
      length := length + 1;
      nodes, values := nodes + [node], values + [value];
    }

    // Unlinks the i-th node.
    method Unlink(node: Node<T>, ghost i: int)
      requires Valid() && 0 <= i < |nodes| && nodes[i] == node
      modifies this, nodes`prev, nodes`next
      ensures Valid() && nodes == Without(old(nodes), i) && values == Without(old(values), i)
      ensures forall n :: n in nodes <==> n in old(nodes) && n != node
      ensures node.prev == null && node.next == null
    {
      WithoutMembers(nodes, i);
      Relink(node, i);
      length := length - 1;
      node.prev, node.next := null, null;
      values := Without(values, i);
    }

    // Links the i-th node's neighbours to each other.
    method Relink(node: Node<T>, ghost i: int)
      requires Linked(nodes, head, tail) && 0 <= i < |nodes| && nodes[i] == node
      requires node !in Without(nodes, i)
      modifies this`head, this`tail, this`nodes, nodes`prev, nodes`next
      ensures Linked(nodes, head, tail) && nodes == Without(old(nodes), i)
    {
      assert i > 0 ==> node.prev == nodes[i - 1];
      assert i < |nodes| - 1 ==> node.next == nodes[i + 1];
      if node.prev != null {
        node.prev.next := node.next;
      } else {
        head := node.next;
      }
      if node.next != null {
        node.next.prev := node.prev;
      } else {
        tail := node.prev;
      }
      ghost var was := nodes;
      nodes := Without(nodes, i);
      assert forall k :: 0 <= k < i ==> nodes[k] == was[k];
      assert forall k :: i <= k < |nodes| ==> nodes[k] == was[k + 1];
    }

    // Removes a node of this list; another list's node, or one already taken out, is
    // refused.
    method Remove(node: Node<T>) returns (value: Option<T>)
      requires Valid()
      modifies this, nodes
      ensures Valid()
      ensures node !in old(nodes) ==> value == None && nodes == old(nodes) && values == old(values)
      ensures node in old(nodes) ==> value == Some(old(node.value)) && node.prev == null && node.next == null
      ensures node in old(nodes) ==> forall n :: n in nodes <==> n in old(nodes) && n != node
      ensures node in old(nodes) ==> TakenOut(old(values), values, old(node.value))
      ensures forall n :: n in old(nodes) ==> n.value == old(n.value)
    {
      var found, i := Contains(node);
      if !found {
        return None;
      }
      value := Some(node.value);
      Unlink(node, i);
    }

    method Contains(target: Node<T>) returns (found: bool, ghost i: int)
      requires Valid()
      ensures found <==> target in nodes
      ensures found ==> 0 <= i < |nodes| && nodes[i] == target
    {
      var current := head;
      i := 0;
      while current != null
        invariant 0 <= i <= |nodes| && current == At(nodes, i) && target !in nodes[..i]
        decreases |nodes| - i
      {
        if current == target {
          return true, i;
        }
        assert nodes[..i + 1] == nodes[..i] + [nodes[i]];
        current := current.next;
        i := i + 1;
      }
      assert nodes[..|nodes|] == nodes;
      return false, i;
    }

    // Cuts the list after a node of it, or empties it.
    method RemoveAfter(node: Node?<T>, ghost i: int)
      requires Valid() && -1 <= i < |nodes| && node == At(nodes, i)
      modifies this, nodes
      ensures Valid() && nodes == old(nodes)[..i + 1]
      ensures values == old(values)[..i + 1]
    {
      if node == null {
        head, tail, length := null, null, 0;
        nodes, values := [], [];
        return;
      }
      var deleted := 0;
      var tmp := node.next;
      while tmp != null
        invariant 0 <= deleted <= |nodes| - i - 1 && tmp == At(nodes, i + 1 + deleted)
        decreases |nodes| - deleted
      {
        deleted := deleted + 1;
        tmp := tmp.next;
      }
      tail := node;
      tail.next := null;
      length := length - deleted;
      nodes, values := nodes[..i + 1], values[..i + 1];
    }
  }
}
