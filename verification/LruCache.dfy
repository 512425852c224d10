// The cache: a map from keys to nodes of a doubly linked list, latest use first.
module LruCache {
  import opened Options
  import opened Sequences
  import opened LinkedNodes
  import opened LruModel

  class LRUCache<T> {
    const capacity: int
    var size: int
    var items: map<string, Node<Entry<T>>>
    var head: Node?<Entry<T>>
    var tail: Node?<Entry<T>>
    ghost var nodes: seq<Node<Entry<T>>>
    ghost var entries: seq<Entry<T>>

    ghost predicate Listed()
      reads this, nodes
    {
      && LinkedNodes.Linked(nodes, head, tail) && |entries| == |nodes|
      && forall i :: 0 <= i < |nodes| ==> nodes[i].value == entries[i]
    }

    // The list, the map and the size agree.
    ghost predicate Agree()
      reads this, nodes
    {
      && Listed() && size == |nodes| && Indexed(items, nodes, entries)
    }

    ghost predicate Valid()
      reads this, nodes
    {
      Agree() && size <= if capacity > 0 then capacity else 0
    }

    constructor (capacity: int)
      ensures Valid() && nodes == [] && entries == [] && this.capacity == capacity
    {
      this.capacity := capacity;
      size, items, head, tail, nodes, entries := 0, map[], null, null, [], [];
    }

    method AttachFirstNode(node: Node<Entry<T>>)
      requires Agree() && node !in nodes && node.value.key !in items
      modifies this, nodes, node
      ensures Agree() && nodes == [node] + old(nodes) && entries == [node.value] + old(entries)
      ensures node.value == old(node.value) && forall n :: n in nodes <==> n == node || n in old(nodes)
    {
      LinkFirst(node);
      items := items[node.value.key := node];
      size := size + 1;
      IndexedFirst(old(items), old(nodes), old(entries), node, node.value);
    }

    method LinkFirst(node: Node<Entry<T>>)
      requires Listed() && node !in nodes
      modifies this`head, this`tail, this`nodes, this`entries, nodes, node
      ensures Listed() && nodes == [node] + old(nodes) && entries == [node.value] + old(entries)
      ensures node.value == old(node.value)
    {
      node.prev := null;
      node.next := head;
      if head == null {
        head, tail := node, node;
      } else {
        head.prev := node;
        head := node;
      }
      nodes, entries := [node] + nodes, [node.value] + entries;
    }

    method Detach(node: Node<Entry<T>>, ghost i: int)
      requires Agree() && 0 <= i < |nodes| && nodes[i] == node
      modifies this, nodes
      ensures Agree() && nodes == Without(old(nodes), i) && entries == Without(old(entries), i)
      ensures items == old(items) - {node.value.key}
      ensures node.value == old(node.value) && forall n :: n in nodes <==> n in old(nodes) && n != node
    {
      IndexedWithout(items, nodes, entries, i);
      Unlink(node, i);
      entries := Without(entries, i);
      items := items - {node.value.key};
      size := size - 1;
    }

    // Takes the node out of the links.
    method Unlink(node: Node<Entry<T>>, ghost i: int)
      requires LinkedNodes.Linked(nodes, head, tail) && 0 <= i < |nodes| && nodes[i] == node
      modifies this`head, this`tail, this`nodes, nodes`prev, nodes`next
      ensures LinkedNodes.Linked(nodes, head, tail) && nodes == Without(old(nodes), i)
      ensures forall n :: n in nodes <==> n in old(nodes) && n != node
    {
      assert i > 0 ==> node.prev == nodes[i - 1];
      assert i < |nodes| - 1 ==> node.next == nodes[i + 1];
      if node.prev != null {
        node.prev.next := node.next;
      } else {
        head := node.next;
      }
      if node.next != null {
        node.next.prev := node.prev;
      } else {
        tail := node.prev;
      }
      node.next, node.prev := null, null;
      WithoutMembers(nodes, i);
      ghost var was := nodes;
      nodes := Without(nodes, i);
      assert forall k :: 0 <= k < i ==> nodes[k] == was[k];
      assert forall k :: i <= k < |nodes| ==> nodes[k] == was[k + 1];
    }

    method Put(key: string, value: T)
      requires Valid()
      modifies this, nodes
      ensures Valid() && entries == Puts(capacity, old(entries), key, value)
      ensures forall i :: 0 <= i < |nodes| ==> nodes[i] in old(nodes) || fresh(nodes[i])
    {
      if key == "" || capacity <= 0 {
        return;
      }
      KeyHas(key);
      if key in items {
        MoveToFront(key, value);
        return;
      }
      PutNew(key, value);
    }

    // A new key goes in front; in a full cache the last one leaves.
    method PutNew(key: string, value: T)
      requires Valid() && capacity > 0 && key !in items
      modifies this, nodes
      ensures Valid() && entries == [Entry(key, value)] + Trimmed(capacity, old(entries))
      ensures forall i :: 0 <= i < |nodes| ==> nodes[i] in old(nodes) || fresh(nodes[i])
    {
      if size >= capacity {
        RemoveLastNode();
      }
      var node := new Node(Entry(key, value));
      AttachFirstNode(node);
    }

    method Get(key: string) returns (value: Option<T>)
      requires Valid()
      modifies this, nodes
      ensures Valid() && value == Lookup(old(entries), key) && entries == Gets(old(entries), key)
      ensures forall i :: 0 <= i < |nodes| ==> nodes[i] in old(nodes)
    {
      KeyHas(key);
      LookupHas(entries, key);
      if key !in items {
        return None;
      }
      var node := items[key];
      value := Some(node.value.value);
      MoveToFront(key, node.value.value);
    }

    // A cached key's node gets the value and becomes the first.
    method MoveToFront(key: string, value: T)
      requires Agree() && key in items
      modifies this, nodes
      ensures Agree() && size == old(size) && entries == [Entry(key, value)] + Drop(old(entries), key)
      ensures Lookup(old(entries), key) == Some(old(items[key].value.value))
      ensures forall i :: 0 <= i < |nodes| ==> nodes[i] in old(nodes)
    {
      var node := items[key];
      ghost var i := IndexOf(key);
      DropAt(entries, key, i);
      ghost var es := entries;
      Write(node, i, value);
      assert entries[i] == Entry(key, value);
      ToFront(node, i);
      assert entries == [Entry(key, value)] + Without(es, i);
    }

    // The i-th node becomes the first.
    method ToFront(node: Node<Entry<T>>, ghost i: int)
      requires Agree() && 0 <= i < |nodes| && nodes[i] == node
      modifies this, nodes
      ensures Agree() && size == old(size) && entries == [old(entries)[i]] + Without(old(entries), i)
      ensures forall i :: 0 <= i < |nodes| ==> nodes[i] in old(nodes)
    {
      ghost var e := entries[i];
      assert node.value == e;
      Detach(node, i);
      AttachFirstNode(node);
      assert entries[0] == e;
    }

    // The i-th node gets a new value.
    method Write(node: Node<Entry<T>>, ghost i: int, value: T)
      requires Agree() && 0 <= i < |nodes| && nodes[i] == node
      modifies this`entries, node`value
      ensures Agree() && entries == old(entries)[i := node.value]
      ensures node.value == Entry(old(entries)[i].key, value)
    {
      ghost var es := entries;
      node.value := Entry(node.value.key, value);
      entries := entries[i := node.value];
      KeySetSame(es, entries);
    }

    method RemoveLastNode()
      requires Agree()
      modifies this, nodes
      ensures Agree() && entries == if old(entries) == [] then [] else old(entries)[..|old(entries)| - 1]
      ensures nodes == if old(nodes) == [] then [] else old(nodes)[..|old(nodes)| - 1]
      ensures items.Keys <= old(items.Keys)
    {
      if tail != null {
        Detach(tail, |nodes| - 1);
      }
    }

    lemma KeyHas(key: string)
      requires Agree()
      ensures key in items <==> Has(entries, key)
    {
      KeySetHas(entries, key);
    }

    lemma IndexOf(key: string) returns (i: int)
      requires Agree() && key in items
      ensures 0 <= i < |nodes| && nodes[i] == items[key] && entries[i].key == key
      ensures forall j :: 0 <= j < |nodes| && entries[j].key == key ==> j == i
    {
      KeySetHas(entries, key);
      i :| 0 <= i < |entries| && Keys(entries)[i] == key;
    }
  }

  function KeySet<T>(es: seq<Entry<T>>): set<string> {
    if es == [] then {} else {es[0].key} + KeySet(es[1..])
  }

  // The map finds the node of each entry under its key, and has no other key.
  ghost predicate Indexed<T>(items: map<string, Node<Entry<T>>>, nodes: seq<Node<Entry<T>>>, es: seq<Entry<T>>) {
    && |nodes| == |es| && items.Keys == KeySet(es)
    && forall i :: 0 <= i < |es| ==> es[i].key in items && items[es[i].key] == nodes[i]
  }

  lemma {:induction false} KeySetHas<T>(es: seq<Entry<T>>, key: string)
    ensures key in KeySet(es) <==> Has(es, key)
  {
    if es != [] {
      assert Keys(es) == [es[0].key] + Keys(es[1..]);
      KeySetHas(es[1..], key);
    }
  }

  lemma {:induction false} KeySetWithout<T>(es: seq<Entry<T>>, i: int)
    requires 0 <= i < |es| && forall j, k :: 0 <= j < k < |es| ==> es[j].key != es[k].key
    ensures KeySet(Without(es, i)) == KeySet(es) - {es[i].key}
  {
    if i == 0 {
      assert Without(es, 0) == es[1..];
      KeySetHas(es[1..], es[0].key);
    } else {
      assert Without(es, i) == [es[0]] + Without(es[1..], i - 1);
      KeySetWithout(es[1..], i - 1);
    }
  }

  lemma {:induction false} KeySetSame<T>(es: seq<Entry<T>>, fs: seq<Entry<T>>)
    requires |es| == |fs| && forall i :: 0 <= i < |es| ==> es[i].key == fs[i].key
    ensures KeySet(es) == KeySet(fs)
  {
    if es != [] {
      KeySetSame(es[1..], fs[1..]);
    }
  }

  lemma IndexedFirst<T>(items: map<string, Node<Entry<T>>>, nodes: seq<Node<Entry<T>>>, es: seq<Entry<T>>,
                        node: Node<Entry<T>>, e: Entry<T>)
    requires Indexed(items, nodes, es) && e.key !in items
    ensures Indexed(items[e.key := node], [node] + nodes, [e] + es)
  {
    assert ([e] + es)[1..] == es;
  }

  lemma IndexedWithout<T>(items: map<string, Node<Entry<T>>>, nodes: seq<Node<Entry<T>>>, es: seq<Entry<T>>, i: int)
    requires Indexed(items, nodes, es) && 0 <= i < |es|
    requires forall j, k :: 0 <= j < k < |nodes| ==> nodes[j] != nodes[k]
    ensures Indexed(items - {es[i].key}, Without(nodes, i), Without(es, i))
  {
    KeySetWithout(es, i);
  }

  // Dropping a key that stands at one place only.
  lemma {:induction false} DropAt<T>(es: seq<Entry<T>>, key: string, i: int)
    requires 0 <= i < |es| && es[i].key == key && forall j :: 0 <= j < |es| && es[j].key == key ==> j == i
    ensures Drop(es, key) == Without(es, i) && Lookup(es, key) == Some(es[i].value)
  {
    if i > 0 {
      forall j | 0 <= j < |es| - 1 && es[1..][j].key == key ensures j == i - 1 {
        assert es[j + 1].key == key;
      }
      DropAt(es[1..], key, i - 1);
    }
  }
}
