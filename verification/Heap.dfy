// A binary heap in a growing array, ordered by a caller-supplied `less`. A max-heap
// is the same code with `less` turned around.
module Heap {
  import opened Options

  ghost predicate WeakOrder<T(!new)>(less: (T, T) -> bool) {
    && (forall a :: !less(a, a))
    && (forall a, b, c :: less(a, b) && less(b, c) ==> less(a, c))
    && (forall a, b, c :: !less(a, b) && !less(b, c) ==> !less(a, c))
  }

  function Parent(i: int): int
    requires i > 0
  {
    (i - 1) / 2
  }

  // Item k is not before its parent.
  predicate InOrder<T>(s: seq<T>, less: (T, T) -> bool, k: int)
    requires 0 < k < |s|
  {
    !less(s[k], s[Parent(k)])
  }

  predicate Heaped<T>(s: seq<T>, less: (T, T) -> bool) {
    forall k :: 0 < k < |s| ==> InOrder(s, less, k)
  }

  // The children of i are not before the parent of i.
  predicate Bridged<T>(s: seq<T>, less: (T, T) -> bool, i: int)
    requires 0 <= i < |s|
  {
    forall k :: 0 < k < |s| && Parent(k) == i > 0 ==> !less(s[k], s[Parent(i)])
  }

  // In order but perhaps between i and its parent.
  predicate HeapedBut<T>(s: seq<T>, less: (T, T) -> bool, i: int)
    requires 0 <= i < |s|
  {
    Bridged(s, less, i) && forall k :: 0 < k < |s| && k != i ==> InOrder(s, less, k)
  }

  // In order but perhaps between i and its children.
  predicate HeapedAbove<T>(s: seq<T>, less: (T, T) -> bool, i: int)
    requires 0 <= i < |s|
  {
    Bridged(s, less, i) && forall k :: 0 < k < |s| && Parent(k) != i ==> InOrder(s, less, k)
  }

  function Swap<T>(s: seq<T>, i: int, j: int): (r: seq<T>)
    requires 0 <= i < |s| && 0 <= j < |s|
    ensures |r| == |s| && r[i] == s[j] && r[j] == s[i] && multiset(r) == multiset(s)
    ensures forall k :: 0 <= k < |s| && k != i && k != j ==> r[k] == s[k]
  {
    s[i := s[j]][j := s[i]]
  }

  // Nothing comes before the root.
  lemma {:induction false} RootLeast<T(!new)>(s: seq<T>, less: (T, T) -> bool, k: int)
    requires WeakOrder(less) && Heaped(s, less) && 0 <= k < |s|
    ensures !less(s[k], s[0])
  {
    if k > 0 {
      RootLeast(s, less, Parent(k));
      assert InOrder(s, less, k);
    }
  }

  lemma SwapUp<T(!new)>(s: seq<T>, less: (T, T) -> bool, i: int)
    requires WeakOrder(less) && 0 < i < |s| && HeapedBut(s, less, i) && less(s[i], s[Parent(i)])
    ensures HeapedBut(Swap(s, i, Parent(i)), less, Parent(i))
  {
    var p := Parent(i);
    var t := Swap(s, i, p);
    forall k | 0 < k < |t| && k != p ensures InOrder(t, less, k) {
      if k != i {
        assert InOrder(s, less, k);
      }
    }
    forall k | 0 < k < |t| && Parent(k) == p > 0 ensures !less(t[k], t[Parent(p)]) {
      assert InOrder(s, less, p);
      if k != i {
        assert InOrder(s, less, k);
      }
    }
  }

  // The child that comes first, if it comes before i.
  function FirstChild<T>(s: seq<T>, less: (T, T) -> bool, i: int): (c: int)
    requires 0 <= i < |s|
    ensures i <= c < |s| && (c > i ==> Parent(c) == i)
  {
    var c := if 2 * i + 1 < |s| && less(s[2 * i + 1], s[i]) then 2 * i + 1 else i;
    if 2 * i + 2 < |s| && less(s[2 * i + 2], s[c]) then 2 * i + 2 else c
  }

  lemma SwapDown<T(!new)>(s: seq<T>, less: (T, T) -> bool, i: int)
    requires WeakOrder(less) && 0 <= i < |s| && HeapedAbove(s, less, i)
    ensures var c := FirstChild(s, less, i);
      if c == i then Heaped(s, less) else HeapedAbove(Swap(s, i, c), less, c)
  {
    var c := FirstChild(s, less, i);
    if c == i {
      forall k | 0 < k < |s| ensures InOrder(s, less, k) {
        assert Parent(k) == i ==> k == 2 * i + 1 || k == 2 * i + 2;
      }
    } else {
      var t := Swap(s, i, c);
      assert Parent(c) == i && less(s[c], s[i]);
      forall k | 0 < k < |t| && Parent(k) != c ensures InOrder(t, less, k) {
        assert Parent(k) == i ==> k == 2 * i + 1 || k == 2 * i + 2;
        if Parent(k) != i {
          assert InOrder(s, less, k);
        }
      }
      forall k | 0 < k < |t| && Parent(k) == c > 0 ensures !less(t[k], t[Parent(c)]) {
        assert InOrder(s, less, k);
      }
    }
  }

  class MinHeap<T(==,!new)> {
    var items: seq<T>
    const less: (T, T) -> bool

    ghost predicate Valid()
      reads this
    {
      WeakOrder(less) && Heaped(items, less)
    }

    constructor (less: (T, T) -> bool)
      requires WeakOrder(less)
      ensures Valid() && items == [] && this.less == less
    {
      items := [];
      this.less := less;
    }

    method Push(item: T)
      requires Valid()
      modifies this
      ensures Valid() && multiset(items) == old(multiset(items)) + multiset{item}
      ensures |items| == old(|items|) + 1
    {
      ghost var was := items;
      items := items + [item];
      forall k | 0 < k < |items| - 1 ensures InOrder(items, less, k) {
        assert InOrder(was, less, k);
      }
      HeapifyUp(|items| - 1);
    }

    method HeapifyUp(start: nat)
      requires WeakOrder(less) && start < |items| && HeapedBut(items, less, start)
      modifies this
      ensures Heaped(items, less) && multiset(items) == old(multiset(items)) && |items| == old(|items|)
    {
      var i := start;
      while i > 0
        invariant 0 <= i < |items| == old(|items|) && HeapedBut(items, less, i)
        invariant multiset(items) == old(multiset(items))
      {
        var parent := Parent(i);
        if !less(items[i], items[parent]) {
          break;
        }
        SwapUp(items, less, i);
        items := Swap(items, i, parent);
        i := parent;
      }
      forall k | 0 < k < |items| ensures InOrder(items, less, k) {}
    }

    // An item no other comes before, or nothing from an empty heap.
    method Pop() returns (top: Option<T>)
      requires Valid()
      modifies this
      ensures Valid()
      ensures top.None? <==> old(items) == []
      ensures top.None? ==> items == []
      ensures top.Some? ==> top.value == old(items[0]) && |items| == old(|items|) - 1
      ensures top.Some? ==> multiset(items) + multiset{top.value} == old(multiset(items))
      ensures top.Some? ==> forall x :: x in old(items) ==> !less(x, top.value)
    {
      if |items| == 0 {
        return None;
      }
      var last := |items| - 1;
      top := Some(items[0]);
      forall k | 0 <= k < |items| ensures !less(items[k], top.value) {
        RootLeast(items, less, k);
      }
      assert items == items[..last] + [items[last]];
      assert last > 0 ==> items == [items[0]] + items[1..last] + [items[last]];
      assert last > 0 ==> items[0 := items[last]][..last] == [items[last]] + items[1..last];
      ghost var was := items;
      items := items[0 := items[last]][..last];
      if |items| > 0 {
        forall k | 0 < k < |items| && Parent(k) != 0 ensures InOrder(items, less, k) {
          assert InOrder(was, less, k);
        }
        HeapifyDown();
      }
    }

    method HeapifyDown()
      requires WeakOrder(less) && |items| > 0 && HeapedAbove(items, less, 0)
      modifies this
      ensures Heaped(items, less) && multiset(items) == old(multiset(items)) && |items| == old(|items|)
    {
      var i := 0;
      while true
        invariant 0 <= i < |items| == old(|items|) && HeapedAbove(items, less, i)
        invariant multiset(items) == old(multiset(items))
        decreases |items| - i
      {
        var left, right, smallest := 2 * i + 1, 2 * i + 2, i;
        if left < |items| && less(items[left], items[smallest]) {
          smallest := left;
        }
        if right < |items| && less(items[right], items[smallest]) {
          smallest := right;
        }
        assert smallest == FirstChild(items, less, i);
        SwapDown(items, less, i);
        if smallest == i {
          return;
        }
        items := Swap(items, i, smallest);
        i := smallest;
      }
    }

    method Peek() returns (top: Option<T>)
      requires Valid()
      ensures top == if items == [] then None else Some(items[0])
      ensures top.Some? ==> forall x :: x in items ==> !less(x, top.value)
    {
      if |items| == 0 {
        return None;
      }
      forall k | 0 <= k < |items| ensures !less(items[k], items[0]) {
        RootLeast(items, less, k);
      }
      return Some(items[0]);
    }

    method Verify() returns (ok: bool)
      ensures ok <==> Heaped(items, less)
    {
      for i := 0 to |items|
        invariant forall k :: 0 < k < |items| && Parent(k) < i ==> InOrder(items, less, k)
      {
        var left, right := 2 * i + 1, 2 * i + 2;
        if left < |items| && less(items[left], items[i]) {
          assert !InOrder(items, less, left);
          return false;
        }
        if right < |items| && less(items[right], items[i]) {
          assert !InOrder(items, less, right);
          return false;
        }
        assert forall k :: 0 < k < |items| && Parent(k) == i ==> k == left || k == right;
      }
      return true;
    }
  }
}
