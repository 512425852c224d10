// B-trees as values: the ordered list of entries a tree stands for, the shape
// invariants, and what each local change to a node does to both.
module BTreeModel {
  import opened Options
  import opened Sequences

  type Key = real

  datatype Entry<V> = Entry(key: Key, value: V)

  // A leaf has no children; an inner node has one child more than keys.
  datatype Tree<V> = Node(keys: seq<Key>, values: seq<V>, children: seq<Tree<V>>) {
    predicate Proper() {
      |keys| == |values| && (children == [] || |children| == |keys| + 1)
    }
  }

  // In-order entries ----------------------------------------------------------

  function Entries<V>(t: Tree<V>): seq<Entry<V>>
    decreases t, |t.keys| + 2
  {
    if t.Proper() then From(t, 0) else []
  }

  // The entries of child i; a leaf has none around its keys.
  function Kid<V>(t: Tree<V>, i: nat): seq<Entry<V>>
    requires t.Proper() && i <= |t.keys|
    decreases t, 0
  {
    if t.children == [] then [] else Entries(t.children[i])
  }

  // Everything from child i on, before child i, and after child i.
  function From<V>(t: Tree<V>, i: nat): seq<Entry<V>>
    requires t.Proper() && i <= |t.keys|
    decreases t, |t.keys| - i + 1
  {
    if i == |t.keys| then Kid(t, i)
    else Kid(t, i) + ([Entry(t.keys[i], t.values[i])] + From(t, i + 1))
  }

  function Before<V>(t: Tree<V>, i: nat): seq<Entry<V>>
    requires t.Proper() && i <= |t.keys|
    decreases i
  {
    if i == 0 then []
    else Before(t, i - 1) + Kid(t, i - 1) + [Entry(t.keys[i - 1], t.values[i - 1])]
  }

  function After<V>(t: Tree<V>, i: nat): seq<Entry<V>>
    requires t.Proper() && i <= |t.keys|
  {
    if i == |t.keys| then [] else [Entry(t.keys[i], t.values[i])] + From(t, i + 1)
  }

  lemma {:induction false} ViewFrom<V>(t: Tree<V>, i: nat)
    requires t.Proper() && i <= |t.keys|
    ensures Entries(t) == Before(t, i) + From(t, i)
    decreases i
  {
    if i > 0 {
      ViewFrom(t, i - 1);
      Regroup(Before(t, i - 1), Kid(t, i - 1), [Entry(t.keys[i - 1], t.values[i - 1])], From(t, i));
    }
  }

  lemma Regroup<T>(a: seq<T>, b: seq<T>, c: seq<T>, d: seq<T>)
    ensures a + (b + (c + d)) == a + b + c + d
  {
  }

  lemma Assoc<T>(a: seq<T>, b: seq<T>, c: seq<T>)
    ensures a + (b + c) == a + b + c && a + [] == a
  {
  }

  lemma FromKid<V>(t: Tree<V>, i: nat)
    requires t.Proper() && i <= |t.keys|
    ensures From(t, i) == Kid(t, i) + After(t, i)
  {
    Assoc(Kid(t, i), [], []);
  }

  // The entries of a node around one of its children.
  lemma ViewChild<V>(t: Tree<V>, i: nat)
    requires t.Proper() && i <= |t.keys|
    ensures From(t, i) == Kid(t, i) + After(t, i)
    ensures Entries(t) == Before(t, i) + Kid(t, i) + After(t, i)
  {
    ViewFrom(t, i);
    FromKid(t, i);
    Assoc(Before(t, i), Kid(t, i), After(t, i));
  }

  lemma {:induction false} SameBefore<V>(t: Tree<V>, u: Tree<V>, i: nat)
    requires t.Proper() && u.Proper() && i <= |t.keys| && i <= |u.keys|
    requires forall j :: 0 <= j < i ==> t.keys[j] == u.keys[j] && t.values[j] == u.values[j]
    requires t.children == [] <==> u.children == []
    requires t.children != [] ==> forall j :: 0 <= j < i ==> t.children[j] == u.children[j]
    ensures Before(t, i) == Before(u, i)
    decreases i
  {
    if i > 0 {
      SameBefore(t, u, i - 1);
    }
  }

  // t from child i on looks like u from child i + shift on.
  ghost predicate Shifted<V>(t: Tree<V>, i: nat, u: Tree<V>, shift: nat)
    requires t.Proper() && u.Proper()
  {
    && |u.keys| == |t.keys| + shift
    && (forall j :: i <= j < |t.keys| ==> u.keys[j + shift] == t.keys[j] && u.values[j + shift] == t.values[j])
    && (t.children == [] <==> u.children == [])
    && (t.children != [] ==> forall j :: i <= j <= |t.keys| ==> u.children[j + shift] == t.children[j])
  }

  lemma {:induction false} SameFrom<V>(t: Tree<V>, i: nat, u: Tree<V>, shift: nat)
    requires t.Proper() && u.Proper() && i <= |t.keys| && Shifted(t, i, u, shift)
    ensures From(t, i) == From(u, i + shift)
    decreases |t.keys| - i
  {
    if i < |t.keys| {
      SameFrom(t, i + 1, u, shift);
    }
  }

  // Shape ---------------------------------------------------------------------

  // Every leaf is h levels down, no node has more than 2d-1 keys and every node
  // below t has at least d-1.
  ghost predicate Good<V>(t: Tree<V>, d: nat, h: nat)
    decreases h
  {
    && |t.keys| == |t.values| <= 2 * d - 1
    && if h == 0 then t.children == []
       else |t.children| == |t.keys| + 1 && forall c :: c in t.children ==> |c.keys| >= d - 1 && Good(c, d, h - 1)
  }

  // The root may hold fewer keys, but an inner root holds at least one.
  ghost predicate GoodRoot<V>(t: Tree<V>, d: nat, h: nat) {
    Good(t, d, h) && (h > 0 ==> |t.keys| >= 1)
  }

  lemma {:induction false} EntriesBound<V>(t: Tree<V>, d: nat, h: nat)
    requires d >= 2 && Good(t, d, h)
    ensures |Entries(t)| >= (|t.keys| + 1) * Pow(d, h) - 1
    decreases h, |t.keys| + 2
  {
    if h > 0 {
      FromBound(t, d, h, 0);
    } else {
      LeafLength(t, 0);
    }
  }

  lemma {:induction false} LeafLength<V>(t: Tree<V>, i: nat)
    requires t.children == [] && |t.keys| == |t.values| && i <= |t.keys|
    ensures |From(t, i)| == |t.keys| - i
    decreases |t.keys| - i
  {
    if i < |t.keys| {
      LeafLength(t, i + 1);
    }
  }

  lemma {:induction false} FromBound<V>(t: Tree<V>, d: nat, h: nat, i: nat)
    requires d >= 2 && h > 0 && Good(t, d, h) && i <= |t.keys|
    ensures |From(t, i)| >= (|t.keys| + 1 - i) * Pow(d, h) - 1
    decreases h, |t.keys| - i + 1
  {
    var c := t.children[i];
    assert c in t.children;
    ChildBound(c, d, h);
    if i < |t.keys| {
      var n, p := |t.keys| - i, Pow(d, h);
      FromBound(t, d, h, i + 1);
      OneMore(n, p);
      assert |From(t, i)| == |Entries(c)| + 1 + |From(t, i + 1)| >= (p - 1) + 1 + (n * p - 1);
    }
  }

  lemma {:induction false} ChildBound<V>(c: Tree<V>, d: nat, h: nat)
    requires d >= 2 && h > 0 && |c.keys| >= d - 1 && Good(c, d, h - 1)
    ensures |Entries(c)| >= Pow(d, h) - 1
    decreases h, 0
  {
    EntriesBound(c, d, h - 1);
    Scale(|c.keys| + 1, d, Pow(d, h - 1));
  }

  lemma OneMore(n: nat, p: nat)
    ensures (n + 1) * p == p + n * p
  {
  }

  function Pow(b: nat, e: nat): (r: nat)
    ensures b > 0 ==> r > 0
  {
    if e == 0 then 1 else b * Pow(b, e - 1)
  }

  lemma Scale(a: nat, b: nat, p: nat)
    requires a >= b
    ensures a * p >= b * p
  {
  }

  // A non-empty tree of height h stores at least 2 * d^h - 1 entries.
  lemma HeightBound<V>(t: Tree<V>, d: nat, h: nat)
    requires d >= 2 && GoodRoot(t, d, h) && Entries(t) != []
    ensures |Entries(t)| >= 2 * Pow(d, h) - 1
  {
    EntriesBound(t, d, h);
    if h == 0 {
      LeafLength(t, 0);
    }
    Scale(|t.keys| + 1, 2, Pow(d, h));
  }

  // Order ---------------------------------------------------------------------

  ghost predicate Sorted<V>(e: seq<Entry<V>>) {
    forall i, j :: 0 <= i < j < |e| ==> e[i].key < e[j].key
  }

  ghost predicate AllBelow<V>(e: seq<Entry<V>>, k: Key) {
    forall i :: 0 <= i < |e| ==> e[i].key < k
  }

  ghost predicate AllAbove<V>(e: seq<Entry<V>>, k: Key) {
    forall i :: 0 <= i < |e| ==> e[i].key > k
  }

  ghost predicate Absent<V>(e: seq<Entry<V>>, k: Key) {
    forall i :: 0 <= i < |e| ==> e[i].key != k
  }

  lemma SortedConcat<V>(a: seq<Entry<V>>, x: Entry<V>, b: seq<Entry<V>>)
    requires Sorted(a + [x] + b)
    ensures Sorted(a) && Sorted(b) && AllBelow(a, x.key) && AllAbove(b, x.key)
  {
    var e := a + [x] + b;
    assert e[|a|] == x;
    assert forall i :: 0 <= i < |a| ==> e[i] == a[i];
    assert forall i :: 0 <= i < |b| ==> e[|a| + 1 + i] == b[i];
  }

  lemma SortedParts<V>(a: seq<Entry<V>>, b: seq<Entry<V>>, c: seq<Entry<V>>)
    requires Sorted(a + b + c)
    ensures Sorted(b)
  {
    assert forall i :: 0 <= i < |b| ==> (a + b + c)[|a| + i] == b[i];
  }

  lemma AbsentParts<V>(a: seq<Entry<V>>, b: seq<Entry<V>>, c: seq<Entry<V>>, k: Key)
    requires Absent(a + b + c, k)
    ensures Absent(b, k)
  {
    assert forall i :: 0 <= i < |b| ==> (a + b + c)[|a| + i] == b[i];
  }

  // The least position whose key is not below k: where the scans stop.
  function Position(keys: seq<Key>, k: Key): (i: nat)
    ensures i <= |keys|
    ensures forall j :: 0 <= j < i ==> keys[j] < k
    ensures i < |keys| ==> k <= keys[i]
  {
    if keys == [] || k <= keys[0] then 0 else 1 + Position(keys[1..], k)
  }

  // The entries of an inner node around one of its keys.
  lemma ViewKey<V>(t: Tree<V>, i: nat)
    requires t.Proper() && i < |t.keys|
    ensures Entries(t) ==
      (Before(t, i) + Kid(t, i)) + [Entry(t.keys[i], t.values[i])] + From(t, i + 1)
  {
    ViewChild(t, i);
    var a, b, c, d := Before(t, i), Kid(t, i), [Entry(t.keys[i], t.values[i])], From(t, i + 1);
    assert a + b + (c + d) == (a + b) + c + d;
  }

  // Child i of t covers the keys around k: all other entries of t are on the
  // right side of k.
  ghost predicate Covers<V>(t: Tree<V>, i: nat, k: Key) {
    && t.Proper() && i <= |t.keys|
    && AllBelow(Before(t, i), k) && AllAbove(After(t, i), k)
  }

  lemma BelowEnd<V>(a: seq<Entry<V>>, x: Entry<V>, k: Key)
    requires AllBelow(a, x.key) && x.key < k
    ensures AllBelow(a + [x], k)
  {
  }

  lemma AboveStart<V>(x: Entry<V>, b: seq<Entry<V>>, k: Key)
    requires AllAbove(b, x.key) && k < x.key
    ensures AllAbove([x] + b, k)
  {
  }

  lemma BelowBetween<V>(t: Tree<V>, i: nat, k: Key)
    requires t.Proper() && Sorted(Entries(t)) && i < |t.keys| && t.keys[i] < k
    ensures AllBelow(Before(t, i + 1), k)
  {
    var a, x := Before(t, i) + Kid(t, i), Entry(t.keys[i], t.values[i]);
    ViewKey(t, i);
    SortedConcat(a, x, From(t, i + 1));
    BelowEnd(a, x, k);
  }

  lemma AboveBetween<V>(t: Tree<V>, i: nat, k: Key)
    requires t.Proper() && Sorted(Entries(t)) && i < |t.keys| && k < t.keys[i]
    ensures AllAbove(After(t, i), k)
  {
    var a, x := Before(t, i) + Kid(t, i), Entry(t.keys[i], t.values[i]);
    ViewKey(t, i);
    SortedConcat(a, x, From(t, i + 1));
    AboveStart(x, From(t, i + 1), k);
  }

  lemma CoversBetween<V>(t: Tree<V>, i: nat, k: Key)
    requires t.Proper() && Sorted(Entries(t)) && i <= |t.keys|
    requires i > 0 ==> t.keys[i - 1] < k
    requires i < |t.keys| ==> k < t.keys[i]
    ensures Covers(t, i, k) && Sorted(Kid(t, i))
  {
    if i > 0 {
      BelowBetween(t, i - 1, k);
    }
    if i < |t.keys| {
      AboveBetween(t, i, k);
    }
    ViewChild(t, i);
    SortedParts(Before(t, i), Kid(t, i), After(t, i));
  }

  lemma KeyIn<V>(t: Tree<V>, i: nat)
    requires t.Proper() && i < |t.keys|
    ensures Entry(t.keys[i], t.values[i]) in Entries(t)
  {
    ViewKey(t, i);
  }

  lemma KeyAbsent<V>(t: Tree<V>, k: Key, i: nat)
    requires t.Proper() && i < |t.keys| && Absent(Entries(t), k)
    ensures t.keys[i] != k
  {
    KeyIn(t, i);
  }

  lemma KeysSorted<V>(t: Tree<V>, i: nat, j: nat)
    requires t.Proper() && Sorted(Entries(t)) && i < j < |t.keys|
    ensures t.keys[i] < t.keys[j]
  {
    ViewKey(t, j);
    SortedConcat(Before(t, j) + Kid(t, j), Entry(t.keys[j], t.values[j]), From(t, j + 1));
    KeyBefore(t, i, j);
    var n :| 0 <= n < |Before(t, j)| && Before(t, j)[n] == Entry(t.keys[i], t.values[i]);
    assert (Before(t, j) + Kid(t, j))[n].key == t.keys[i];
  }

  lemma {:induction false} KeyBefore<V>(t: Tree<V>, i: nat, j: nat)
    requires t.Proper() && i < j <= |t.keys|
    ensures Entry(t.keys[i], t.values[i]) in Before(t, j)
    decreases j
  {
    if i < j - 1 {
      KeyBefore(t, i, j - 1);
    }
  }

  // Lookup --------------------------------------------------------------------

  function Lookup<V>(e: seq<Entry<V>>, k: Key): Option<V> {
    if e == [] then None else if e[0].key == k then Some(e[0].value) else Lookup(e[1..], k)
  }

  lemma {:induction false} LookupSkips<V>(a: seq<Entry<V>>, b: seq<Entry<V>>, k: Key)
    requires Absent(a, k)
    ensures Lookup(a + b, k) == Lookup(b, k)
  {
    if a == [] {
      assert a + b == b;
    } else {
      assert (a + b)[1..] == a[1..] + b;
      LookupSkips(a[1..], b, k);
    }
  }

  lemma {:induction false} LookupStops<V>(a: seq<Entry<V>>, b: seq<Entry<V>>, k: Key)
    requires Absent(b, k)
    ensures Lookup(a + b, k) == Lookup(a, k)
  {
    if a == [] {
      assert a + b == b && b + [] == b;
      LookupSkips(b, [], k);
    } else {
      assert (a + b)[1..] == a[1..] + b;
      LookupStops(a[1..], b, k);
    }
  }

  lemma {:induction false} AbsentIffNone<V>(e: seq<Entry<V>>, k: Key)
    ensures Absent(e, k) <==> Lookup(e, k) == None
  {
    if e != [] {
      AbsentIffNone(e[1..], k);
      assert Absent(e, k) <==> e[0].key != k && Absent(e[1..], k) by {
        assert forall i :: 0 < i < |e| ==> e[i] == e[1..][i - 1];
      }
    }
  }

  // In a sorted list Lookup finds exactly the entries that are there.
  lemma LookupIffMember<V>(e: seq<Entry<V>>, k: Key, v: V)
    requires Sorted(e)
    ensures Lookup(e, k) == Some(v) <==> Entry(k, v) in e
  {
    if Lookup(e, k) == Some(v) {
      LookupMember(e, k);
    }
    if Entry(k, v) in e {
      var i :| 0 <= i < |e| && e[i] == Entry(k, v);
      LookupKey(e[..i], e[i], e[i + 1..]);
      assert e == e[..i] + [e[i]] + e[i + 1..];
    }
  }

  lemma {:induction false} LookupMember<V>(e: seq<Entry<V>>, k: Key)
    requires Lookup(e, k).Some?
    ensures Entry(k, Lookup(e, k).value) in e
  {
    if e[0].key != k {
      LookupMember(e[1..], k);
    }
  }

  lemma LookupKey<V>(a: seq<Entry<V>>, x: Entry<V>, b: seq<Entry<V>>)
    requires Absent(a, x.key)
    ensures Lookup(a + [x] + b, x.key) == Some(x.value)
  {
    assert a + [x] + b == a + ([x] + b);
    LookupSkips(a, [x] + b, x.key);
  }

  // Searching the child that covers k is searching the node.
  lemma LookupInChild<V>(t: Tree<V>, i: nat, k: Key)
    requires Covers(t, i, k)
    ensures Lookup(Entries(t), k) == Lookup(Kid(t, i), k)
  {
    var a, b, c := Before(t, i), Kid(t, i), After(t, i);
    ViewChild(t, i);
    LookupStops(a + b, c, k);
    LookupSkips(a, b, k);
  }

  // A key that is in the tree but not in its root is in the covering child.
  lemma NotHere<V>(t: Tree<V>, i: nat, k: Key)
    requires Covers(t, i, k) && !Absent(Entries(t), k)
    ensures t.children != [] && !Absent(Entries(t.children[i]), k)
  {
    AbsentIffNone(Entries(t), k);
    LookupInChild(t, i, k);
    AbsentIffNone(Kid(t, i), k);
  }

  // Put -----------------------------------------------------------------------

  // Replaces the value at key k, or enters k at its place in the order.
  function Put<V>(e: seq<Entry<V>>, k: Key, v: V): (r: seq<Entry<V>>) {
    if e == [] then [Entry(k, v)]
    else if e[0].key == k then [Entry(k, v)] + e[1..]
    else if k < e[0].key then [Entry(k, v)] + e
    else [e[0]] + Put(e[1..], k, v)
  }

  lemma {:induction false} PutSkips<V>(a: seq<Entry<V>>, b: seq<Entry<V>>, k: Key, v: V)
    requires AllBelow(a, k)
    ensures Put(a + b, k, v) == a + Put(b, k, v)
  {
    if a == [] {
      assert a + b == b;
    } else {
      assert (a + b)[1..] == a[1..] + b;
      PutSkips(a[1..], b, k, v);
    }
  }

  lemma {:induction false} PutStops<V>(a: seq<Entry<V>>, b: seq<Entry<V>>, k: Key, v: V)
    requires AllAbove(b, k)
    ensures Put(a + b, k, v) == Put(a, k, v) + b
  {
    if a == [] {
      assert a + b == b;
    } else {
      assert (a + b)[1..] == a[1..] + b;
      PutStops(a[1..], b, k, v);
    }
  }

  lemma PutKey<V>(a: seq<Entry<V>>, x: Entry<V>, b: seq<Entry<V>>, v: V)
    requires AllBelow(a, x.key)
    ensures Put(a + [x] + b, x.key, v) == a + [Entry(x.key, v)] + b
  {
    assert a + [x] + b == a + ([x] + b);
    PutSkips(a, [x] + b, x.key, v);
    assert ([x] + b)[1..] == b;
  }

  lemma PutNew<V>(a: seq<Entry<V>>, b: seq<Entry<V>>, k: Key, v: V)
    requires AllBelow(a, k) && AllAbove(b, k)
    ensures Put(a + b, k, v) == a + [Entry(k, v)] + b
  {
    PutSkips(a, b, k, v);
    if b == [] {
      assert Put(b, k, v) == [Entry(k, v)];
    }
  }

  // Put touches the entry at k alone, keeps the order, and adds an entry exactly
  // when k was absent.
  lemma {:induction false} PutMembers<V>(e: seq<Entry<V>>, k: Key, v: V, x: Entry<V>)
    requires Sorted(e)
    ensures x in Put(e, k, v) <==> x == Entry(k, v) || (x in e && x.key != k)
  {
    if e != [] {
      assert e == [e[0]] + e[1..];
      if e[0].key < k {
        PutMembers(e[1..], k, v, x);
      }
    }
  }

  lemma {:induction false} PutSorted<V>(e: seq<Entry<V>>, k: Key, v: V)
    requires Sorted(e)
    ensures Sorted(Put(e, k, v))
  {
    if e != [] && e[0].key < k {
      PutSorted(e[1..], k, v);
      var r := Put(e[1..], k, v);
      forall j | 0 <= j < |r| ensures e[0].key < r[j].key {
        PutMembers(e[1..], k, v, r[j]);
      }
    }
  }

  lemma {:induction false} PutLength<V>(e: seq<Entry<V>>, k: Key, v: V)
    requires Sorted(e)
    ensures |Put(e, k, v)| == |e| + if Absent(e, k) then 1 else 0
  {
    if e != [] {
      if k <= e[0].key {
        assert k < e[0].key ==> Absent(e, k);
      } else {
        PutLength(e[1..], k, v);
        assert Absent(e, k) <==> Absent(e[1..], k) by {
          assert forall i :: 0 < i < |e| ==> e[i] == e[1..][i - 1];
        }
      }
    }
  }

  lemma LookupPut<V>(e: seq<Entry<V>>, k: Key, v: V, x: Key)
    requires Sorted(e)
    ensures Sorted(Put(e, k, v))
    ensures Lookup(Put(e, k, v), x) == if x == k then Some(v) else Lookup(e, x)
  {
    PutSorted(e, k, v);
    SameLookup(e, Put(e, k, v), k, Some(v), x);
  }

  // Lists with the same members away from k have the same lookups there.
  lemma SameLookup<V>(e: seq<Entry<V>>, r: seq<Entry<V>>, k: Key, at: Option<V>, x: Key)
    requires Sorted(e) && Sorted(r)
    requires (at.Some? && r == Put(e, k, at.value)) || (at.None? && r == WithoutKey(e, k))
    ensures Lookup(r, x) == if x == k then at else Lookup(e, x)
  {
    var want := if x == k then at else Lookup(e, x);
    match want
    case Some(w) =>
      LookupIffMember(e, x, w);
      LookupIffMember(r, x, w);
      if at.Some? { PutMembers(e, k, at.value, Entry(x, w)); } else { WithoutKeyMembers(e, k, Entry(x, w)); }
    case None =>
      if Lookup(r, x).Some? {
        var w := Lookup(r, x).value;
        LookupIffMember(e, x, w);
        LookupIffMember(r, x, w);
        if at.Some? { PutMembers(e, k, at.value, Entry(x, w)); } else { WithoutKeyMembers(e, k, Entry(x, w)); }
      }
  }

  // u holds what t holds, except at key k, where it holds v.
  ghost predicate IsPut<V>(t: Tree<V>, u: Tree<V>, k: Key, v: V) {
    Entries(u) == Put(Entries(t), k, v)
  }

  // A put into the covering child is a put into the node.
  lemma PutInChild<V>(t: Tree<V>, i: nat, c: Tree<V>, k: Key, v: V)
    requires Covers(t, i, k) && t.children != [] && IsPut(t.children[i], c, k, v)
    ensures IsPut(t, t.(children := t.children[i := c]), k, v)
  {
    var u := t.(children := t.children[i := c]);
    var a, b, e := Before(t, i), Kid(t, i), After(t, i);
    ViewChild(t, i);
    ViewChild(u, i);
    SameBefore(t, u, i);
    if i < |t.keys| {
      SameFrom(t, i + 1, u, 0);
    }
    PutStops(a + b, e, k, v);
    PutSkips(a, b, k, v);
  }

  lemma GoodChild<V>(t: Tree<V>, i: nat, c: Tree<V>, d: nat, h: nat)
    requires h > 0 && Good(t, d, h) && i <= |t.keys|
    requires Good(c, d, h - 1) && |c.keys| >= |t.children[i].keys|
    ensures Good(t.(children := t.children[i := c]), d, h)
  {
    var u := t.(children := t.children[i := c]);
    assert t.children[i] in t.children;
    forall x | x in u.children ensures |x.keys| >= d - 1 && Good(x, d, h - 1) {
      assert x == c || x in t.children;
    }
  }

  lemma SortedKid<V>(t: Tree<V>, i: nat)
    requires t.Proper() && i <= |t.keys| && Sorted(Entries(t))
    ensures Sorted(Kid(t, i))
  {
    ViewChild(t, i);
    SortedParts(Before(t, i), Kid(t, i), After(t, i));
  }

  lemma GoodKid<V>(t: Tree<V>, i: nat, d: nat, h: nat)
    requires Good(t, d, h) && t.children != [] && i <= |t.keys| && Sorted(Kid(t, i))
    ensures h > 0 && Good(t.children[i], d, h - 1) && Sorted(Entries(t.children[i]))
  {
    assert t.children[i] in t.children;
  }

  lemma KidReady<V>(t: Tree<V>, i: nat, k: Key, d: nat, h: nat)
    requires Good(t, d, h) && t.children != [] && Covers(t, i, k)
    requires Sorted(Kid(t, i)) && Absent(Entries(t), k)
    ensures h > 0 && Good(t.children[i], d, h - 1)
    ensures Sorted(Entries(t.children[i])) && Absent(Entries(t.children[i]), k)
  {
    GoodKid(t, i, d, h);
    ViewChild(t, i);
    AbsentParts(Before(t, i), Kid(t, i), After(t, i), k);
  }

  // Both halves of the matter when a put reaches a node through its child.
  lemma PutThroughChild<V>(t: Tree<V>, i: nat, c: Tree<V>, k: Key, v: V, d: nat, h: nat)
    requires h > 0 && Good(t, d, h) && Covers(t, i, k)
    requires Good(c, d, h - 1) && |c.keys| >= |t.children[i].keys| && IsPut(t.children[i], c, k, v)
    ensures var u := Node(t.keys, t.values, t.children[i := c]);
      Good(u, d, h) && IsPut(t, u, k, v)
  {
    PutInChild(t, i, c, k, v);
    GoodChild(t, i, c, d, h);
  }

  // Overwriting the value of a key that is in the node.
  lemma PutHere<V>(t: Tree<V>, i: nat, v: V)
    requires t.Proper() && i < |t.keys| && Sorted(Entries(t))
    ensures IsPut(t, t.(values := t.values[i := v]), t.keys[i], v)
  {
    var u := t.(values := t.values[i := v]);
    ViewKey(t, i);
    ViewKey(u, i);
    SameBefore(t, u, i);
    SameFrom(t, i + 1, u, 0);
    PutSorted3(Before(t, i) + Kid(t, i), Entry(t.keys[i], t.values[i]), From(t, i + 1), v);
  }

  lemma PutSorted3<V>(a: seq<Entry<V>>, x: Entry<V>, b: seq<Entry<V>>, v: V)
    requires Sorted(a + [x] + b)
    ensures Put(a + [x] + b, x.key, v) == a + [Entry(x.key, v)] + b
  {
    SortedConcat(a, x, b);
    PutKey(a, x, b, v);
  }

  lemma PutInLeaf<V>(t: Tree<V>, i: nat, k: Key, v: V)
    requires t.children == [] && Covers(t, i, k)
    ensures IsPut(t, Node(Inserted(t.keys, i, k), Inserted(t.values, i, v), []), k, v)
  {
    var u := Node(Inserted(t.keys, i, k), Inserted(t.values, i, v), []);
    LeafView(t, i);
    GrownLeaf(t, u, i);
    PutNew(Before(t, i), After(t, i), k, v);
  }

  lemma LeafView<V>(t: Tree<V>, i: nat)
    requires t.Proper() && t.children == [] && i <= |t.keys|
    ensures From(t, i) == After(t, i) && Kid(t, i) == []
    ensures Entries(t) == Before(t, i) + After(t, i)
  {
    ViewChild(t, i);
    assert [] + After(t, i) == After(t, i);
    assert Before(t, i) + [] == Before(t, i);
  }

  lemma GrownLeaf<V>(t: Tree<V>, u: Tree<V>, i: nat)
    requires t.Proper() && u.Proper() && t.children == u.children == [] && i <= |t.keys|
    requires Shifted(t, i, u, 1)
    requires forall j :: 0 <= j < i ==> u.keys[j] == t.keys[j] && u.values[j] == t.values[j]
    ensures Entries(u) == Before(t, i) + [Entry(u.keys[i], u.values[i])] + After(t, i)
  {
    LeafView(t, i);
    ViewKey(u, i);
    SameBefore(t, u, i);
    SameFrom(t, i, u, 1);
    assert Before(u, i) + Kid(u, i) == Before(t, i);
  }

  // Splitting a full child ----------------------------------------------------

  predicate Full<V>(c: Tree<V>, d: nat) {
    1 <= d && |c.keys| == |c.values| == 2 * d - 1 && (c.children == [] || |c.children| == 2 * d)
  }

  function LeftHalf<V>(c: Tree<V>, d: nat): Tree<V>
    requires Full(c, d)
  {
    Node(c.keys[..d - 1], c.values[..d - 1], if c.children == [] then [] else c.children[..d])
  }

  function RightHalf<V>(c: Tree<V>, d: nat): Tree<V>
    requires Full(c, d)
  {
    Node(c.keys[d..], c.values[d..], if c.children == [] then [] else c.children[d..])
  }

  // The middle key of child i moves up between the child's two halves.
  function SplitChild<V>(p: Tree<V>, i: nat, d: nat): (s: Tree<V>)
    requires p.Proper() && p.children != [] && i <= |p.keys| && Full(p.children[i], d)
    ensures s.Proper() && |s.keys| == |p.keys| + 1
  {
    var c := p.children[i];
    Node(Inserted(p.keys, i, c.keys[d - 1]), Inserted(p.values, i, c.values[d - 1]),
         Inserted(p.children[i := LeftHalf(c, d)], i + 1, RightHalf(c, d)))
  }

  lemma HalvesEntries<V>(c: Tree<V>, d: nat)
    requires Full(c, d)
    ensures Entries(c) ==
      Entries(LeftHalf(c, d)) + [Entry(c.keys[d - 1], c.values[d - 1])] + Entries(RightHalf(c, d))
  {
    var l, r := LeftHalf(c, d), RightHalf(c, d);
    ViewKey(c, d - 1);
    ViewFrom(l, d - 1);
    SameBefore(c, l, d - 1);
    SameFrom(r, 0, c, d);
  }

  lemma SplitAfter<V>(p: Tree<V>, i: nat, d: nat)
    requires p.Proper() && p.children != [] && i <= |p.keys| && Full(p.children[i], d)
    ensures After(SplitChild(p, i, d), i + 1) == After(p, i)
  {
    if i < |p.keys| {
      var s := SplitChild(p, i, d);
      SplitShifts(p, i, d);
      SameFrom(p, i + 1, s, 1);
      assert s.keys[i + 1] == p.keys[i] && s.values[i + 1] == p.values[i];
    }
  }

  lemma SplitShifts<V>(p: Tree<V>, i: nat, d: nat)
    requires p.Proper() && p.children != [] && i < |p.keys| && Full(p.children[i], d)
    ensures Shifted(p, i + 1, SplitChild(p, i, d), 1)
  {
  }

  // Splitting moves entries between nodes and changes none.
  lemma SplitKeepsEntries<V>(p: Tree<V>, i: nat, d: nat)
    requires p.Proper() && p.children != [] && i <= |p.keys| && Full(p.children[i], d)
    ensures Entries(SplitChild(p, i, d)) == Entries(p)
  {
    var c, s := p.children[i], SplitChild(p, i, d);
    var a, l, m, r := Before(p, i), Entries(LeftHalf(c, d)), [Entry(c.keys[d - 1], c.values[d - 1])],
      Entries(RightHalf(c, d));
    HalvesEntries(c, d);
    ViewChild(p, i);
    ViewKey(s, i);
    SameBefore(p, s, i);
    ViewChild(s, i + 1);
    SplitAfter(p, i, d);
    RegroupSplit(a, l, m, r, After(p, i));
  }

  lemma RegroupSplit<T>(a: seq<T>, l: seq<T>, m: seq<T>, r: seq<T>, e: seq<T>)
    ensures a + (l + m + r) + e == (a + l) + m + (r + e)
  {
  }

  lemma HalvesGood<V>(c: Tree<V>, d: nat, h: nat)
    requires 2 <= d && Good(c, d, h) && |c.keys| == 2 * d - 1
    ensures Full(c, d) && Good(LeftHalf(c, d), d, h) && Good(RightHalf(c, d), d, h)
  {
    if h > 0 {
      var l, r := LeftHalf(c, d), RightHalf(c, d);
      assert forall x :: x in l.children ==> x in c.children;
      assert forall x :: x in r.children ==> x in c.children;
    }
  }

  lemma SplitKeepsGood<V>(p: Tree<V>, i: nat, d: nat, h: nat)
    requires 2 <= d && h > 0 && Good(p, d, h) && |p.keys| < 2 * d - 1
    requires i <= |p.keys| && |p.children[i].keys| == 2 * d - 1
    ensures Full(p.children[i], d) && Good(SplitChild(p, i, d), d, h)
  {
    var c := p.children[i];
    assert c in p.children;
    HalvesGood(c, d, h - 1);
    var s := SplitChild(p, i, d);
    forall x | x in s.children ensures |x.keys| >= d - 1 && Good(x, d, h - 1) {
      assert x == LeftHalf(c, d) || x == RightHalf(c, d) || x in p.children;
    }
  }

  // After a split, one of the halves covers the key that the child covered.
  lemma SplitChoice<V>(p: Tree<V>, i: nat, k: Key, d: nat, h: nat)
    requires 2 <= d && h > 0 && Good(p, d, h) && |p.keys| < 2 * d - 1
    requires Sorted(Entries(p)) && Absent(Entries(p), k)
    requires i <= |p.keys| && |p.children[i].keys| == 2 * d - 1
    requires i > 0 ==> p.keys[i - 1] < k
    requires i < |p.keys| ==> k < p.keys[i]
    ensures Full(p.children[i], d)
    ensures var s := SplitChild(p, i, d);
      var r := if k > s.keys[i] then i + 1 else i;
      && Good(s, d, h) && Entries(s) == Entries(p)
      && Covers(s, r, k) && Sorted(Kid(s, r)) && |s.children[r].keys| < 2 * d - 1
  {
    SplitKeepsGood(p, i, d, h);
    SplitKeepsEntries(p, i, d);
    var s := SplitChild(p, i, d);
    KeyAbsent(s, k, i);
    SplitKeys(p, i, d);
    if k > s.keys[i] {
      CoversBetween(s, i + 1, k);
    } else {
      CoversBetween(s, i, k);
    }
  }

  // The middle key comes between the keys around the child, which has two halves now.
  lemma SplitKeys<V>(p: Tree<V>, i: nat, d: nat)
    requires p.Proper() && p.children != [] && i <= |p.keys| && Full(p.children[i], d)
    ensures var s := SplitChild(p, i, d);
      && |s.children| == |s.keys| + 1
      && (i > 0 ==> s.keys[i - 1] == p.keys[i - 1]) && (i < |p.keys| ==> s.keys[i + 1] == p.keys[i])
      && s.children[i] == LeftHalf(p.children[i], d) && s.children[i + 1] == RightHalf(p.children[i], d)
  {
  }

  // A full root becomes the only child of a new root and is split.
  lemma GrowRoot<V>(t: Tree<V>, d: nat, h: nat) returns (s: Tree<V>)
    requires 2 <= d && GoodRoot(t, d, h) && |t.keys| == 2 * d - 1 && Sorted(Entries(t))
    ensures Full(t, d)
    ensures s == SplitChild(Node([], [], [t]), 0, d)
    ensures GoodRoot(s, d, h + 1) && |s.keys| == 1 && Entries(s) == Entries(t) && Sorted(Entries(s))
  {
    var p := Node([], [], [t]);
    SplitKeepsGood(p, 0, d, h + 1);
    SplitKeepsEntries(p, 0, d);
    assert Entries(p) == Kid(p, 0);
    s := SplitChild(p, 0, d);
  }

  // Range queries -------------------------------------------------------------

  // The values whose keys lie in [min, max], in key order.
  function InRange<V>(e: seq<Entry<V>>, min: Key, max: Key): seq<V> {
    if e == [] then []
    else (if min <= e[0].key <= max then [e[0].value] else []) + InRange(e[1..], min, max)
  }

  lemma {:induction false} InRangeConcat<V>(a: seq<Entry<V>>, b: seq<Entry<V>>, min: Key, max: Key)
    ensures InRange(a + b, min, max) == InRange(a, min, max) + InRange(b, min, max)
  {
    if a == [] {
      assert a + b == b;
    } else {
      assert (a + b)[1..] == a[1..] + b;
      InRangeConcat(a[1..], b, min, max);
    }
  }

  lemma {:induction false} InRangeNone<V>(e: seq<Entry<V>>, min: Key, max: Key)
    requires AllAbove(e, max)
    ensures InRange(e, min, max) == []
  {
    if e != [] {
      InRangeNone(e[1..], min, max);
    }
  }

  // One more child and key to the left of the scan.
  lemma InRangeStep<V>(t: Tree<V>, i: nat, min: Key, max: Key)
    requires t.Proper() && i < |t.keys|
    ensures InRange(Before(t, i + 1), min, max) ==
      InRange(Before(t, i), min, max) + InRange(Kid(t, i), min, max)
      + (if min <= t.keys[i] <= max then [t.values[i]] else [])
  {
    var x := [Entry(t.keys[i], t.values[i])];
    InRangeConcat(Before(t, i) + Kid(t, i), x, min, max);
    InRangeConcat(Before(t, i), Kid(t, i), min, max);
    assert x[1..] == [];
  }

  lemma InRangeLast<V>(t: Tree<V>, min: Key, max: Key)
    requires t.Proper()
    ensures InRange(Entries(t), min, max) ==
      InRange(Before(t, |t.keys|), min, max) + InRange(Kid(t, |t.keys|), min, max)
  {
    ViewFrom(t, |t.keys|);
    InRangeConcat(Before(t, |t.keys|), Kid(t, |t.keys|), min, max);
  }

  // Nothing at or to the right of a key above max is in range.
  lemma InRangeExit<V>(t: Tree<V>, i: nat, min: Key, max: Key)
    requires t.Proper() && Sorted(Entries(t)) && i < |t.keys| && t.keys[i] > max
    ensures InRange(Entries(t), min, max) ==
      InRange(Before(t, i), min, max) + InRange(Kid(t, i), min, max)
  {
    var a, x, b := Before(t, i) + Kid(t, i), Entry(t.keys[i], t.values[i]), From(t, i + 1);
    ViewKey(t, i);
    SortedConcat(a, x, b);
    assert a + [x] + b == a + ([x] + b);
    InRangeConcat(a, [x] + b, min, max);
    InRangeNone([x] + b, min, max);
    InRangeConcat(Before(t, i), Kid(t, i), min, max);
  }

  // Over ascending keys the result is one slice of the values: exactly those with a key
  // in the range, in key order and once each.
  lemma {:induction false} InRangeIsSlice<V>(e: seq<Entry<V>>, min: Key, max: Key) returns (lo: nat, hi: nat)
    requires Sorted(e)
    ensures lo <= hi <= |e| && forall i :: 0 <= i < |e| ==> (min <= e[i].key <= max <==> lo <= i < hi)
    ensures var r := InRange(e, min, max);
      |r| == hi - lo && forall i :: 0 <= i < |r| ==> r[i] == e[lo + i].value
  {
    lo, hi := 0, 0;
    if e != [] {
      var n := |e| - 1;
      lo, hi := InRangeIsSlice(e[..n], min, max);
      assert e == e[..n] + [e[n]];
      InRangeConcat(e[..n], [e[n]], min, max);
      assert InRange([e[n]][1..], min, max) == [];
      if min <= e[n].key <= max {
        if lo == hi {
          lo := n;
        } else {
          SliceReachesEnd(e, min, max, lo, hi);
        }
        hi := n + 1;
      }
    }
  }

  // If the last key is in the range and another one is, all in between are.
  lemma SliceReachesEnd<V>(e: seq<Entry<V>>, min: Key, max: Key, lo: nat, hi: nat)
    requires Sorted(e) && e != [] && lo < hi < |e| && min <= e[|e| - 1].key <= max
    requires forall i :: 0 <= i < |e| - 1 ==> (min <= e[i].key <= max <==> lo <= i < hi)
    ensures hi == |e| - 1
  {
    assert min <= e[hi - 1].key <= e[hi].key <= e[|e| - 1].key;
  }

  // Deleting ------------------------------------------------------------------

  function WithoutKey<V>(e: seq<Entry<V>>, k: Key): (r: seq<Entry<V>>)
    ensures |r| <= |e|
    ensures Absent(r, k)
  {
    if e == [] then []
    else if e[|e| - 1].key == k then WithoutKey(e[..|e| - 1], k)
    else WithoutKey(e[..|e| - 1], k) + [e[|e| - 1]]
  }

  lemma {:induction false} WithoutKeyMembers<V>(e: seq<Entry<V>>, k: Key, x: Entry<V>)
    ensures x in WithoutKey(e, k) <==> x in e && x.key != k
  {
    if e != [] {
      assert e == e[..|e| - 1] + [e[|e| - 1]];
      WithoutKeyMembers(e[..|e| - 1], k, x);
    }
  }

  lemma {:induction false} WithoutSorted<V>(e: seq<Entry<V>>, k: Key)
    requires Sorted(e)
    ensures Sorted(WithoutKey(e, k))
  {
    if e != [] {
      var n := |e| - 1;
      WithoutSorted(e[..n], k);
      forall i | 0 <= i < |WithoutKey(e[..n], k)| ensures WithoutKey(e[..n], k)[i].key < e[n].key {
        WithoutKeyMembers(e[..n], k, WithoutKey(e[..n], k)[i]);
      }
    }
  }

  lemma {:induction false} WithoutAbsent<V>(e: seq<Entry<V>>, k: Key)
    requires Absent(e, k)
    ensures WithoutKey(e, k) == e
  {
    if e != [] {
      WithoutAbsent(e[..|e| - 1], k);
      assert e == e[..|e| - 1] + [e[|e| - 1]];
    }
  }

  lemma LookupWithout<V>(e: seq<Entry<V>>, k: Key, x: Key)
    requires Sorted(e)
    ensures Sorted(WithoutKey(e, k))
    ensures Lookup(WithoutKey(e, k), x) == if x == k then None else Lookup(e, x)
  {
    WithoutSorted(e, k);
    SameLookup(e, WithoutKey(e, k), k, None, x);
  }

  // Re-inserting entries in key order appends each one at the end.
  lemma PutLast<V>(e: seq<Entry<V>>, n: nat, k: Key)
    requires Sorted(e) && n < |e| && e[n].key != k
    ensures Put(WithoutKey(e[..n], k), e[n].key, e[n].value) == WithoutKey(e[..n + 1], k)
  {
    var a, x := WithoutKey(e[..n], k), e[n];
    forall i | 0 <= i < |a| ensures a[i].key < x.key {
      WithoutKeyMembers(e[..n], k, a[i]);
    }
    PutNew(a, [], x.key, x.value);
    assert a + [] == a && a + [x] + [] == a + [x];
    assert e[..n + 1][..n] == e[..n];
  }
}
