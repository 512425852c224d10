// The B-tree with its nodes changed in place.
module BTree {
  import opened Options
  import opened Sequences
  import opened BTreeModel

  class Node<V> {
    var keys: seq<Key>
    var values: seq<V>
    var children: seq<Node<V>>
    var leaf: bool

    // The nodes below and including this one, and the tree they form.
    ghost var repr: set<object>
    ghost var tree: Tree<V>

    ghost predicate Valid()
      reads this, repr
      decreases repr
      ensures Valid() ==> this in repr
    {
      && this in repr
      && (leaf <==> children == [])
      && (forall c :: c in children ==> c in repr && c.repr <= repr && this !in c.repr && c.Valid())
      && (forall i, j :: 0 <= i < j < |children| ==> children[i].repr !! children[j].repr)
      && tree.keys == keys && tree.values == values && |tree.children| == |children|
      && (forall i :: 0 <= i < |children| ==> tree.children[i] == children[i].tree)
    }

    // A new node over the given keys and children.
    constructor (ks: seq<Key>, vs: seq<V>, kids: seq<Node<V>>)
      requires forall c :: c in kids ==> c.Valid()
      requires forall i, j :: 0 <= i < j < |kids| ==> kids[i].repr !! kids[j].repr
      ensures Valid() && fresh(this) && repr == {this} + Below(kids)
      ensures tree == BTreeModel.Node(ks, vs, Trees(kids)) && children == kids
    {
      keys, values, children, leaf := ks, vs, kids, kids == [];
      repr, tree := {this} + Below(kids), BTreeModel.Node(ks, vs, Trees(kids));
    }

    // The index scan shared by all operations.
    method Scan(key: Key) returns (i: nat)
      requires Valid() && tree.Proper() && Sorted(Entries(tree))
      ensures i <= |keys|
      ensures i > 0 ==> keys[i - 1] < key
      ensures i < |keys| ==> key <= keys[i]
    {
      i := 0;
      while i < |keys| && key > keys[i]
        invariant 0 <= i <= |keys|
        invariant i > 0 ==> keys[i - 1] < key
      {
        i := i + 1;
      }
    }

    method Search(key: Key, ghost d: nat, ghost h: nat) returns (r: Option<V>)
      requires Valid() && Good(tree, d, h) && Sorted(Entries(tree))
      ensures r == Lookup(Entries(tree), key)
      decreases repr
    {
      var i := Scan(key);
      if i < |keys| && key == keys[i] {
        KeyIn(tree, i);
        LookupIffMember(Entries(tree), key, values[i]);
        return Some(values[i]);
      }
      CoversBetween(tree, i, key);
      LookupInChild(tree, i, key);
      if leaf {
        return None;
      }
      assert children[i].tree in tree.children;
      r := children[i].Search(key, d, h - 1);
    }

    // Valid, except that repr and tree may lag behind the children.
    ghost predicate Linked()
      reads this, children, Below(children)
    {
      && (leaf <==> children == [])
      && (forall c :: c in children ==> this !in c.repr && c.Valid())
      && (forall i, j :: 0 <= i < j < |children| ==> children[i].repr !! children[j].repr)
    }

    // Brings repr and tree up to date after a change to a child.
    ghost method Refresh()
      requires Linked() && this in repr
      modifies this`repr, this`tree
      ensures Valid() && repr == old(repr) + Below(children)
      ensures tree == BTreeModel.Node(keys, values, Trees(children))
    {
      repr := repr + Below(children);
      tree := BTreeModel.Node(keys, values, Trees(children));
    }

    // Changing the nodes under child i alone leaves the others as they were.
    twostate lemma OthersKept(i: nat, new changed: set<object>)
      requires old(Valid()) && i < |old(children)|
      requires children == old(children) && leaf == old(leaf) && tree == old(tree)
      requires changed == old(children[i].repr)
      requires forall o: object :: old(allocated(o)) && o !in changed ==> unchanged(o)
      requires children[i].Valid() && fresh(children[i].repr - changed)
      ensures Linked() && fresh(Below(children) - old(repr))
      ensures Trees(children) == tree.children[i := children[i].tree]
    {
      assert forall j :: 0 <= j < |children| && j != i ==> unchanged(children[j]);
    }

    method Update(key: Key, value: V, ghost d: nat, ghost h: nat)
      requires Valid() && Good(tree, d, h) && Sorted(Entries(tree)) && !Absent(Entries(tree), key)
      modifies repr
      ensures Valid() && fresh(repr - old(repr))
      ensures Good(tree, d, h) && |tree.keys| == |old(tree).keys|
      ensures IsPut(old(tree), tree, key, value)
      decreases repr
    {
      var i := Scan(key);
      if i < |keys| && key == keys[i] {
        SetValue(i, value, d, h);
      } else {
        CoversBetween(tree, i, key);
        NotHere(tree, i, key);
        GoodKid(tree, i, d, h);
        ghost var t := tree;
        ghost var c := UpdateBelow(i, key, value, d, h);
        PutThroughChild(t, i, c, key, value, d, h);
      }
    }

    method SetValue(i: nat, value: V, ghost d: nat, ghost h: nat)
      requires Valid() && Good(tree, d, h) && Sorted(Entries(tree)) && i < |keys|
      modifies this
      ensures Valid() && repr == old(repr) && keys == old(keys)
      ensures Good(tree, d, h)
      ensures IsPut(old(tree), tree, keys[i], value)
    {
      PutHere(tree, i, value);
      values := values[i := value];
      tree := tree.(values := values);
    }

    method UpdateBelow(i: nat, key: Key, value: V, ghost d: nat, ghost h: nat) returns (ghost c: Tree<V>)
      requires Valid() && i < |children| && h > 0
      requires Good(tree.children[i], d, h - 1) && Sorted(Entries(tree.children[i]))
      requires !Absent(Entries(tree.children[i]), key)
      modifies repr
      ensures Valid() && fresh(repr - old(repr))
      ensures tree == BTreeModel.Node(old(tree).keys, old(tree).values, old(tree).children[i := c])
      ensures Good(c, d, h - 1) && |c.keys| == |old(tree).children[i].keys|
      ensures IsPut(old(tree).children[i], c, key, value)
      decreases repr, 0
    {
      children[i].Update(key, value, d, h - 1);
      c := children[i].tree;
      assert Good(c, d, h - 1) && IsPut(old(tree).children[i], c, key, value);
      OthersKept(i, old(children[i].repr));
      Refresh();
    }

    // Drops everything from the middle key on; keep is what stays below.
    method Truncate(t: nat, ghost keep: set<object>)
      requires Valid() && Full(tree, t)
      requires leaf ==> keep == {}
      requires !leaf ==> keep == Below(children[..t])
      modifies this
      ensures Valid() && tree == LeftHalf(old(tree), t) && repr == {this} + keep
    {
      ghost var was, full := children, tree;
      if !leaf {
        children := children[..t];
      }
      keys := keys[..t - 1];
      values := values[..t - 1];
      repr := {this} + keep;
      tree := LeftHalf(full, t);
      forall c | c in children ensures c.Valid() && c.repr <= repr && this !in c.repr {
        assert c in was;
      }
    }

    // Copies everything past the middle key into a new node; keep is what stays.
    method Upper(t: nat) returns (right: Node<V>, ghost keep: set<object>)
      requires Valid() && Full(tree, t)
      ensures fresh(right) && right.Valid() && right.tree == RightHalf(tree, t)
      ensures right.repr <= repr + {right} - {this} && keep <= repr && right.repr !! keep
      ensures leaf ==> keep == {}
      ensures !leaf ==> keep == Below(children[..t])
    {
      if leaf {
        right := new Node(keys[t..], values[t..], []);
        keep := {};
      } else {
        right := UpperInner(t);
        keep := Below(children[..t]);
        BelowDisjoint(children, t);
      }
    }

    method UpperInner(t: nat) returns (right: Node<V>)
      requires Valid() && Full(tree, t) && !leaf
      ensures fresh(right) && right.Valid() && right.tree == RightHalf(tree, t)
      ensures right.repr == {right} + Below(children[t..])
    {
      assert forall c :: c in children[t..] ==> c in children;
      right := new Node(keys[t..], values[t..], children[t..]);
      TreesSlice(children, tree.children, t);
    }

    // Moves the upper half of a full node into a new node.
    method Halve(t: nat) returns (right: Node<V>)
      requires Valid() && Full(tree, t)
      modifies this
      ensures Valid() && tree == LeftHalf(old(tree), t) && repr <= old(repr)
      ensures fresh(right) && right.Valid() && right.tree == RightHalf(old(tree), t)
      ensures right.repr <= old(repr) + {right} - {this} && right.repr !! repr
    {
      ghost var keep;
      right, keep := Upper(t);
      Truncate(t, keep);
    }

    lemma BelowDisjoint(kids: seq<Node<V>>, t: nat)
      requires Valid() && kids == children && t <= |kids|
      ensures Below(kids[..t]) <= repr - {this} && Below(kids[t..]) <= repr - {this}
      ensures Below(kids[..t]) !! Below(kids[t..])
    {
    }

    // Child i is halved: its upper half is ready to be attached to its right.
    method HalveChild(i: nat, t: nat) returns (right: Node<V>, ghost ts: seq<Tree<V>>, ghost rs: seq<set<object>>)
      requires Valid() && i < |children| && Full(tree.children[i], t) && tree.Proper()
      modifies children[i]
      ensures (keys, values, children, repr) == old((keys, values, children, repr))
      ensures ts == old(tree).children[i := LeftHalf(old(tree).children[i], t)]
      ensures fresh(right) && right.tree == RightHalf(old(tree).children[i], t)
      ensures Attachable(i, right, ts, rs)
    {
      var c := children[i];
      assert c.Valid() && c.tree == tree.children[i];
      ts, rs := tree.children, Reprs(children);
      right := c.Halve(t);
      forall j | 0 <= j < |children| && j != i
        ensures children[j].Valid() && children[j].repr == rs[j] && children[j].tree == ts[j]
      {
        assert rs[j] !! rs[i];
      }
      ts, rs := ts[i := c.tree], rs[i := c.repr];
    }

    // Over valid, disjoint children, which form the trees ts and own the nodes rs, a node
    // can be attached that shares nothing with them.
    ghost predicate Attachable(i: nat, right: Node<V>, ts: seq<Tree<V>>, rs: seq<set<object>>)
      reads this, children, Below(children), right, right.repr
    {
      && this in repr && !leaf && i < |children| && i <= |keys| == |values| && |ts| == |rs| == |children|
      && (forall j :: 0 <= j < |children| ==> children[j].Valid() && children[j].tree == ts[j])
      && (forall j :: 0 <= j < |children| ==> children[j].repr == rs[j] <= repr - {this})
      && Disjoint(rs) && (forall j :: 0 <= j < |rs| ==> rs[j] !! right.repr)
      && right.Valid() && right.repr <= repr + {right} - {this}
    }

    // Hangs a new node to the right of child i, with a key between the two.
    method Attach(i: nat, key: Key, value: V, right: Node<V>, ghost ts: seq<Tree<V>>, ghost rs: seq<set<object>>)
      requires Attachable(i, right, ts, rs)
      modifies this
      ensures Valid() && repr == old(repr) + {right}
      ensures tree == BTreeModel.Node(Inserted(old(keys), i, key), Inserted(old(values), i, value),
                                      Inserted(ts, i + 1, right.tree))
    {
      ghost var kids := children;
      DisjointInserted(rs, i, right.repr);
      keys := Inserted(keys, i, key);
      values := Inserted(values, i, value);
      children := Inserted(children, i + 1, right);
      repr := repr + {right};
      tree := BTreeModel.Node(keys, values, Inserted(ts, i + 1, right.tree));
      ghost var rs' := Inserted(rs, i + 1, right.repr);
      forall j | 0 <= j < |children| ensures children[j] == right || children[j] in kids {
        assert j > i + 1 ==> children[j] == kids[j - 1];
      }
      forall c | c in children ensures c.Valid() && c.repr <= repr && this !in c.repr {}
      forall j | 0 <= j < |children|
        ensures children[j].repr == rs'[j] && children[j].tree == tree.children[j]
      {
        if j > i + 1 { assert children[j] == kids[j - 1]; }
      }
    }

    method SplitChild(i: nat, t: nat)
      requires Valid() && tree.Proper() && i < |children| && Full(tree.children[i], t)
      modifies repr
      ensures Valid() && fresh(repr - old(repr))
      ensures tree == BTreeModel.SplitChild(old(tree), i, t)
    {
      assert children[i].Valid() && children[i].tree == tree.children[i];
      var midKey, midValue := children[i].keys[t - 1], children[i].values[t - 1];
      var right, ts, rs := HalveChild(i, t);
      Attach(i, midKey, midValue, right, ts, rs);
    }

    // Enters a key that is not in the tree below a node that is not full.
    method InsertNonFull(key: Key, value: V, t: nat, ghost h: nat)
      requires Valid() && 2 <= t && Good(tree, t, h) && |keys| < 2 * t - 1
      requires Sorted(Entries(tree)) && Absent(Entries(tree), key)
      modifies repr
      ensures Valid() && fresh(repr - old(repr))
      ensures Good(tree, t, h) && |tree.keys| >= |old(tree).keys|
      ensures IsPut(old(tree), tree, key, value)
      decreases h, 3
    {
      var i := ScanRight(key);
      CoversBetween(tree, i, key);
      if leaf {
        InsertInLeaf(i, key, value);
        PutInLeaf(old(tree), i, key, value);
      } else {
        InsertInner(i, key, value, t, h);
      }
    }

    // Makes room in child i if it is full, then goes down.
    method InsertInner(i: nat, key: Key, value: V, t: nat, ghost h: nat)
      requires Valid() && 2 <= t && Good(tree, t, h) && |keys| < 2 * t - 1 && !leaf
      requires Sorted(Entries(tree)) && Absent(Entries(tree), key)
      requires Covers(tree, i, key) && Sorted(Kid(tree, i))
      requires i > 0 ==> keys[i - 1] < key
      requires i < |keys| ==> key < keys[i]
      modifies repr
      ensures Valid() && fresh(repr - old(repr))
      ensures Good(tree, t, h) && |tree.keys| >= |old(tree).keys|
      ensures IsPut(old(tree), tree, key, value)
      decreases h, 2
    {
      GoodKid(tree, i, t, h);
      assert children[i].Valid() && children[i].tree == tree.children[i];
      var j := i;
      if |children[i].keys| == 2 * t - 1 {
        j := SplitAndChoose(i, key, t, h);
      }
      InsertVia(j, key, value, t, h);
    }

    // Goes down into the child that covers the key.
    method InsertVia(i: nat, key: Key, value: V, t: nat, ghost h: nat)
      requires Valid() && 2 <= t && Good(tree, t, h) && children != []
      requires Covers(tree, i, key) && Sorted(Kid(tree, i)) && Absent(Entries(tree), key)
      requires |tree.children[i].keys| < 2 * t - 1
      modifies repr
      ensures Valid() && fresh(repr - old(repr))
      ensures Good(tree, t, h) && |tree.keys| == |old(tree).keys|
      ensures IsPut(old(tree), tree, key, value)
      decreases h, 1
    {
      ghost var was := tree;
      KidReady(was, i, key, t, h);
      ghost var c := InsertBelow(i, key, value, t, h);
      PutThroughChild(was, i, c, key, value, t, h);
    }

    // The scan from the right: all keys from i on are above key.
    method ScanRight(key: Key) returns (i: nat)
      requires Valid() && tree.Proper() && Absent(Entries(tree), key)
      ensures i <= |keys|
      ensures i > 0 ==> keys[i - 1] < key
      ensures i < |keys| ==> key < keys[i]
    {
      i := |keys|;
      while i > 0 && key < keys[i - 1]
        invariant 0 <= i <= |keys|
        invariant i < |keys| ==> key < keys[i]
      {
        i := i - 1;
      }
      if i > 0 {
        KeyAbsent(tree, key, i - 1);
      }
    }

    // Shifts the larger entries one place to the right.
    method InsertInLeaf(i: nat, key: Key, value: V)
      requires Valid() && leaf && |keys| == |values| && i <= |keys|
      modifies this
      ensures Valid() && repr == old(repr)
      ensures tree == BTreeModel.Node(Inserted(old(tree).keys, i, key), Inserted(old(tree).values, i, value), [])
    {
      keys := ShiftIn(keys, i, key);
      values := ShiftIn(values, i, value);
      tree := BTreeModel.Node(keys, values, []);
    }

    // Splits the full child i and picks the half that covers key.
    method SplitAndChoose(i: nat, key: Key, t: nat, ghost h: nat) returns (r: nat)
      requires Valid() && 2 <= t && h > 0 && Good(tree, t, h) && |keys| < 2 * t - 1
      requires Sorted(Entries(tree)) && Absent(Entries(tree), key)
      requires i <= |keys| && |children[i].keys| == 2 * t - 1
      requires i > 0 ==> keys[i - 1] < key
      requires i < |keys| ==> key < keys[i]
      modifies repr
      ensures Valid() && fresh(repr - old(repr))
      ensures Good(tree, t, h) && Entries(tree) == Entries(old(tree)) && |tree.keys| == |old(tree).keys| + 1
      ensures r <= |tree.keys| && Covers(tree, r, key) && |tree.children[r].keys| < 2 * t - 1
      ensures Sorted(Kid(tree, r))
    {
      ghost var was := tree;
      assert children[i].Valid() && children[i].tree == tree.children[i];
      SplitChoice(was, i, key, t, h);
      SplitChild(i, t);
      r := if key > keys[i] then i + 1 else i;
    }

    method InsertBelow(i: nat, key: Key, value: V, t: nat, ghost h: nat) returns (ghost c: Tree<V>)
      requires Valid() && i < |children| && h > 0 && 2 <= t
      requires Good(tree.children[i], t, h - 1) && |tree.children[i].keys| < 2 * t - 1
      requires Sorted(Entries(tree.children[i])) && Absent(Entries(tree.children[i]), key)
      modifies repr
      ensures Valid() && fresh(repr - old(repr))
      ensures tree == BTreeModel.Node(old(tree).keys, old(tree).values, old(tree).children[i := c])
      ensures Good(c, t, h - 1) && |c.keys| >= |old(tree).children[i].keys|
      ensures IsPut(old(tree).children[i], c, key, value)
      decreases h, 0
    {
      children[i].InsertNonFull(key, value, t, h - 1);
      c := children[i].tree;
      assert Good(c, t, h - 1) && IsPut(old(tree).children[i], c, key, value);
      OthersKept(i, old(children[i].repr));
      Refresh();
    }

    // Reading -----------------------------------------------------------------

    method RangeQuery(min: Key, max: Key, result: seq<V>, ghost d: nat, ghost h: nat) returns (r: seq<V>)
      requires Valid() && Good(tree, d, h) && Sorted(Entries(tree))
      ensures r == result + InRange(Entries(tree), min, max)
      decreases h, 3
    {
      r := result;
      var i := 0;
      while i < |keys| && keys[i] < min
        invariant 0 <= i <= |keys|
        invariant r == result + InRange(Before(tree, i), min, max)
      {
        r := RangeKid(i, min, max, r, d, h);
        InRangeStep(tree, i, min, max);
        Join(result, InRange(Before(tree, i), min, max), InRange(Kid(tree, i), min, max), []);
        i := i + 1;
      }
      r := RangeRest(i, min, max, result, r, d, h);
    }

    // The second loop, from the first key that is not below min.
    method RangeRest(first: nat, min: Key, max: Key, ghost base: seq<V>, result: seq<V>, ghost d: nat, ghost h: nat)
      returns (r: seq<V>)
      requires Valid() && Good(tree, d, h) && Sorted(Entries(tree))
      requires first <= |keys| && (first < |keys| ==> min <= keys[first])
      requires result == base + InRange(Before(tree, first), min, max)
      ensures r == base + InRange(Entries(tree), min, max)
      decreases h, 2
    {
      r := result;
      var i := first;
      while i < |keys|
        invariant first <= i <= |keys|
        invariant r == base + InRange(Before(tree, i), min, max)
      {
        if first < i {
          KeysSorted(tree, first, i);
        }
        var stop;
        r, stop := RangeTurn(i, min, max, base, r, d, h);
        if stop {
          return;
        }
        i := i + 1;
      }
      r := RangeLast(min, max, base, r, d, h);
    }

    method RangeLast(min: Key, max: Key, ghost base: seq<V>, result: seq<V>, ghost d: nat, ghost h: nat)
      returns (r: seq<V>)
      requires Valid() && Good(tree, d, h) && Sorted(Entries(tree))
      requires result == base + InRange(Before(tree, |keys|), min, max)
      ensures r == base + InRange(Entries(tree), min, max)
      decreases h, 1
    {
      r := RangeKid(|keys|, min, max, result, d, h);
      InRangeLast(tree, min, max);
      Join(base, InRange(Before(tree, |keys|), min, max), InRange(Kid(tree, |keys|), min, max), []);
    }

    // One turn: the child at i, then its key unless that lies above max.
    method RangeTurn(i: nat, min: Key, max: Key, ghost base: seq<V>, result: seq<V>, ghost d: nat, ghost h: nat)
      returns (r: seq<V>, stop: bool)
      requires Valid() && Good(tree, d, h) && Sorted(Entries(tree)) && i < |keys| && min <= keys[i]
      requires result == base + InRange(Before(tree, i), min, max)
      ensures stop ==> r == base + InRange(Entries(tree), min, max)
      ensures !stop ==> r == base + InRange(Before(tree, i + 1), min, max)
      decreases h, 1
    {
      r := RangeKid(i, min, max, result, d, h);
      stop := keys[i] > max;
      if stop {
        InRangeExit(tree, i, min, max);
        Join(base, InRange(Before(tree, i), min, max), InRange(Kid(tree, i), min, max), []);
      } else {
        InRangeStep(tree, i, min, max);
        Join(base, InRange(Before(tree, i), min, max), InRange(Kid(tree, i), min, max), [values[i]]);
        r := r + [values[i]];
      }
    }

    method RangeKid(i: nat, min: Key, max: Key, result: seq<V>, ghost d: nat, ghost h: nat) returns (r: seq<V>)
      requires Valid() && Good(tree, d, h) && Sorted(Entries(tree)) && i <= |keys|
      ensures r == result + InRange(Kid(tree, i), min, max)
      decreases h, 0
    {
      if leaf {
        return result + [];
      }
      SortedKid(tree, i);
      GoodKid(tree, i, d, h);
      var c := children[i];
      assert c.Valid() && c.tree == tree.children[i];
      r := c.RangeQuery(min, max, result, d, h - 1);
    }

    method CollectEntries(entries: seq<Entry<V>>, ghost d: nat, ghost h: nat) returns (r: seq<Entry<V>>)
      requires Valid() && Good(tree, d, h)
      ensures r == entries + Entries(tree)
      decreases h, 1
    {
      r := entries;
      var i := 0;
      while i < |keys|
        invariant 0 <= i <= |keys|
        invariant r == entries + Before(tree, i)
      {
        r := CollectKid(i, r, d, h);
        Join(entries, Before(tree, i), Kid(tree, i), [Entry(keys[i], values[i])]);
        r := r + [Entry(keys[i], values[i])];
        i := i + 1;
      }
      r := CollectKid(i, r, d, h);
      ViewFrom(tree, i);
      Join(entries, Before(tree, i), Kid(tree, i), []);
    }

    method CollectKid(i: nat, entries: seq<Entry<V>>, ghost d: nat, ghost h: nat) returns (r: seq<Entry<V>>)
      requires Valid() && Good(tree, d, h) && i <= |keys|
      ensures r == entries + Kid(tree, i)
      decreases h, 0
    {
      if leaf {
        return entries + [];
      }
      assert children[i].Valid() && children[i].tree == tree.children[i];
      assert tree.children[i] in tree.children;
      r := children[i].CollectEntries(entries, d, h - 1);
    }
  }

  // Makes room at i, moving what follows one place up from the end, and puts x there.
  method ShiftIn<T>(s: seq<T>, i: nat, x: T) returns (r: seq<T>)
    requires i <= |s|
    ensures r == Inserted(s, i, x)
  {
    r := s + [x];
    var j := |s|;
    while j > i
      invariant i <= j <= |s| && |r| == |s| + 1
      invariant r[..j] == s[..j] && r[j + 1..] == s[j..]
    {
      r := r[j := r[j - 1]];
      j := j - 1;
    }
    r := r[i := x];
  }

  lemma Join<T>(a: seq<T>, b: seq<T>, c: seq<T>, d: seq<T>)
    ensures a + b + c + d == a + (b + c + d)
    ensures a + b + c == a + (b + c)
    ensures b + c + [] == b + c
  {
  }

  ghost function Reprs<V>(ns: seq<Node<V>>): (rs: seq<set<object>>)
    reads ns
    ensures |rs| == |ns| && forall i :: 0 <= i < |ns| ==> rs[i] == ns[i].repr
  {
    seq(|ns|, i requires 0 <= i < |ns| reads ns => ns[i].repr)
  }

  ghost predicate Disjoint(rs: seq<set<object>>) {
    forall i, j :: 0 <= i < j < |rs| ==> rs[i] !! rs[j]
  }

  lemma DisjointInserted(rs: seq<set<object>>, i: nat, b: set<object>)
    requires Disjoint(rs) && i < |rs| && forall j :: 0 <= j < |rs| ==> rs[j] !! b
    ensures Disjoint(Inserted(rs, i + 1, b))
  {
    var s := Inserted(rs, i + 1, b);
    forall j, k | 0 <= j < k < |s| ensures s[j] !! s[k] {
      assert j <= i ==> s[j] == rs[j];
      assert j > i + 1 ==> s[j] == rs[j - 1];
      assert k <= i ==> s[k] == rs[k];
      assert k > i + 1 ==> s[k] == rs[k - 1];
    }
  }

  lemma TreesSlice<V>(ns: seq<Node<V>>, ts: seq<Tree<V>>, t: nat)
    requires t <= |ns| == |ts| && forall i :: 0 <= i < |ns| ==> ts[i] == ns[i].tree
    ensures Trees(ns[t..]) == ts[t..] && Trees(ns[..t]) == ts[..t]
  {
  }

  method SplitRoot<V>(root: Node<V>, t: nat) returns (newRoot: Node<V>)
    requires root.Valid() && Full(root.tree, t)
    modifies root.repr
    ensures newRoot.Valid() && fresh(newRoot.repr - old(root.repr))
    ensures newRoot.tree == BTreeModel.SplitChild(BTreeModel.Node([], [], [old(root.tree)]), 0, t)
  {
    newRoot := new Node<V>([], [], [root]);
    assert newRoot.tree == BTreeModel.Node([], [], [root.tree]);
    newRoot.SplitChild(0, t);
  }

  method GrownRoot<V>(root: Node<V>, t: nat, ghost h: nat) returns (newRoot: Node<V>)
    requires root.Valid() && 2 <= t && GoodRoot(root.tree, t, h) && |root.tree.keys| == 2 * t - 1
    requires Sorted(Entries(root.tree))
    modifies root.repr
    ensures newRoot.Valid() && fresh(newRoot.repr - old(root.repr))
    ensures GoodRoot(newRoot.tree, t, h + 1) && |newRoot.tree.keys| == 1
    ensures Entries(newRoot.tree) == old(Entries(root.tree)) && Sorted(Entries(newRoot.tree))
  {
    ghost var s := BTreeModel.GrowRoot(root.tree, t, h);
    newRoot := SplitRoot(root, t);
    assert newRoot.tree == s;
  }

  // All nodes below the given ones, and the trees they form.
  ghost function Below<V>(ns: seq<Node<V>>): set<object>
    reads ns
  {
    set n, o | n in ns && o in n.repr :: o
  }

  ghost function Trees<V>(ns: seq<Node<V>>): (ts: seq<Tree<V>>)
    reads ns
    ensures |ts| == |ns| && forall i :: 0 <= i < |ns| ==> ts[i] == ns[i].tree
  {
    seq(|ns|, i requires 0 <= i < |ns| reads ns => ns[i].tree)
  }

  class BTree<V> {
    var root: Node<V>
    var t: nat
    var size: nat
    ghost var height: nat

    ghost predicate Valid()
      reads this, root, root.repr
    {
      && 2 <= t && this !in root.repr && root.Valid()
      && GoodRoot(root.tree, t, height) && Sorted(Entries(root.tree))
      && size == |Entries(root.tree)|
    }

    ghost function Repr(): set<object>
      reads this, root
    {
      {this} + root.repr
    }

    // What the tree stores, in key order.
    ghost function Contents(): seq<Entry<V>>
      reads this, root
    {
      Entries(root.tree)
    }

    constructor (minDegree: nat)
      requires minDegree >= 2
      ensures Valid() && fresh(Repr()) && Contents() == [] && t == minDegree
    {
      var leaf := new Node<V>([], [], []);
      root, t, size, height := leaf, minDegree, 0, 0;
    }

    method Search(key: Key) returns (r: Option<V>)
      requires Valid()
      ensures r == Lookup(Contents(), key)
    {
      r := root.Search(key, t, height);
    }

    // Sets the value at key and changes nothing else.
    method Insert(key: Key, value: V)
      requires Valid()
      modifies Repr()
      ensures Valid() && fresh(Repr() - old(Repr())) && t == old(t)
      ensures Contents() == Put(old(Contents()), key, value)
    {
      PutSorted(Contents(), key, value);
      PutLength(Contents(), key, value);
      AbsentIffNone(Contents(), key);
      var found := Search(key);
      if found.Some? {
        root.Update(key, value, t, height);
        return;
      }
      if |root.keys| == 2 * t - 1 {
        GrowRoot();
      }
      root.InsertNonFull(key, value, t, height);
      size := size + 1;
    }

    // A full root becomes the only child of a new one and is split.
    method GrowRoot()
      requires Valid() && |root.keys| == 2 * t - 1
      modifies Repr()
      ensures Valid() && fresh(Repr() - old(Repr())) && t == old(t) && size == old(size)
      ensures Contents() == old(Contents()) && |root.keys| == 1
    {
      var newRoot := GrownRoot(root, t, height);
      root, height := newRoot, height + 1;
    }

    method RangeQuery(min: Key, max: Key) returns (r: seq<V>)
      requires Valid()
      ensures r == InRange(Contents(), min, max)
    {
      r := root.RangeQuery(min, max, [], t, height);
    }

    // Rebuilds the tree from all entries but the deleted one.
    method Delete(key: Key) returns (deleted: bool)
      requires Valid()
      modifies Repr()
      ensures Valid() && fresh(Repr() - old(Repr())) && t == old(t)
      ensures deleted <==> !Absent(old(Contents()), key)
      ensures Contents() == WithoutKey(old(Contents()), key)
    {
      var found := Search(key);
      AbsentIffNone(Contents(), key);
      if found.None? {
        WithoutAbsent(Contents(), key);
        return false;
      }
      var entries := Collect();
      Rebuild(entries, key);
      deleted := true;
    }

    method Collect() returns (entries: seq<Entry<V>>)
      requires Valid()
      ensures entries == Contents() && Sorted(entries)
    {
      entries := root.CollectEntries([], t, height);
      assert entries == Contents();
    }

    method Rebuild(entries: seq<Entry<V>>, key: Key)
      requires Valid() && Sorted(entries)
      modifies this
      ensures Valid() && fresh(Repr() - {this}) && t == old(t)
      ensures Contents() == WithoutKey(entries, key)
    {
      Reset();
      Refill(entries, key);
    }

    method Reset()
      requires Valid()
      modifies this
      ensures Valid() && fresh(Repr() - {this}) && t == old(t) && Contents() == []
      ensures this in Repr()
    {
      root := new Node<V>([], [], []);
      size, height := 0, 0;
    }

    method Refill(entries: seq<Entry<V>>, key: Key)
      requires Valid() && Contents() == [] && Sorted(entries)
      modifies Repr()
      ensures Valid() && fresh(Repr() - old(Repr())) && t == old(t)
      ensures Contents() == WithoutKey(entries, key)
    {
      var i := 0;
      while i < |entries|
        invariant 0 <= i <= |entries|
        invariant Valid() && fresh(Repr() - old(Repr())) && t == old(t)
        invariant Contents() == WithoutKey(entries[..i], key)
      {
        assert entries[..i + 1][..i] == entries[..i];
        if entries[i].key != key {
          PutLast(entries, i, key);
          Insert(entries[i].key, entries[i].value);
        }
        i := i + 1;
      }
      assert entries[..i] == entries;
    }
  }
}
