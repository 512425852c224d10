// The hash map itself: an array of singly linked chains, changed in place.
module HashMap {
  import opened Options
  import opened Sequences
  import opened HashTable

  class Entry<T> {
    const key: string
    var value: T
    var next: Entry?<T>

    constructor (key: string, value: T, next: Entry?<T>)
      ensures this.key == key && this.value == value && this.next == next
    {
      this.key, this.value, this.next := key, value, next;
    }
  }

  // The nodes of a chain in order, holding the pairs.
  ghost predicate Chained<T>(nodes: seq<Entry<T>>, head: Entry?<T>, pairs: seq<Pair<T>>)
    reads nodes
  {
    && |nodes| == |pairs|
    && (nodes == [] ==> head == null)
    && (nodes != [] ==> head == nodes[0] && nodes[|nodes| - 1].next == null)
    && (forall i :: 0 <= i < |nodes| ==> nodes[i].key == pairs[i].key && nodes[i].value == pairs[i].value)
    && (forall i, j :: 0 <= i < j < |nodes| && j == i + 1 ==> nodes[i].next == nodes[j])
    && (forall i, j :: 0 <= i < j < |nodes| ==> nodes[i] != nodes[j])
  }

  ghost function At<T>(nodes: seq<Entry<T>>, i: int): Entry?<T> {
    if 0 <= i < |nodes| then nodes[i] else null
  }

  // Walks along a chain to the entry of a key, or to the end.
  method Walk<T>(ghost nodes: seq<Entry<T>>, head: Entry?<T>, ghost pairs: seq<Pair<T>>, key: string)
    returns (prev: Entry?<T>, curr: Entry?<T>, ghost i: nat)
    requires Chained(nodes, head, pairs)
    ensures i <= |nodes| && curr == At(nodes, i) && prev == At(nodes, i - 1)
    ensures forall j :: 0 <= j < i ==> pairs[j].key != key
    ensures i < |nodes| ==> pairs[i].key == key
  {
    prev, curr, i := null, head, 0;
    while curr != null
      invariant i <= |nodes| && curr == At(nodes, i) && prev == At(nodes, i - 1)
      invariant forall j :: 0 <= j < i ==> pairs[j].key != key
      decreases |nodes| - i
    {
      if curr.key == key {
        return;
      }
      prev := curr;
      curr := curr.next;
      i := i + 1;
    }
  }

  // Takes the entry after prev out of a chain.
  method CutNext<T>(ghost nodes: seq<Entry<T>>, ghost head: Entry?<T>, ghost pairs: seq<Pair<T>>, ghost i: nat,
                    prev: Entry<T>, curr: Entry<T>)
    requires Chained(nodes, head, pairs) && 0 < i < |nodes| && nodes[i] == curr && nodes[i - 1] == prev
    modifies prev`next
    ensures Chained(Without(nodes, i), head, Without(pairs, i))
  {
    assert i + 1 < |nodes| ==> curr.next == nodes[i + 1];
    prev.next := curr.next;
  }

  // Appends the keys of a chain.
  method AddKeys<T>(ghost nodes: seq<Entry<T>>, head: Entry?<T>, ghost pairs: seq<Pair<T>>, before: seq<string>)
    returns (keys: seq<string>)
    requires Chained(nodes, head, pairs)
    ensures |keys| == |before| + |pairs| && before <= keys
    ensures forall i :: 0 <= i < |pairs| ==> keys[|before| + i] == pairs[i].key
  {
    keys := before;
    var e := head;
    ghost var i := 0;
    while e != null
      invariant 0 <= i <= |nodes| && e == At(nodes, i) && |keys| == |before| + i && before <= keys
      invariant forall j :: 0 <= j < i ==> keys[|before| + j] == pairs[j].key
      decreases |nodes| - i
    {
      keys := keys + [e.key];
      e := e.next;
      i := i + 1;
    }
  }

  class CustomMapStore<T> {
    const hash: Index
    var buckets: array<Entry?<T>>
    var size: int
    ghost var chains: seq<seq<Entry<T>>>
    ghost var table: Table<T>
    ghost var repr: set<Entry<T>>

    ghost predicate Sized()
      reads this`buckets, this`chains, this`table
    {
      buckets.Length == |chains| == |table|
    }

    // Entries of this map whose keys belong to bucket b.
    ghost predicate Homed(nodes: seq<Entry<T>>, b: int)
      requires 0 <= b < |chains|
      reads this`chains, this`repr
    {
      forall i :: 0 <= i < |nodes| ==> nodes[i] in repr && Bucket(hash, nodes[i].key, |chains|) == b
    }

    // Bucket b's chain holds its pairs.
    ghost predicate Keeps(b: int)
      requires Sized() && 0 <= b < |chains|
      reads this`buckets, this`chains, this`table, this`repr, buckets, repr
    {
      Homed(chains[b], b) && Chained(chains[b], buckets[b], table[b])
    }

    ghost predicate Linked()
      reads this`buckets, this`chains, this`table, this`repr, buckets, repr
    {
      Sized() && forall b :: 0 <= b < |chains| ==> Keeps(b)
    }

    ghost predicate Stored()
      reads this, buckets, repr
    {
      Linked() && Sound(table, hash) && size == Size(table)
    }

    ghost predicate Valid()
      reads this, buckets, repr
    {
      Stored() && |table| >= 8 && 4 * size <= 3 * |table|
    }

    constructor (hash: Index)
      ensures Valid() && table == Fresh(8) && this.hash == hash && fresh(buckets) && fresh(repr)
    {
      this.hash := hash;
      buckets := new Entry?<T>[8](_ => null);
      size := 0;
      chains, table, repr := [[], [], [], [], [], [], [], []], Fresh(8), {};
      new;
      SizeFresh<T>(8);
    }

    // The bucket of a key, and where its entry stands in the chain, if it is there.
    method Locate(key: string) returns (b: nat, prev: Entry?<T>, e: Entry?<T>, ghost i: nat)
      requires Linked() && |table| > 0
      ensures b < |chains| && Keeps(b) && b == Bucket(hash, key, |table|)
      ensures i <= |chains[b]| && e == At(chains[b], i) && prev == At(chains[b], i - 1)
      ensures forall j :: 0 <= j < i ==> table[b][j].key != key
      ensures i < |chains[b]| ==> table[b][i] == Pair(key, e.value)
      ensures Lookup(table, hash, key) == if e == null then None else Some(e.value)
    {
      b := Bucket(hash, key, buckets.Length);
      assert Keeps(b);
      prev, e, i := Walk(chains[b], buckets[b], table[b], key);
      if e == null {
        NotFound(table[b], key);
      } else {
        FoundAt(table[b], key, e.value, i);
      }
    }

    method Get(key: string) returns (value: Option<T>)
      requires Stored()
      ensures value == Lookup(table, hash, key)
    {
      var _, _, e, _ := Locate(key);
      return if e == null then None else Some(e.value);
    }

    method Set(key: string, value: T)
      requires Valid()
      modifies this, buckets, repr
      ensures Valid() && table == HashTable.Set(old(table), hash, key, value)
      ensures forall k :: Lookup(table, hash, k) == if k == key then Some(value) else Lookup(old(table), hash, k)
      ensures (buckets == old(buckets) || fresh(buckets)) && fresh(repr - old(repr))
    {
      SetWorks(table, hash, key, value);
      SetNested(key, value, 1);
    }

    method Delete(key: string) returns (deleted: bool)
      requires Valid()
      modifies this, buckets, repr
      ensures Valid() && table == Remove(old(table), hash, key)
      ensures deleted <==> Lookup(old(table), hash, key).Some?
      ensures forall k :: Lookup(table, hash, k) == if k == key then None else Lookup(old(table), hash, k)
      ensures buckets == old(buckets) && repr == old(repr)
    {
      RemoveWorks(table, hash, key);
      deleted := DropInChain(key);
      if deleted {
        size := size - 1;
      }
    }

    method DropInChain(key: string) returns (dropped: bool)
      requires Linked() && |table| > 0
      modifies this`chains, this`table, buckets, repr
      ensures Linked() && table == Remove(old(table), hash, key)
      ensures dropped <==> Lookup(old(table), hash, key).Some?
    {
      var b, prev, curr, i := Locate(key);
      if curr == null {
        NotFound(table[b], key);
        assert table[b := table[b]] == table;
        return false;
      }
      FoundAt(table[b], key, curr.value, i);
      if prev == null {
        UnlinkFirst(b, curr);
      } else {
        UnlinkNext(b, i, prev, curr);
      }
      return true;
    }

    method UnlinkFirst(b: nat, curr: Entry<T>)
      requires Linked() && b < |chains| && Keeps(b) && |chains[b]| > 0 && chains[b][0] == curr
      modifies this`chains, this`table, buckets
      ensures Linked() && table == old(table)[b := Without(old(table)[b], 0)]
    {
      assert |chains[b]| > 1 ==> curr.next == chains[b][1];
      buckets[b] := curr.next;
      forall c | 0 <= c < |chains| && c != b ensures Keeps(c) {
        assert old(Keeps(c));
      }
      Rechain(b, Without(chains[b], 0), Without(table[b], 0));
    }

    // Takes the i-th entry out of bucket b.
    method UnlinkNext(ghost b: nat, ghost i: nat, prev: Entry<T>, curr: Entry<T>)
      requires Linked() && b < |chains| && Keeps(b) && 0 < i < |chains[b]|
      requires chains[b][i] == curr && prev == chains[b][i - 1]
      modifies this`chains, this`table, prev`next
      ensures Linked() && table == old(table)[b := Without(old(table)[b], i)]
    {
      InNoOther(b, i - 1);
      CutNext(chains[b], buckets[b], table[b], i, prev, curr);
      forall c | 0 <= c < |chains| && c != b ensures Keeps(c) {
        assert old(Keeps(c));
      }
      Rechain(b, Without(chains[b], i), Without(table[b], i));
    }

    // An entry is in one chain only.
    lemma InNoOther(b: nat, i: nat)
      requires Linked() && b < |chains| && i < |chains[b]|
      ensures Homed(chains[b], b) && Chained(chains[b], buckets[b], table[b])
      ensures forall c, j :: 0 <= c < |chains| && 0 <= j < |chains[c]| && c != b ==> chains[c][j] != chains[b][i]
    {
      assert Keeps(b);
      forall c, j | 0 <= c < |chains| && 0 <= j < |chains[c]| && c != b ensures chains[c][j] != chains[b][i] {
        assert Keeps(c);
      }
    }

    // Bucket b's chain has changed, no other.
    ghost method Rechain(b: nat, nodes: seq<Entry<T>>, pairs: seq<Pair<T>>)
      requires Sized() && b < |chains| && forall c :: 0 <= c < |chains| && c != b ==> Keeps(c)
      requires Homed(nodes, b) && Chained(nodes, buckets[b], pairs)
      modifies this`chains, this`table
      ensures Linked() && chains == old(chains)[b := nodes] && table == old(table)[b := pairs]
    {
      chains := chains[b := nodes];
      table := table[b := pairs];
      forall c | 0 <= c < |chains| ensures Keeps(c) {
        assert c != b ==> old(Keeps(c));
      }
    }

    // Every key once, bucket after bucket.
    method Keys() returns (keys: seq<string>)
      requires Stored()
      ensures |keys| == size && forall i, j :: 0 <= i < j < |keys| ==> keys[i] != keys[j]
      ensures forall k :: k in keys <==> Lookup(table, hash, k).Some?
    {
      keys := [];
      OffsetEnds(table);
      for b := 0 to buckets.Length
        invariant KeysOfFirst(keys, Pairs(table), Offset(table, b))
      {
        OffsetNext(table, b);
        assert Keeps(b);
        var more := AddKeys(chains[b], buckets[b], table[b], keys);
        KeysOfMore(keys, more, Pairs(table), table[b]);
        keys := more;
      }
      KeysOf(table, hash, keys);
    }

    // The value of a key that is there is overwritten; else a new entry goes in front.
    method SetInBucket(key: string, value: T)
      requires Stored()
      modifies this, buckets, repr
      ensures Stored() && table == Insert(old(table), hash, key, value)
      ensures buckets == old(buckets) && fresh(repr - old(repr))
    {
      InsertWorks(table, hash, key, value);
      var added := PutInChain(key, value);
      if added {
        size := size + 1;
      }
    }

    method PutInChain(key: string, value: T) returns (added: bool)
      requires Linked() && |table| > 0
      modifies this`chains, this`table, this`repr, buckets, repr
      ensures Linked() && table == Insert(old(table), hash, key, value)
      ensures added <==> Lookup(old(table), hash, key).None?
      ensures fresh(repr - old(repr))
    {
      var b, _, e, i := Locate(key);
      if e == null {
        AddEntry(b, key, value);
        return true;
      }
      FoundAt(table[b], key, value, i);
      WriteEntry(b, i, e, value);
      return false;
    }

    method WriteEntry(ghost b: nat, ghost i: nat, e: Entry<T>, value: T)
      requires Linked() && b < |chains| && Keeps(b) && i < |chains[b]| && chains[b][i] == e
      modifies this`chains, this`table, e`value
      ensures Linked() && table == old(table)[b := old(table)[b][i := Pair(e.key, value)]]
    {
      InNoOther(b, i);
      e.value := value;
      forall c | 0 <= c < |chains| && c != b ensures Keeps(c) {
        assert old(Keeps(c));
      }
      Rechain(b, chains[b], table[b][i := Pair(e.key, value)]);
    }

    method AddEntry(b: nat, key: string, value: T)
      requires Linked() && b < |chains| && Bucket(hash, key, |chains|) == b
      modifies this`chains, this`table, this`repr, buckets
      ensures Linked() && table == old(table)[b := [Pair(key, value)] + old(table)[b]]
      ensures fresh(repr - old(repr))
    {
      assert Keeps(b);
      var e := new Entry(key, value, buckets[b]);
      buckets[b] := e;
      repr := repr + {e};
      forall c | 0 <= c < |chains| && c != b ensures Keeps(c) {
        assert old(Keeps(c));
      }
      Rechain(b, [e] + chains[b], [Pair(key, value)] + table[b]);
    }

    // Doubles the buckets when one more pair would be too many. The depth says that a
    // resize is not nested in another: its own insertions never find the table full.
    method SetNested(key: string, value: T, ghost depth: nat)
      requires Stored() && depth <= 1 && if depth == 0 then !Full(table) else 4 * size <= 3 * |table|
      modifies this, buckets, repr
      ensures Stored() && table == HashTable.Set(old(table), hash, key, value)
      ensures buckets == old(buckets) || fresh(buckets)
      ensures fresh(repr - old(repr))
      decreases depth, 0, 0
    {
      assert Full(table) <==> 4 * (size + 1) > 3 * buckets.Length;
      if 4 * (size + 1) > 3 * buckets.Length {
        ResizeNested(buckets.Length * 2, depth - 1);
      }
      SetInBucket(key, value);
    }

    method ResizeNested(n: nat, ghost depth: nat)
      requires Stored() && depth == 0 && 4 * size <= 3 * n && n > 0
      modifies this
      ensures Stored() && table == Resize(old(table), hash, n)
      ensures fresh(buckets) && fresh(repr)
      decreases depth, 3, 0
    {
      var heads := buckets;
      ghost var nodes, t := chains, table;
      ghost var stages := TableStages(t, hash, n);
      StartAfresh(n);
      forall b | 0 <= b < |t| ensures Chained(nodes[b], heads[b], t[b]) {
        assert old(Keeps(b));
      }
      MoveAll(heads, nodes, t, stages);
    }

    // Moves the chains of the old buckets, one after the other.
    method MoveAll(heads: array<Entry?<T>>, ghost nodes: seq<seq<Entry<T>>>, ghost t: Table<T>,
                   ghost stages: seq<Table<T>>)
      requires Stored() && heads.Length == |nodes| == |t| && heads != buckets && AllChained(heads, nodes, t)
      requires Apart(nodes, repr)
      requires Stages(stages, hash, Pairs(t)) && table == stages[0]
      modifies this, buckets, repr
      ensures Stored() && table == stages[|Pairs(t)|]
      ensures (buckets == old(buckets) || fresh(buckets)) && fresh(repr - old(repr))
      decreases 0, 2, 0
    {
      ghost var k := 0;
      OffsetEnds(t);
      for b := 0 to heads.Length
        invariant Stored() && heads != buckets && k == Offset(t, b) <= |Pairs(t)| && table == stages[k]
        invariant (buckets == old(buckets) || fresh(buckets)) && fresh(repr - old(repr))
        invariant Apart(nodes, repr)
        invariant AllChained(heads, nodes, t)
      {
        OffsetNext(t, b);
        MovePairs(Pairs(t), stages, k, nodes[b], heads[b]);
        k := k + |nodes[b]|;
      }
    }

    method StartAfresh(n: nat)
      requires n > 0
      modifies this`buckets, this`size, this`chains, this`table, this`repr
      ensures Stored() && table == Fresh(n) && fresh(buckets) && repr == {}
    {
      buckets := new Entry?<T>[n](_ => null);
      size := 0;
      chains, table, repr := seq(n, _ => []), Fresh(n), {};
      SizeFresh<T>(n);
    }

    // Inserts the pairs of one chain, first to last, the first k pairs being in.
    method MovePairs(ghost all: seq<Pair<T>>, ghost stages: seq<Table<T>>, ghost k: nat,
                     ghost nodes: seq<Entry<T>>, head: Entry?<T>)
      requires Stored() && k + |nodes| <= |all| && Chained(nodes, head, all[k..k + |nodes|])
      requires forall i :: 0 <= i < |nodes| ==> nodes[i] !in repr
      requires Stages(stages, hash, all) && table == stages[k]
      modifies this, buckets, repr
      ensures Stored() && table == stages[k + |nodes|]
      ensures (buckets == old(buckets) || fresh(buckets)) && fresh(repr - old(repr))
      decreases 0, 1, 0
    {
      var e := head;
      ghost var i := 0;
      while e != null
        invariant 0 <= i <= |nodes| && e == At(nodes, i) && Chained(nodes, head, all[k..k + |nodes|])
        invariant Stored() && table == stages[k + i]
        invariant forall i :: 0 <= i < |nodes| ==> nodes[i] !in repr
        invariant (buckets == old(buckets) || fresh(buckets)) && fresh(repr - old(repr))
        decreases |nodes| - i
      {
        assert all[k..k + |nodes|][i] == all[k + i];
        MoveOne(all, stages, k + i, e);
        e := e.next;
        i := i + 1;
      }
    }

    method MoveOne(ghost all: seq<Pair<T>>, ghost stages: seq<Table<T>>, ghost k: nat, e: Entry<T>)
      requires Stored() && k < |all| && all[k] == Pair(e.key, e.value)
      requires Stages(stages, hash, all) && table == stages[k]
      modifies this, buckets, repr
      ensures Stored() && table == stages[k + 1]
      ensures (buckets == old(buckets) || fresh(buckets)) && fresh(repr - old(repr))
      decreases 0, 0, 1
    {
      assert Stage(stages, hash, all, k);
      SetNested(e.key, e.value, 0);
    }
  }

  // The chains of an array of buckets.
  ghost predicate AllChained<T>(heads: array<Entry?<T>>, nodes: seq<seq<Entry<T>>>, t: Table<T>)
    requires heads.Length == |nodes| == |t|
    reads heads, set b, i | 0 <= b < |nodes| && 0 <= i < |nodes[b]| :: nodes[b][i]
  {
    forall b :: 0 <= b < |t| ==> Chained(nodes[b], heads[b], t[b])
  }

  // The map as it is created: its index is the hash of the key's bytes.
  method NewCustomMapStore<T>() returns (s: CustomMapStore<T>)
    ensures fresh(s) && fresh(s.buckets) && fresh(s.repr) && s.Valid()
    ensures s.table == Fresh(8) && s.hash == HashIndex()
  {
    s := new CustomMapStore(HashIndex());
  }

  // The byte loop of the hash, and the bucket it leads to.
  method HashString(s: string) returns (h: bv64)
    ensures h == Fnv(s)
  {
    h := OFFSET64;
    for i := 0 to |s|
      invariant h == Fnv(s[..i])
    {
      assert s[..i + 1][..i] == s[..i];
      h := Mix(h, s[i]);
    }
    assert s[..|s|] == s;
  }

  method BucketIndex(key: string, n: nat) returns (b: nat)
    requires n > 0
    ensures b == Bucket(HashIndex(), key, n)
  {
    var h := HashString(key);
    b := h as nat % n;
  }

  // None of the chains' entries is among these.
  ghost predicate Apart<T>(nodes: seq<seq<Entry<T>>>, repr: set<Entry<T>>) {
    forall b, i :: 0 <= b < |nodes| && 0 <= i < |nodes[b]| ==> nodes[b][i] !in repr
  }

  // The tables on the way from an empty one to one that holds all the pairs; none is
  // full before its next pair.
  ghost predicate Stages<T>(stages: seq<Table<T>>, hash: Index, all: seq<Pair<T>>) {
    |stages| == |all| + 1 && forall k :: 0 <= k < |all| ==> Stage(stages, hash, all, k)
  }

  ghost predicate Stage<T>(stages: seq<Table<T>>, hash: Index, all: seq<Pair<T>>, k: int)
    requires 0 <= k < |all| && |stages| == |all| + 1
  {
    |stages[k]| > 0 && !Full(stages[k]) && stages[k + 1] == Insert(stages[k], hash, all[k].key, all[k].value)
  }

  lemma InsertAllNext<T>(t: Table<T>, hash: Index, all: seq<Pair<T>>, k: nat)
    requires |t| > 0 && k < |all|
    ensures InsertAll(t, hash, all[..k + 1]) == Insert(InsertAll(t, hash, all[..k]), hash, all[k].key, all[k].value)
  {
    assert all[..k + 1][..k] == all[..k];
  }

  lemma TableStages<T>(t: Table<T>, hash: Index, n: nat) returns (stages: seq<Table<T>>)
    requires Sound(t, hash) && n > 0 && 4 * Size(t) <= 3 * n
    ensures Stages(stages, hash, Pairs(t)) && stages[0] == Fresh(n) && stages[|Pairs(t)|] == Resize(t, hash, n)
  {
    var all := Pairs(t);
    PairsOfBuckets(t, hash, |t|);
    OffsetEnds(t);
    assert t[..|t|] == t;
    stages := seq(|all| + 1, k requires 0 <= k <= |all| => InsertAll(Fresh(n), hash, all[..k]));
    forall k | 0 <= k < |all| ensures Stage(stages, hash, all, k) {
      NeverFullAgain(n, hash, all, k);
      InsertAllNext(Fresh(n), hash, all, k);
    }
  }

  // The keys of the first k pairs.
  ghost predicate KeysOfFirst<T>(keys: seq<string>, all: seq<Pair<T>>, k: nat) {
    |keys| == k <= |all| && forall i :: 0 <= i < k ==> keys[i] == all[i].key
  }

  lemma KeysOfMore<T>(keys: seq<string>, more: seq<string>, all: seq<Pair<T>>, c: seq<Pair<T>>)
    requires KeysOfFirst(keys, all, |keys|) && |keys| + |c| <= |all| && all[|keys|..|keys| + |c|] == c
    requires |more| == |keys| + |c| && keys <= more && forall i :: 0 <= i < |c| ==> more[|keys| + i] == c[i].key
    ensures KeysOfFirst(more, all, |keys| + |c|)
  {
    var k := |keys|;
    forall i | 0 <= i < k + |c| ensures more[i] == all[i].key {
      if i >= k {
        assert all[k..k + |c|][i - k] == all[i];
        assert more[k + (i - k)] == c[i - k].key;
      }
    }
  }

  lemma KeysOf<T>(t: Table<T>, hash: Index, keys: seq<string>)
    requires Sound(t, hash) && |keys| == |Pairs(t)| && forall i :: 0 <= i < |keys| ==> keys[i] == Pairs(t)[i].key
    ensures |keys| == Size(t) && forall i, j :: 0 <= i < j < |keys| ==> keys[i] != keys[j]
    ensures forall k :: k in keys <==> Lookup(t, hash, k).Some?
  {
    PairsOfBuckets(t, hash, |t|);
    assert t[..|t|] == t;
    forall k ensures k in keys <==> Lookup(t, hash, k).Some? {
      FindPresent(Pairs(t), k);
      if k in keys {
        var i :| 0 <= i < |keys| && keys[i] == k;
        assert Pairs(t)[i].key == k;
      }
    }
  }

  // Where the pairs of bucket b start among all pairs.
  ghost function Offset<T>(t: Table<T>, b: nat): nat
    requires b <= |t|
  {
    |Pairs(t[..b])|
  }

  lemma OffsetEnds<T>(t: Table<T>)
    ensures Offset(t, 0) == 0 && Offset(t, |t|) == |Pairs(t)|
    ensures Pairs(t)[..0] == [] && Pairs(t)[..|Pairs(t)|] == Pairs(t)
  {
    assert t[..|t|] == t && t[..0] == [];
  }

  lemma OffsetNext<T>(t: Table<T>, b: nat)
    requires b < |t|
    ensures Offset(t, b + 1) == Offset(t, b) + |t[b]| <= |Pairs(t)|
    ensures Pairs(t)[Offset(t, b)..Offset(t, b) + |t[b]|] == t[b]
  {
    PairsPrefix(t, b);
    assert t[..b + 1][..b] == t[..b];
  }

  lemma {:induction false} PairsPrefix<T>(t: Table<T>, b: nat)
    requires b < |t|
    ensures Pairs(t[..b]) + t[b] <= Pairs(t)
  {
    if b < |t| - 1 {
      PairsPrefix(t[..|t| - 1], b);
      assert t[..|t| - 1][..b] == t[..b];
    }
  }
}
