// A chained hash table as a value: one sequence of pairs for each bucket.
module HashTable {
  import opened Options
  import opened Sequences

  datatype Pair<T> = Pair(key: string, value: T)

  // One chain ---------------------------------------------------------------------

  function Find<T>(c: seq<Pair<T>>, key: string): Option<T> {
    if c == [] then None else if c[0].key == key then Some(c[0].value) else Find(c[1..], key)
  }

  // Overwrites the pair of the key, or puts a new one in front.
  function Overwrite<T>(c: seq<Pair<T>>, key: string, value: T): (r: seq<Pair<T>>)
    ensures |r| == |c|
  {
    if c == [] then []
    else if c[0].key == key then [Pair(key, value)] + c[1..]
    else [c[0]] + Overwrite(c[1..], key, value)
  }

  function Put<T>(c: seq<Pair<T>>, key: string, value: T): seq<Pair<T>> {
    if Find(c, key).Some? then Overwrite(c, key, value) else [Pair(key, value)] + c
  }

  function Drop<T>(c: seq<Pair<T>>, key: string): seq<Pair<T>> {
    if c == [] then [] else if c[0].key == key then c[1..] else [c[0]] + Drop(c[1..], key)
  }

  ghost predicate NoRepeat<T>(c: seq<Pair<T>>) {
    forall i, j :: 0 <= i < j < |c| ==> c[i].key != c[j].key
  }

  lemma {:induction false} FindPresent<T>(c: seq<Pair<T>>, key: string)
    ensures Find(c, key).Some? <==> exists i :: 0 <= i < |c| && c[i].key == key
  {
    if c != [] {
      FindPresent(c[1..], key);
      if i :| 0 <= i < |c[1..]| && c[1..][i].key == key {
        assert c[i + 1].key == key;
      }
      if i :| 0 <= i < |c| && c[i].key == key {
        assert i > 0 ==> c[1..][i - 1].key == key;
      }
    }
  }

  lemma {:induction false} OverwriteFinds<T>(c: seq<Pair<T>>, key: string, value: T, k: string)
    requires Find(c, key).Some?
    ensures Find(Overwrite(c, key, value), k) == if k == key then Some(value) else Find(c, k)
    ensures forall i :: 0 <= i < |c| ==> Overwrite(c, key, value)[i].key == c[i].key
  {
    if c[0].key != key {
      OverwriteFinds(c[1..], key, value, k);
    }
  }

  lemma PutFinds<T>(c: seq<Pair<T>>, key: string, value: T, k: string)
    requires NoRepeat(c)
    ensures Find(Put(c, key, value), k) == if k == key then Some(value) else Find(c, k)
    ensures NoRepeat(Put(c, key, value))
    ensures |Put(c, key, value)| == |c| + if Find(c, key).Some? then 0 else 1
    ensures forall i :: 0 <= i < |Put(c, key, value)| ==>
      Put(c, key, value)[i].key == key || exists j :: 0 <= j < |c| && c[j].key == Put(c, key, value)[i].key
  {
    if Find(c, key).Some? {
      OverwriteFinds(c, key, value, k);
    } else {
      FindPresent(c, key);
    }
  }

  lemma {:induction false} DropMembers<T>(c: seq<Pair<T>>, key: string)
    ensures forall p :: p in Drop(c, key) ==> p in c
  {
    if c != [] {
      DropMembers(c[1..], key);
      assert c == [c[0]] + c[1..];
    }
  }

  lemma {:induction false} DropNoRepeat<T>(c: seq<Pair<T>>, key: string)
    requires NoRepeat(c)
    ensures NoRepeat(Drop(c, key))
  {
    if c != [] {
      var rest := Drop(c[1..], key);
      DropNoRepeat(c[1..], key);
      DropMembers(c[1..], key);
      forall i | 0 <= i < |rest| ensures rest[i].key != c[0].key {
        assert rest[i] in c[1..];
      }
    }
  }

  lemma {:induction false} DropFinds<T>(c: seq<Pair<T>>, key: string, k: string)
    requires NoRepeat(c)
    ensures Find(Drop(c, key), k) == if k == key then None else Find(c, k)
    ensures |Drop(c, key)| == |c| - if Find(c, key).Some? then 1 else 0
  {
    if c != [] {
      FindPresent(c[1..], key);
      if c[0].key == key {
        assert forall i :: 0 <= i < |c[1..]| ==> c[1..][i] == c[i + 1];
      } else {
        DropFinds(c[1..], key, k);
      }
    }
  }

  // What a walk along the chain finds out: the key first stands at i, or nowhere.
  lemma {:induction false} FoundAt<T>(c: seq<Pair<T>>, key: string, value: T, i: nat)
    requires i < |c| && c[i].key == key && forall j :: 0 <= j < i ==> c[j].key != key
    ensures Find(c, key) == Some(c[i].value)
    ensures Overwrite(c, key, value) == c[i := Pair(key, value)]
    ensures Drop(c, key) == Without(c, i)
  {
    if i > 0 {
      assert forall j :: 0 <= j < i - 1 ==> c[1..][j] == c[j + 1];
      FoundAt(c[1..], key, value, i - 1);
      assert c[1..][i - 1 := Pair(key, value)] == c[i := Pair(key, value)][1..];
    }
  }

  lemma {:induction false} NotFound<T>(c: seq<Pair<T>>, key: string)
    requires forall j :: 0 <= j < |c| ==> c[j].key != key
    ensures Find(c, key) == None && Drop(c, key) == c
  {
    if c != [] {
      assert forall j :: 0 <= j < |c| - 1 ==> c[1..][j] == c[j + 1];
      NotFound(c[1..], key);
    }
  }

  // The table -----------------------------------------------------------------------

  type Table<T> = seq<seq<Pair<T>>>

  // The bucket of each key among n.
  type Index = f: (string, nat) -> nat | Fits(f) witness (key, n) => 0

  ghost predicate Fits(f: (string, nat) -> nat) {
    forall key, n :: n > 0 ==> f(key, n) < n
  }

  // The index a hash function gives: the hash modulo the number of buckets.
  function Modulo(hash: string -> nat): (index: Index)
    ensures forall key, n :: n > 0 ==> index(key, n) == hash(key) % n
  {
    (key, n) => if n == 0 then 0 else hash(key) % n
  }

  const OFFSET64: bv64 := 14695981039346656037
  const PRIME64: bv64 := 1099511628211

  // One byte more; both steps stay within 64 bits.
  function Mix(h: bv64, c: char): bv64 {
    (h ^ (c as int % 256) as bv64) * PRIME64
  }

  // The hash of a key's bytes, first to last.
  function Fnv(s: string): bv64 {
    if s == "" then OFFSET64 else Mix(Fnv(s[..|s| - 1]), s[|s| - 1])
  }

  lemma FnvStep(s: string, c: char)
    ensures Fnv(s + [c]) == Mix(Fnv(s), c)
  {
    assert (s + [c])[..|s|] == s;
  }

  lemma FirstMix()
    ensures Mix(0xcbf29ce484222325, 'f') == 0xaf63db4c8601ead9
  {
    assert ('f' as int % 256) as bv64 == 102 as bv64;
    assert (0xcbf29ce484222325 as bv64 ^ 102 as bv64) == 0xcbf29ce484222343;
    assert (0xcbf29ce484222343 as bv64) * (1099511628211 as bv64) == 0xaf63db4c8601ead9;
  }

  lemma SecondMix()
    ensures Mix(0xaf63db4c8601ead9, 'o') == 0x08985907b541d342
  {
    assert ('o' as int % 256) as bv64 == 111 as bv64;
    assert (0xaf63db4c8601ead9 as bv64 ^ 111 as bv64) == 0xaf63db4c8601eab6;
    assert (0xaf63db4c8601eab6 as bv64) * (1099511628211 as bv64) == 0x08985907b541d342;
  }

  // The hashes published for FNV-1a with 64 bits of the empty key, "f" and "fo".
  lemma FnvVectors()
    ensures Fnv("") == 0xcbf29ce484222325 && Fnv("f") == 0xaf63db4c8601ead9 && Fnv("fo") == 0x08985907b541d342
  {
    FirstMix();
    FnvStep("", 'f');
    assert "" + ['f'] == "f";
    SecondMix();
    FnvStep("f", 'o');
    assert "f" + ['o'] == "fo";
  }

  function HashIndex(): (index: Index)
    ensures forall key, n :: n > 0 ==> index(key, n) == Fnv(key) as nat % n
  {
    Modulo(key => Fnv(key) as nat)
  }

  function Bucket(hash: Index, key: string, n: nat): (b: nat)
    requires n > 0
    ensures b < n
  {
    hash(key, n)
  }

  // Every pair is in the bucket of its key, and no key is there twice.
  ghost predicate Sound<T>(t: Table<T>, hash: Index) {
    && |t| > 0
    && (forall b :: 0 <= b < |t| ==> NoRepeat(t[b]))
    && (forall b, i :: 0 <= b < |t| && 0 <= i < |t[b]| ==> Bucket(hash, t[b][i].key, |t|) == b)
  }

  function Size<T>(t: Table<T>): nat {
    if t == [] then 0 else |t[0]| + Size(t[1..])
  }

  function Lookup<T>(t: Table<T>, hash: Index, key: string): Option<T>
    requires |t| > 0
  {
    Find(t[Bucket(hash, key, |t|)], key)
  }

  function Insert<T>(t: Table<T>, hash: Index, key: string, value: T): (r: Table<T>)
    requires |t| > 0
    ensures |r| == |t|
  {
    var b := Bucket(hash, key, |t|);
    t[b := Put(t[b], key, value)]
  }

  function Remove<T>(t: Table<T>, hash: Index, key: string): (r: Table<T>)
    requires |t| > 0
    ensures |r| == |t|
  {
    var b := Bucket(hash, key, |t|);
    t[b := Drop(t[b], key)]
  }

  function Fresh<T>(n: nat): (t: Table<T>)
    ensures |t| == n && forall b :: 0 <= b < n ==> t[b] == []
  {
    if n == 0 then [] else [[]] + Fresh(n - 1)
  }

  // Inserts the pairs of a chain, first to last.
  function InsertAll<T>(t: Table<T>, hash: Index, c: seq<Pair<T>>): (r: Table<T>)
    requires |t| > 0
    ensures |r| == |t|
  {
    if c == [] then t
    else
      var r := InsertAll(t, hash, c[..|c| - 1]);
      Insert(r, hash, c[|c| - 1].key, c[|c| - 1].value)
  }

  // All pairs, bucket after bucket.
  function Pairs<T>(t: Table<T>): seq<Pair<T>> {
    if t == [] then [] else Pairs(t[..|t| - 1]) + t[|t| - 1]
  }

  function Resize<T>(t: Table<T>, hash: Index, n: nat): Table<T>
    requires n > 0
  {
    InsertAll(Fresh(n), hash, Pairs(t))
  }

  // One more pair would load the table beyond three quarters.
  predicate Full<T>(t: Table<T>) {
    4 * (Size(t) + 1) > 3 * |t|
  }

  function Set<T>(t: Table<T>, hash: Index, key: string, value: T): Table<T>
    requires |t| > 0
  {
    Insert(if Full(t) then Resize(t, hash, 2 * |t|) else t, hash, key, value)
  }

  lemma {:induction false} SizeUpdate<T>(t: Table<T>, b: nat, c: seq<Pair<T>>)
    requires b < |t|
    ensures Size(t[b := c]) == Size(t) - |t[b]| + |c|
  {
    if b > 0 {
      assert t[b := c][1..] == t[1..][b - 1 := c];
      SizeUpdate(t[1..], b - 1, c);
    } else {
      assert t[0 := c][1..] == t[1..];
    }
  }

  lemma InsertWorks<T>(t: Table<T>, hash: Index, key: string, value: T)
    requires Sound(t, hash)
    ensures var r := Insert(t, hash, key, value);
      && Sound(r, hash) && Size(r) == Size(t) + (if Lookup(t, hash, key).Some? then 0 else 1)
      && forall k :: Lookup(r, hash, k) == if k == key then Some(value) else Lookup(t, hash, k)
  {
    var b := Bucket(hash, key, |t|);
    var r := Insert(t, hash, key, value);
    SizeUpdate(t, b, Put(t[b], key, value));
    PutFinds(t[b], key, value, key);
    forall k ensures Lookup(r, hash, k) == if k == key then Some(value) else Lookup(t, hash, k) {
      PutFinds(t[b], key, value, k);
    }
  }

  lemma RemoveWorks<T>(t: Table<T>, hash: Index, key: string)
    requires Sound(t, hash)
    ensures var r := Remove(t, hash, key);
      && Sound(r, hash) && Size(r) == Size(t) - (if Lookup(t, hash, key).Some? then 1 else 0)
      && forall k :: Lookup(r, hash, k) == if k == key then None else Lookup(t, hash, k)
  {
    var b := Bucket(hash, key, |t|);
    var r: Table<T> := Remove(t, hash, key);
    SizeUpdate(t, b, Drop(t[b], key));
    DropFinds(t[b], key, key);
    DropNoRepeat(t[b], key);
    DropMembers(t[b], key);
    forall i: int | 0 <= i < |r[b]| ensures Bucket(hash, r[b][i].key, |t|) == b {
      assert r[b][i] in t[b];
    }
    forall k ensures Lookup(r, hash, k) == if k == key then None else Lookup(t, hash, k) {
      DropFinds(t[b], key, k);
    }
  }

  // Inserting pairs without repeated keys into an empty table keeps exactly them.
  lemma {:induction false} InsertAllWorks<T>(n: nat, hash: Index, c: seq<Pair<T>>)
    requires n > 0 && NoRepeat(c)
    ensures var r := InsertAll(Fresh(n), hash, c);
      Sound(r, hash) && Size(r) == |c| && forall k :: Lookup(r, hash, k) == Find(c, k)
  {
    if c != [] {
      InsertAllWorks(n, hash, c[..|c| - 1]);
      InsertLast(InsertAll(Fresh(n), hash, c[..|c| - 1]), hash, c);
    } else {
      SizeFresh<T>(n);
    }
  }

  lemma InsertLast<T>(t: Table<T>, hash: Index, c: seq<Pair<T>>)
    requires c != [] && NoRepeat(c) && Sound(t, hash)
    requires var init := c[..|c| - 1];
      Size(t) == |init| && forall k :: Lookup(t, hash, k) == Find(init, k)
    ensures var r := Insert(t, hash, c[|c| - 1].key, c[|c| - 1].value);
      Sound(r, hash) && Size(r) == |c| && forall k :: Lookup(r, hash, k) == Find(c, k)
  {
    var init, p := c[..|c| - 1], c[|c| - 1];
    InsertWorks(t, hash, p.key, p.value);
    FindPresent(init, p.key);
    assert c == init + [p];
    forall k ensures Find(c, k) == if k == p.key then Some(p.value) else Find(init, k) {
      FindConcat(init, [p], k);
      assert [p][1..] == [];
    }
  }

  lemma {:induction false} FindConcat<T>(c: seq<Pair<T>>, d: seq<Pair<T>>, k: string)
    ensures Find(c + d, k) == if Find(c, k).Some? then Find(c, k) else Find(d, k)
  {
    if c != [] {
      assert (c + d)[1..] == c[1..] + d;
      FindConcat(c[1..], d, k);
    } else {
      assert c + d == d;
    }
  }

  lemma {:induction false} SizeFresh<T>(n: nat)
    ensures Size(Fresh<T>(n)) == 0
  {
    if n > 0 {
      assert Fresh<T>(n)[1..] == Fresh<T>(n - 1);
      SizeFresh<T>(n - 1);
    }
  }

  lemma {:induction false} SizeAppend<T>(t: Table<T>, c: seq<Pair<T>>)
    ensures Size(t + [c]) == Size(t) + |c|
  {
    if t != [] {
      assert (t + [c])[1..] == t[1..] + [c];
      SizeAppend(t[1..], c);
    } else {
      assert [c][1..] == [];
      assert t + [c] == [c];
    }
  }

  // The pairs of the first b buckets.
  lemma {:induction false} PairsOfBuckets<T>(t: Table<T>, hash: Index, b: nat)
    requires Sound(t, hash) && b <= |t|
    ensures var p := Pairs(t[..b]);
      && NoRepeat(p) && |p| == Size(t[..b])
      && forall k :: Find(p, k) == if Bucket(hash, k, |t|) < b then Lookup(t, hash, k) else None
  {
    if b > 0 {
      PairsOfBuckets(t, hash, b - 1);
      OneMoreBucket(t, hash, b - 1);
    }
  }

  lemma OneMoreBucket<T>(t: Table<T>, hash: Index, b: nat)
    requires Sound(t, hash) && b < |t|
    requires var p := Pairs(t[..b]);
      && NoRepeat(p) && |p| == Size(t[..b])
      && forall k :: Find(p, k) == if Bucket(hash, k, |t|) < b then Lookup(t, hash, k) else None
    ensures var p := Pairs(t[..b + 1]);
      && NoRepeat(p) && |p| == Size(t[..b + 1])
      && forall k :: Find(p, k) == if Bucket(hash, k, |t|) < b + 1 then Lookup(t, hash, k) else None
  {
    var p, c := Pairs(t[..b]), t[b];
    assert t[..b + 1] == t[..b] + [c] && t[..b + 1][..b] == t[..b];
    SizeAppend(t[..b], c);
    forall k ensures Find(p + c, k) == if Bucket(hash, k, |t|) < b + 1 then Lookup(t, hash, k) else None {
      FindConcat(p, c, k);
      FindPresent(c, k);
    }
    forall i, j | 0 <= i < |p| && 0 <= j < |c| ensures p[i].key != c[j].key {
      FindPresent(p, p[i].key);
    }
  }

  // Resizing moves every pair once and changes no lookup.
  lemma ResizeWorks<T>(t: Table<T>, hash: Index, n: nat)
    requires Sound(t, hash) && n > 0
    ensures var r := Resize(t, hash, n);
      && Sound(r, hash) && |r| == n && Size(r) == Size(t)
      && forall k :: Lookup(r, hash, k) == Lookup(t, hash, k)
  {
    PairsOfBuckets(t, hash, |t|);
    assert t[..|t|] == t;
    InsertAllWorks(n, hash, Pairs(t));
  }

  // After a set the key has its value, every other key has what it had, and the table
  // is at most three quarters loaded: it doubles when one more key would exceed that.
  lemma SetWorks<T>(t: Table<T>, hash: Index, key: string, value: T)
    requires Sound(t, hash) && |t| >= 2 && 4 * Size(t) <= 3 * |t|
    ensures var r := Set(t, hash, key, value);
      && Sound(r, hash) && |r| == (if 4 * (Size(t) + 1) > 3 * |t| then 2 else 1) * |t| && 4 * Size(r) <= 3 * |r|
      && forall k :: Lookup(r, hash, k) == if k == key then Some(value) else Lookup(t, hash, k)
  {
    ResizeWorks(t, hash, 2 * |t|);
    InsertWorks(if Full(t) then Resize(t, hash, 2 * |t|) else t, hash, key, value);
  }

  // While the pairs go over to the doubled table, no insertion finds it full.
  lemma NeverFullAgain<T>(n: nat, hash: Index, c: seq<Pair<T>>, k: nat)
    requires n > 0 && NoRepeat(c) && k < |c| && 4 * |c| <= 3 * n
    ensures !Full(InsertAll(Fresh(n), hash, c[..k]))
  {
    InsertAllWorks(n, hash, c[..k]);
  }
}
