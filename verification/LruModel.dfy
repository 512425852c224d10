// What a least-recently-used cache holds, as a list with the latest use first.
module LruModel {
  import opened Options

  datatype Entry<T> = Entry(key: string, value: T)

  datatype Event<T> = Put(key: string, value: T) | Get(key: string)

  function Keys<T>(es: seq<Entry<T>>): (r: seq<string>)
    ensures |r| == |es| && forall i :: 0 <= i < |es| ==> r[i] == es[i].key
  {
    seq(|es|, i requires 0 <= i < |es| => es[i].key)
  }

  function Has<T>(es: seq<Entry<T>>, key: string): bool {
    key in Keys(es)
  }

  // The list without its entry for a key.
  function Drop<T>(es: seq<Entry<T>>, key: string): (r: seq<Entry<T>>)
    ensures |r| <= |es|
  {
    if es == [] then [] else if es[0].key == key then es[1..] else [es[0]] + Drop(es[1..], key)
  }

  function Lookup<T>(es: seq<Entry<T>>, key: string): Option<T> {
    if es == [] then None else if es[0].key == key then Some(es[0].value) else Lookup(es[1..], key)
  }

  function Puts<T>(capacity: int, es: seq<Entry<T>>, key: string, value: T): seq<Entry<T>> {
    if key == "" || capacity <= 0 then es
    else if Has(es, key) then [Entry(key, value)] + Drop(es, key)
    else [Entry(key, value)] + Trimmed(capacity, es)
  }

  // Room for one entry more.
  function Trimmed<T>(capacity: int, es: seq<Entry<T>>): seq<Entry<T>> {
    if |es| >= capacity && es != [] then es[..|es| - 1] else es
  }

  function Gets<T>(es: seq<Entry<T>>, key: string): seq<Entry<T>> {
    var hit := Lookup(es, key);
    if hit.None? then es else [Entry(key, hit.value)] + Drop(es, key)
  }

  function Step<T>(capacity: int, es: seq<Entry<T>>, e: Event<T>): seq<Entry<T>> {
    match e
    case Put(key, value) => Puts(capacity, es, key, value)
    case Get(key) => Gets(es, key)
  }

  // The cache after a run from empty.
  function Cached<T>(capacity: int, run: seq<Event<T>>): seq<Entry<T>> {
    if run == [] then [] else Step(capacity, Cached(capacity, run[..|run| - 1]), run[|run| - 1])
  }

  // The reference: which keys were used last -------------------------------------------

  function Remove(keys: seq<string>, key: string): (r: seq<string>)
    ensures |r| <= |keys|
  {
    if keys == [] then [] else if keys[0] == key then keys[1..] else [keys[0]] + Remove(keys[1..], key)
  }

  // The distinct keys of a sequence of uses, the last used first.
  function Recent(uses: seq<string>): seq<string> {
    if uses == [] then []
    else
      var last := uses[|uses| - 1];
      [last] + Remove(Recent(uses[..|uses| - 1]), last)
  }

  function First(keys: seq<string>, n: int): seq<string> {
    if n <= 0 || keys == [] then [] else [keys[0]] + First(keys[1..], n - 1)
  }

  // A put of a key uses it; a get uses it if it is among the `capacity` last used.
  function Uses<T>(capacity: int, run: seq<Event<T>>): seq<string> {
    if run == [] then []
    else
      var uses, e := Uses(capacity, run[..|run| - 1]), run[|run| - 1];
      if e.key != "" && (e.Put? || e.key in First(Recent(uses), capacity)) then uses + [e.key] else uses
  }

  // The value last put under a key.
  function LastPut<T>(run: seq<Event<T>>, key: string): Option<T> {
    if run == [] then None
    else
      var e := run[|run| - 1];
      if e.Put? && e.key == key then Some(e.value) else LastPut(run[..|run| - 1], key)
  }

  // The position of the last use of a key.
  function LastUse(uses: seq<string>, key: string): int {
    if uses == [] then -1
    else if uses[|uses| - 1] == key then |uses| - 1
    else LastUse(uses[..|uses| - 1], key)
  }

  ghost predicate Distinct(keys: seq<string>) {
    forall i, j :: 0 <= i < j < |keys| ==> keys[i] != keys[j]
  }

  lemma {:induction false} RemoveMembers(keys: seq<string>, key: string)
    requires Distinct(keys)
    ensures var r := Remove(keys, key);
      Distinct(r) && (forall k :: k in r <==> k in keys && k != key) && |r| == |keys| - if key in keys then 1 else 0
  {
    if keys != [] {
      assert keys == [keys[0]] + keys[1..];
      assert keys[0] !in keys[1..];
      if keys[0] != key {
        RemoveMembers(keys[1..], key);
      }
    }
  }

  // a was last used after b was.
  predicate Later(uses: seq<string>, a: string, b: string) {
    LastUse(uses, a) > LastUse(uses, b)
  }

  ghost predicate LatestFirst(keys: seq<string>, uses: seq<string>) {
    forall i, j :: 0 <= i < j < |keys| ==> Later(uses, keys[i], keys[j])
  }

  lemma {:induction false} RemoveKeepsOrder(keys: seq<string>, key: string, uses: seq<string>)
    requires LatestFirst(keys, uses)
    ensures LatestFirst(Remove(keys, key), uses)
    ensures forall k :: k in Remove(keys, key) ==> k in keys
  {
    if keys != [] && keys[0] != key {
      var rest := Remove(keys[1..], key);
      RemoveKeepsOrder(keys[1..], key, uses);
      forall j | 0 <= j < |rest| ensures Later(uses, keys[0], rest[j]) {
        assert rest[j] in rest;
        var i :| 1 <= i < |keys| && keys[i] == rest[j];
      }
    }
  }

  // Recent lists exactly the keys used, each once, by last use.
  lemma {:induction false} RecentOrders(uses: seq<string>)
    ensures var r := Recent(uses);
      Distinct(r) && (forall k :: k in r <==> k in uses) && LatestFirst(r, uses)
  {
    if uses != [] {
      var init, last := uses[..|uses| - 1], uses[|uses| - 1];
      var r := Recent(init);
      var rest := Remove(r, last);
      assert uses == init + [last];
      RecentOrders(init);
      RemoveMembers(r, last);
      RemoveKeepsOrder(r, last, init);
      forall j | 0 <= j < |rest| ensures rest[j] in init && LastUse(uses, rest[j]) == LastUse(init, rest[j]) {
        assert rest[j] in rest;
      }
      LastUseBounds(init);
    }
  }

  lemma {:induction false} LastUseBounds(uses: seq<string>)
    ensures forall k :: LastUse(uses, k) < |uses|
  {
    if uses != [] {
      LastUseBounds(uses[..|uses| - 1]);
    }
  }

  // The cache against the reference ------------------------------------------------------

  lemma {:induction false} DropKeys<T>(es: seq<Entry<T>>, key: string)
    ensures Keys(Drop(es, key)) == Remove(Keys(es), key)
  {
    if es != [] {
      assert Keys(es)[1..] == Keys(es[1..]);
      if es[0].key != key {
        DropKeys(es[1..], key);
      }
    }
  }

  lemma {:induction false} LookupHas<T>(es: seq<Entry<T>>, key: string)
    ensures Lookup(es, key).Some? <==> Has(es, key)
  {
    if es != [] {
      assert Keys(es) == [es[0].key] + Keys(es[1..]);
      LookupHas(es[1..], key);
    }
  }

  lemma {:induction false} DropLookup<T>(es: seq<Entry<T>>, key: string, k: string)
    requires k != key
    ensures Lookup(Drop(es, key), k) == Lookup(es, k)
  {
    if es != [] && es[0].key != key {
      DropLookup(es[1..], key, k);
    }
  }

  lemma {:induction false} FirstIsPrefix(keys: seq<string>, n: nat)
    ensures First(keys, n) == if n <= |keys| then keys[..n] else keys
  {
    if keys != [] && n > 0 {
      FirstIsPrefix(keys[1..], n - 1);
      if n <= |keys| {
        assert keys[..n] == [keys[0]] + keys[1..][..n - 1];
      }
    }
  }

  // Taking a key out of the whole, when it is among the first n and when it is not.
  lemma {:induction false} FirstRemoveIn(keys: seq<string>, key: string, n: nat)
    requires n >= 1 && key in First(keys, n)
    ensures Remove(First(keys, n), key) == First(Remove(keys, key), n - 1)
  {
    var rest := First(keys[1..], n - 1);
    assert First(keys, n) == [keys[0]] + rest;
    if keys[0] != key {
      FirstRemoveIn(keys[1..], key, n - 1);
      assert ([keys[0]] + rest)[1..] == rest;
      assert ([keys[0]] + Remove(keys[1..], key))[1..] == Remove(keys[1..], key);
    }
  }

  lemma {:induction false} FirstRemoveOut(keys: seq<string>, key: string, n: nat)
    requires n >= 1 && key !in First(keys, n)
    ensures First(keys, n - 1) == First(Remove(keys, key), n - 1)
  {
    if keys != [] && n > 1 {
      assert First(keys, n) == [keys[0]] + First(keys[1..], n - 1);
      FirstRemoveOut(keys[1..], key, n - 1);
      assert ([keys[0]] + Remove(keys[1..], key))[1..] == Remove(keys[1..], key);
    }
  }

  // Moving a key to the front of the cache and to the front of the recent keys.
  lemma UseKeys<T>(capacity: int, es: seq<Entry<T>>, recent: seq<string>, key: string, value: T)
    requires capacity > 0 && Distinct(recent) && Keys(es) == First(recent, capacity) && key != ""
    ensures Keys(Puts(capacity, es, key, value)) == First([key] + Remove(recent, key), capacity)
  {
    var r := Remove(recent, key);
    assert ([key] + r)[1..] == r;
    if Has(es, key) {
      FirstRemoveIn(recent, key, capacity);
      DropKeys(es, key);
      KeysPrepend(Entry(key, value), Drop(es, key));
    } else {
      var rest := if |es| >= capacity then es[..|es| - 1] else es;
      FirstRemoveOut(recent, key, capacity);
      EvictKeys(capacity, es, recent);
      KeysPrepend(Entry(key, value), rest);
    }
  }

  lemma KeysPrepend<T>(e: Entry<T>, es: seq<Entry<T>>)
    ensures Keys([e] + es) == [e.key] + Keys(es)
  {
  }

  lemma EvictKeys<T>(capacity: int, es: seq<Entry<T>>, recent: seq<string>)
    requires capacity > 0 && Keys(es) == First(recent, capacity)
    ensures Keys(if |es| >= capacity then es[..|es| - 1] else es) == First(recent, capacity - 1)
  {
    FirstIsPrefix(recent, capacity);
    FirstIsPrefix(recent, capacity - 1);
  }

  // After any run the cached keys, in order, are the `capacity` most recently used ones.
  lemma {:induction false} CachedKeys<T>(capacity: int, run: seq<Event<T>>)
    requires capacity > 0
    ensures Keys(Cached(capacity, run)) == First(Recent(Uses(capacity, run)), capacity)
  {
    if run != [] {
      var init, e := run[..|run| - 1], run[|run| - 1];
      var es, uses := Cached(capacity, init), Uses(capacity, init);
      CachedKeys(capacity, init);
      RecentOrders(uses);
      NoEmptyKey(capacity, init);
      FirstIsPrefix(Recent(uses), capacity);
      LookupHas(es, e.key);
      if e.key != "" && (e.Put? || Has(es, e.key)) {
        assert (uses + [e.key])[..|uses|] == uses;
        UseKeys(capacity, es, Recent(uses), e.key, if e.Put? then e.value else Lookup(es, e.key).value);
      }
    }
  }

  lemma {:induction false} NoEmptyKey<T>(capacity: int, run: seq<Event<T>>)
    ensures "" !in Uses(capacity, run)
  {
    if run != [] {
      NoEmptyKey(capacity, run[..|run| - 1]);
    }
  }

  lemma NoEmptyCached<T>(capacity: int, run: seq<Event<T>>)
    requires capacity > 0
    ensures !Has(Cached(capacity, run), "")
  {
    CachedKeys(capacity, run);
    NoEmptyKey(capacity, run);
    RecentOrders(Uses(capacity, run));
    FirstIsPrefix(Recent(Uses(capacity, run)), capacity);
  }

  // Each cached key has the value last put under it.
  lemma {:induction false} CachedValues<T>(capacity: int, run: seq<Event<T>>, key: string)
    requires capacity > 0 && Has(Cached(capacity, run), key)
    ensures Lookup(Cached(capacity, run), key) == LastPut(run, key)
  {
    var init, e := run[..|run| - 1], run[|run| - 1];
    var es := Cached(capacity, init);
    LookupHas(es, key);
    LookupHas(Cached(capacity, run), key);
    if key != e.key {
      DropLookup(es, e.key, key);
      if e.Put? && e.key != "" && !Has(es, e.key) && |es| >= capacity && es != [] {
        EvictLookup(es, key);
      }
      CachedValues(capacity, init, key);
    } else {
      if e.Get? {
        CachedValues(capacity, init, key);
      } else {
        NoEmptyCached(capacity, run);
      }
    }
  }

  lemma {:induction false} EvictLookup<T>(es: seq<Entry<T>>, key: string)
    requires es != [] && Lookup(es[..|es| - 1], key).Some?
    ensures Lookup(es[..|es| - 1], key) == Lookup(es, key)
  {
    if es[0].key != key {
      assert es[..|es| - 1][1..] == es[1..][..|es| - 2];
      EvictLookup(es[1..], key);
    }
  }
}
