// The product catalog: products by ID, and groups of products by price in a
// B-tree.
module CatalogStore {
  import opened Options
  import opened BTreeModel
  import BTree

  datatype Product = Product(id: string, name: string, category: string, price: real)

  datatype Outcome = Done | NilProduct | NotFound | Duplicate

  const DEFAULT_MIN := 0.0
  const DEFAULT_MAX := 1000000000000000000.0

  type Index = seq<Entry<seq<Product>>>

  // Agreement between the two views ------------------------------------------

  ghost predicate DistinctIds(g: seq<Product>) {
    forall a, b :: 0 <= a < b < |g| ==> g[a].id != g[b].id
  }

  // A price group is never empty and lists current products of that price, each
  // once.
  ghost predicate GoodGroup(byID: map<string, Product>, k: Key, g: seq<Product>) {
    && g != [] && DistinctIds(g)
    && forall p :: p in g ==> p.price == k && p.id in byID && byID[p.id] == p
  }

  ghost predicate Indexed(e: Index, p: Product) {
    Lookup(e, p.price).Some? && p in Lookup(e, p.price).value
  }

  ghost predicate Agree(byID: map<string, Product>, e: Index) {
    && Sorted(e)
    && (forall id :: id in byID ==> byID[id].id == id && Indexed(e, byID[id]))
    && (forall k :: Lookup(e, k).Some? ==> GoodGroup(byID, k, Lookup(e, k).value))
  }

  function Drop(g: seq<Product>, id: string): (r: seq<Product>)
    ensures forall p :: p in r <==> p in g && p.id != id
  {
    if g == [] then []
    else (if g[0].id != id then [g[0]] else []) + Drop(g[1..], id)
  }

  lemma {:induction false} DropDistinct(g: seq<Product>, id: string)
    requires DistinctIds(g)
    ensures DistinctIds(Drop(g, id))
  {
    if g != [] {
      DropDistinct(g[1..], id);
      assert forall p :: p in Drop(g[1..], id) ==> p in g[1..] && p.id != g[0].id;
    }
  }

  // The index after a product enters its price group.
  function Added(e: Index, p: Product): Index {
    Put(e, p.price, if Lookup(e, p.price).Some? then Lookup(e, p.price).value + [p] else [p])
  }

  // The index after a product leaves its price group; an empty group goes too.
  function Removed(e: Index, p: Product): Index {
    if Lookup(e, p.price).None? then e
    else
      var g := Drop(Lookup(e, p.price).value, p.id);
      if g == [] then WithoutKey(e, p.price) else Put(e, p.price, g)
  }

  lemma AddAgrees(byID: map<string, Product>, e: Index, p: Product)
    requires Agree(byID, e) && p.id !in byID
    ensures Agree(byID[p.id := p], Added(e, p))
  {
    var e', all := Added(e, p), byID[p.id := p];
    LookupPut(e, p.price, if Lookup(e, p.price).Some? then Lookup(e, p.price).value + [p] else [p], p.price);
    forall k | Lookup(e', k).Some? ensures GoodGroup(all, k, Lookup(e', k).value) {
      LookupPut(e, p.price, Lookup(e', p.price).value, k);
      if Lookup(e, k).Some? {
        assert GoodGroup(byID, k, Lookup(e, k).value);
      }
    }
    forall id | id in all ensures all[id].id == id && Indexed(e', all[id]) {
      LookupPut(e, p.price, Lookup(e', p.price).value, all[id].price);
    }
  }

  lemma RemoveAgrees(byID: map<string, Product>, e: Index, id: string)
    requires Agree(byID, e) && id in byID
    ensures Agree(byID - {id}, Removed(e, byID[id]))
  {
    var p, rest := byID[id], byID - {id};
    var e' := Removed(e, p);
    assert GoodGroup(byID, p.price, Lookup(e, p.price).value);
    var g := Drop(Lookup(e, p.price).value, id);
    DropDistinct(Lookup(e, p.price).value, id);
    forall k
      ensures Sorted(e')
      ensures Lookup(e', k) == if k != p.price then Lookup(e, k) else if g == [] then None else Some(g)
    {
      if g == [] { LookupWithout(e, p.price, k); } else { LookupPut(e, p.price, g, k); }
    }
    forall k | Lookup(e', k).Some? ensures GoodGroup(rest, k, Lookup(e', k).value) {
      if k != p.price {
        assert GoodGroup(byID, k, Lookup(e, k).value);
      }
    }
    forall x | x in rest ensures rest[x].id == x && Indexed(e', rest[x]) {
      assert Indexed(e, byID[x]);
    }
  }

  lemma ReplaceAgrees(byID: map<string, Product>, e: Index, p: Product)
    requires Agree(byID, e) && p.id in byID
    ensures Agree(byID[p.id := p], Added(Removed(e, byID[p.id]), p))
  {
    RemoveAgrees(byID, e, p.id);
    AddAgrees(byID - {p.id}, Removed(e, byID[p.id]), p);
    assert byID[p.id := p] == (byID - {p.id})[p.id := p];
  }

  // Range candidates ----------------------------------------------------------

  function Concat(groups: seq<seq<Product>>): seq<Product> {
    if groups == [] then [] else groups[0] + Concat(groups[1..])
  }

  ghost function Matching(byID: map<string, Product>, min: Key, max: Key): set<Product> {
    set p | p in byID.Values && min <= p.price <= max
  }

  lemma {:induction false} CountInGroup(g: seq<Product>, p: Product)
    requires DistinctIds(g)
    ensures multiset(g)[p] == if p in g then 1 else 0
  {
    if g != [] {
      assert g == [g[0]] + g[1..];
      CountInGroup(g[1..], p);
    }
  }

  ghost predicate OwnPrice(e: Index) {
    forall i :: 0 <= i < |e| ==> DistinctIds(e[i].value) && forall p :: p in e[i].value ==> p.price == e[i].key
  }

  ghost predicate Listed(e: Index, p: Product) {
    exists i :: 0 <= i < |e| && p in e[i].value
  }

  // A range query yields every listed product of the range exactly once.
  lemma {:induction false} CountInRange(e: Index, min: Key, max: Key, p: Product)
    requires Sorted(e) && OwnPrice(e)
    ensures multiset(Concat(InRange(e, min, max)))[p] ==
      if Listed(e, p) && min <= p.price <= max then 1 else 0
  {
    if e != [] {
      CountInRange(e[1..], min, max, p);
      var tail := InRange(e[1..], min, max);
      assert Listed(e, p) <==> p in e[0].value || Listed(e[1..], p) by {
        if p in e[0].value {
        } else if Listed(e, p) {
          var i :| 0 <= i < |e| && p in e[i].value;
          assert e[i] == e[1..][i - 1];
        }
      }
      if min <= e[0].key <= max {
        assert InRange(e, min, max) == [e[0].value] + tail;
        assert ([e[0].value] + tail)[1..] == tail;
        assert Concat(InRange(e, min, max)) == e[0].value + Concat(tail);
        CountInGroup(e[0].value, p);
      } else {
        assert InRange(e, min, max) == tail;
      }
    }
  }

  lemma AgreeListed(byID: map<string, Product>, e: Index, p: Product)
    requires Agree(byID, e)
    ensures OwnPrice(e)
    ensures Listed(e, p) <==> p in byID.Values
  {
    forall i | 0 <= i < |e|
      ensures GoodGroup(byID, e[i].key, e[i].value)
    {
      LookupIffMember(e, e[i].key, e[i].value);
    }
    if p in byID.Values {
      var id :| id in byID && byID[id] == p;
      assert Indexed(e, p);
      LookupMember(e, p.price);
      var i :| 0 <= i < |e| && e[i] == Entry(p.price, Lookup(e, p.price).value);
    }
  }

  // The price index and a scan over all products give the same multiset.
  lemma IndexEqualsScan(byID: map<string, Product>, e: Index, min: Key, max: Key)
    requires Agree(byID, e)
    ensures multiset(Concat(InRange(e, min, max))) == multiset(Matching(byID, min, max))
  {
    forall p
      ensures multiset(Concat(InRange(e, min, max)))[p] == multiset(Matching(byID, min, max))[p]
    {
      AgreeListed(byID, e, p);
      CountInRange(e, min, max, p);
    }
  }

  // A bound that was not given is replaced by a default. The result is what the
  // given bounds ask for exactly when no product that meets them lies outside
  // the defaults that were used.
  ghost predicate MeetsGiven(p: Product, min: Option<Key>, max: Option<Key>) {
    (min.Some? ==> min.value <= p.price) && (max.Some? ==> p.price <= max.value)
  }

  ghost predicate WithinDefaults(p: Product, min: Option<Key>, max: Option<Key>) {
    (min.None? ==> DEFAULT_MIN <= p.price) && (max.None? ==> p.price <= DEFAULT_MAX)
  }

  function Bound(given: Option<Key>, default: Key): Key {
    if given.Some? then given.value else default
  }

  lemma DefaultsExactWhen(byID: map<string, Product>, e: Index, min: Option<Key>, max: Option<Key>)
    requires Agree(byID, e)
    ensures multiset(Concat(InRange(e, Bound(min, DEFAULT_MIN), Bound(max, DEFAULT_MAX)))) ==
        multiset(set p | p in byID.Values && MeetsGiven(p, min, max))
      <==> forall p :: p in byID.Values && MeetsGiven(p, min, max) ==> WithinDefaults(p, min, max)
  {
    var lo, hi := Bound(min, DEFAULT_MIN), Bound(max, DEFAULT_MAX);
    var asked := set p | p in byID.Values && MeetsGiven(p, min, max);
    IndexEqualsScan(byID, e, lo, hi);
    SameMultiset(Matching(byID, lo, hi), asked);
    assert forall p :: p in Matching(byID, lo, hi) <==> p in asked && WithinDefaults(p, min, max);
  }

  // One product dearer than the default maximum: asked for without a maximum, it is not
  // among the candidates, though it is stored and indexed.
  lemma DearProductMissed(p: Product, min: Key)
    requires p.price > DEFAULT_MAX && min <= p.price
    ensures var byID, e := map[p.id := p], Added([], p);
      && Agree(byID, e) && MeetsGiven(p, Some(min), None)
      && Concat(InRange(e, Bound(Some(min), DEFAULT_MIN), Bound(None, DEFAULT_MAX))) == []
  {
    AddAgrees(map[], [], p);
    assert map[][p.id := p] == map[p.id := p];
    assert Added([], p) == [Entry(p.price, [p])];
  }

  lemma SameMultiset(a: set<Product>, b: set<Product>)
    ensures multiset(a) == multiset(b) <==> a == b
  {
    if multiset(a) == multiset(b) {
      forall p ensures p in a <==> p in b {
        assert p in multiset(a) <==> p in multiset(b);
      }
    }
  }

  // What is no longer to be visited has been seen.
  ghost predicate Scanned(byID: map<string, Product>, todo: set<string>, seen: map<string, Product>) {
    && todo <= byID.Keys && seen.Keys == byID.Keys - todo
    && forall id :: id in seen ==> seen[id] == byID[id] && seen[id].id == id
  }

  // The store -----------------------------------------------------------------

  class Store {
    var byID: map<string, Product>
    var byPrice: BTree.BTree<seq<Product>>

    ghost predicate Valid()
      reads this, byPrice, byPrice.root, byPrice.root.repr
    {
      this !in byPrice.Repr() && byPrice.Valid() && Agree(byID, byPrice.Contents())
    }

    ghost function Repr(): set<object>
      reads this, byPrice, byPrice.root
    {
      {this} + byPrice.Repr()
    }

    constructor ()
      ensures Valid() && fresh(Repr()) && byID == map[]
    {
      var index := new BTree.BTree<seq<Product>>(32);
      byID, byPrice := map[], index;
    }

    method AddToPriceIndex(p: Product)
      requires byPrice.Valid() && this !in byPrice.Repr()
      modifies byPrice.Repr()
      ensures byPrice.Valid() && fresh(byPrice.Repr() - old(byPrice.Repr()))
      ensures byPrice.Contents() == Added(old(byPrice.Contents()), p)
    {
      var group := byPrice.Search(p.price);
      if group.None? {
        byPrice.Insert(p.price, [p]);
      } else {
        byPrice.Insert(p.price, group.value + [p]);
      }
    }

    method RemoveFromPriceIndex(p: Product)
      requires byPrice.Valid() && this !in byPrice.Repr()
      modifies byPrice.Repr()
      ensures byPrice.Valid() && fresh(byPrice.Repr() - old(byPrice.Repr()))
      ensures byPrice.Contents() == Removed(old(byPrice.Contents()), p)
    {
      var group := byPrice.Search(p.price);
      if group.None? {
        return;
      }
      var next := WithoutProduct(group.value, p.id);
      if next == [] {
        var _ := byPrice.Delete(p.price);
      } else {
        byPrice.Insert(p.price, next);
      }
    }

    method Create(product: Option<Product>) returns (r: Outcome)
      requires Valid()
      modifies Repr()
      ensures Valid() && fresh(Repr() - old(Repr()))
      ensures r == if product.None? then NilProduct else if product.value.id in old(byID) then Duplicate else Done
      ensures byID == if r == Done then old(byID)[product.value.id := product.value] else old(byID)
    {
      if product.None? {
        return NilProduct;
      }
      var p := product.value;
      if p.id in byID {
        return Duplicate;
      }
      AddAgrees(byID, byPrice.Contents(), p);
      byID := byID[p.id := p];
      AddToPriceIndex(p);
      r := Done;
    }

    method Update(id: string, product: Option<Product>) returns (r: Outcome)
      requires Valid()
      modifies Repr()
      ensures Valid() && fresh(Repr() - old(Repr()))
      ensures r == if product.None? then NilProduct else if id !in old(byID) then NotFound else Done
      ensures byID == if r == Done then old(byID)[id := product.value.(id := id)] else old(byID)
    {
      if product.None? {
        return NilProduct;
      }
      if id !in byID {
        return NotFound;
      }
      var p := product.value.(id := id);
      ReplaceAgrees(byID, byPrice.Contents(), p);
      RemoveFromPriceIndex(byID[id]);
      byID := byID[id := p];
      AddToPriceIndex(p);
      r := Done;
    }

    method Delete(id: string) returns (r: Outcome)
      requires Valid()
      modifies Repr()
      ensures Valid() && fresh(Repr() - old(Repr()))
      ensures r == if id in old(byID) then Done else NotFound
      ensures byID == old(byID) - {id}
    {
      if id !in byID {
        return NotFound;
      }
      RemoveAgrees(byID, byPrice.Contents(), id);
      RemoveFromPriceIndex(byID[id]);
      byID := byID - {id};
      r := Done;
    }

    method GetCandidatesFromPriceIndex(min: Option<Key>, max: Option<Key>) returns (products: seq<Product>)
      requires Valid()
      ensures multiset(products) == multiset(Matching(byID, Bound(min, DEFAULT_MIN), Bound(max, DEFAULT_MAX)))
    {
      var minPrice := Bound(min, DEFAULT_MIN);
      var maxPrice := Bound(max, DEFAULT_MAX);
      var groups := byPrice.RangeQuery(minPrice, maxPrice);
      products := [];
      var i := 0;
      while i < |groups|
        invariant 0 <= i <= |groups|
        invariant products == Concat(groups[..i])
      {
        ConcatLast(groups, i);
        products := products + groups[i];
        i := i + 1;
      }
      assert groups[..i] == groups;
      IndexEqualsScan(byID, byPrice.Contents(), minPrice, maxPrice);
    }

    // The scan over all products, in any order.
    method LinearRangeQuery(min: Key, max: Key) returns (products: seq<Product>)
      requires Valid()
      ensures multiset(products) == multiset(Matching(byID, min, max))
    {
      products := [];
      var todo := byID.Keys;
      ghost var seen: map<string, Product> := map[];
      while todo != {}
        invariant Scanned(byID, todo, seen) && multiset(products) == multiset(Matching(seen, min, max))
        decreases |todo|
      {
        var id :| id in todo;
        var p := byID[id];
        MatchingOneMore(seen, id, p, min, max);
        todo, seen := todo - {id}, seen[id := p];
        if p.price < min || p.price > max {
          continue;
        }
        products := products + [p];
      }
      assert seen == byID;
    }
  }

  lemma MatchingOneMore(seen: map<string, Product>, id: string, p: Product, min: Key, max: Key)
    requires id !in seen && p.id == id && forall x :: x in seen ==> seen[x].id == x
    ensures var now := Matching(seen[id := p], min, max);
      var got := Matching(seen, min, max);
      multiset(now) == multiset(got) + (if min <= p.price <= max then multiset{p} else multiset{})
  {
    var all := seen[id := p];
    assert all[id] == p;
    forall q ensures q in all.Values <==> q == p || q in seen.Values {
      if q in seen.Values {
        var x :| x in seen && seen[x] == q;
        assert all[x] == q;
      }
    }
    assert forall x :: x in seen ==> seen[x] != p;
    if min <= p.price <= max {
      assert Matching(all, min, max) == Matching(seen, min, max) + {p};
    } else {
      assert Matching(all, min, max) == Matching(seen, min, max);
    }
  }

  method WithoutProduct(group: seq<Product>, id: string) returns (next: seq<Product>)
    ensures next == Drop(group, id)
  {
    next := [];
    var i := 0;
    while i < |group|
      invariant 0 <= i <= |group|
      invariant next == Drop(group[..i], id)
    {
      assert group[..i + 1] == group[..i] + [group[i]];
      DropAppend(group[..i], group[i], id);
      if group[i].id != id {
        next := next + [group[i]];
      }
      i := i + 1;
    }
    assert group[..i] == group;
  }

  // Pages -----------------------------------------------------------------------------

  function PageSize(size: int): (n: int)
    ensures n >= 1
  {
    if size <= 0 then 20 else size
  }

  function PageAt(products: seq<Product>, offset: int, size: int): seq<Product>
    requires offset >= 0 && size >= 1
  {
    if offset >= |products| then []
    else products[offset..if offset + size > |products| then |products| else offset + size]
  }

  // The given page of a list; pages count from one.
  function Paginate(products: seq<Product>, page: int, size: int): seq<Product> {
    PageAt(products, ((if page <= 0 then 1 else page) - 1) * PageSize(size), PageSize(size))
  }

  // The first n pages, one after the other.
  function Pages(products: seq<Product>, size: int, n: nat): seq<Product> {
    if n == 0 then [] else Pages(products, size, n - 1) + Paginate(products, n, size)
  }

  function FirstOf(products: seq<Product>, n: nat): seq<Product> {
    if n <= |products| then products[..n] else products
  }

  lemma PageJoins(products: seq<Product>, offset: nat, size: nat)
    requires size >= 1
    ensures FirstOf(products, offset) + PageAt(products, offset, size) == FirstOf(products, offset + size)
  {
  }

  // Leafing through n pages shows the first n * size products, in order and once each; a
  // page holds 20 when no size is asked for.
  lemma {:induction false} PagesJoin(products: seq<Product>, size: int, n: nat)
    ensures n * PageSize(size) >= 0 && PageSize(size) == if size <= 0 then 20 else size
    ensures Pages(products, size, n) == FirstOf(products, n * PageSize(size))
    ensures FirstOf(products, n * PageSize(size)) <= products
    ensures |Pages(products, size, n)| == if n * PageSize(size) <= |products| then n * PageSize(size) else |products|
  {
    if n > 0 {
      var k := PageSize(size);
      PagesJoin(products, size, n - 1);
      assert n * k == (n - 1) * k + k;
      PageJoins(products, (n - 1) * k, k);
    }
  }

  lemma {:induction false} DropAppend(g: seq<Product>, p: Product, id: string)
    ensures Drop(g + [p], id) == Drop(g, id) + if p.id != id then [p] else []
  {
    if g == [] {
      assert [p][1..] == [];
    } else {
      assert (g + [p])[1..] == g[1..] + [p];
      DropAppend(g[1..], p, id);
    }
  }

  lemma {:induction false} ConcatLast(groups: seq<seq<Product>>, i: nat)
    requires i < |groups|
    ensures Concat(groups[..i + 1]) == Concat(groups[..i]) + groups[i]
  {
    if i > 0 {
      ConcatLast(groups[1..], i - 1);
      assert groups[..i + 1][1..] == groups[1..][..i] && groups[..i][1..] == groups[1..][..i - 1];
    }
  }
}
