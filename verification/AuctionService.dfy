// The auction service's methods over the store's maps and heaps.
module AuctionService {
  import opened Options
  import opened Sequences
  import opened Auction
  import Heap

  // A heap entry: a bid by its ID and its amount, which never changes.
  datatype Offer = Offer(id: int, amount: real)

  // The heap keeps the largest amount on top.
  predicate Above(a: Offer, b: Offer) {
    b.amount < a.amount
  }

  // The heap's entries are the given bids at their prices, each once.
  ghost predicate Holds(q: multiset<Offer>, ids: set<int>, prices: map<int, real>) {
    ids <= prices.Keys && forall o :: q[o] == if o.id in ids && prices[o.id] == o.amount then 1 else 0
  }

  lemma HoldsAdd(q: multiset<Offer>, ids: set<int>, prices: map<int, real>, o: Offer)
    requires Holds(q, ids, prices) && o.id !in prices
    ensures Holds(q + multiset{o}, ids + {o.id}, prices[o.id := o.amount])
  {
  }

  lemma HoldsMore(q: multiset<Offer>, ids: set<int>, prices: map<int, real>, o: Offer)
    requires Holds(q, ids, prices) && o.id !in prices
    ensures Holds(q, ids, prices[o.id := o.amount])
  {
  }

  lemma HoldsRemove(q: multiset<Offer>, ids: set<int>, prices: map<int, real>, o: Offer)
    requires Holds(q + multiset{o}, ids, prices)
    ensures o.id in ids && prices[o.id] == o.amount && Holds(q, ids - {o.id}, prices)
  {
    assert (q + multiset{o})[o] == q[o] + 1;
    forall p ensures q[p] == if p.id in ids - {o.id} && prices[p.id] == p.amount then 1 else 0 {
      assert (q + multiset{o})[p] == q[p] + if p == o then 1 else 0;
    }
  }

  lemma HoldsKey(q: multiset<Offer>, ids: set<int>, prices: map<int, real>, b: int)
    requires Holds(q, ids, prices) && b in ids
    ensures Offer(b, prices[b]) in q
  {
    assert q[Offer(b, prices[b])] == 1;
  }

  function Prices(bids: map<int, Bid>): map<int, real> {
    map b | b in bids :: bids[b].amount
  }

  datatype Result = Ok(bid: int) | Err(error: Error)

  datatype Ending = Winner(bid: Option<int>) | NotEnded(error: Error)

  // The heap is in order and holds these bids.
  ghost predicate HasBids(h: Heap.MinHeap<Offer>, ids: set<int>, prices: map<int, real>)
    reads h
  {
    h.Valid() && h.less == Above && Holds(multiset(h.items), ids, prices)
  }

  // One heap for each item that has been bid on.
  class HeapBook {
    var heaps: map<int, Heap.MinHeap<Offer>>
    ghost var ids: map<int, set<int>>
    ghost var prices: map<int, real>

    ghost predicate Valid()
      reads this, heaps.Values
    {
      && heaps.Keys == ids.Keys
      && (forall i, j :: i in heaps && j in heaps && heaps[i] == heaps[j] ==> i == j)
      && (forall i :: i in heaps ==> HasBids(heaps[i], ids[i], prices))
    }

    ghost function Ids(i: int): set<int>
      reads this
    {
      if i in ids then ids[i] else {}
    }

    constructor ()
      ensures Valid() && ids == map[] && prices == map[] && heaps == map[]
    {
      heaps, ids, prices := map[], map[], map[];
    }

    method GetOrCreate(i: int) returns (h: Heap.MinHeap<Offer>)
      requires Valid()
      modifies this
      ensures Valid() && i in heaps && heaps[i] == h && (h in old(heaps.Values) || fresh(h))
      ensures heaps == old(heaps)[i := h] && prices == old(prices)
      ensures ids == old(ids)[i := old(Ids(i))]
    {
      if i in heaps {
        h := heaps[i];
        return;
      }
      h := new Heap.MinHeap(Above);
      heaps, ids := heaps[i := h], ids[i := {}];
    }

    method Push(i: int, o: Offer)
      requires Valid() && o.id !in prices
      modifies this, heaps.Values
      ensures Valid() && fresh(heaps.Values - old(heaps.Values))
      ensures ids == old(ids)[i := old(Ids(i)) + {o.id}] && prices == old(prices)[o.id := o.amount]
    {
      var h := GetOrCreate(i);
      PushTo(i, h, o);
    }

    method PushTo(i: int, h: Heap.MinHeap<Offer>, o: Offer)
      requires Valid() && i in heaps && heaps[i] == h && o.id !in prices
      modifies this`ids, this`prices, h
      ensures Valid() && ids == old(ids)[i := old(ids)[i] + {o.id}] && prices == old(prices)[o.id := o.amount]
    {
      ghost var prices' := prices[o.id := o.amount];
      forall j | j in heaps && j != i ensures HasBids(heaps[j], ids[j], prices') {
        HoldsMore(multiset(heaps[j].items), ids[j], prices, o);
      }
      HoldsAdd(multiset(h.items), ids[i], prices, o);
      h.Push(o);
      ids, prices := ids[i := ids[i] + {o.id}], prices';
    }

    method Clean(i: int, bids: map<int, Bid>) returns (top: Option<int>)
      requires Valid() && prices == Prices(bids)
      modifies this, heaps.Values
      ensures Valid() && fresh(heaps.Values - old(heaps.Values))
      ensures i in ids && ids == old(ids)[i := ids[i]] && prices == old(prices)
      ensures old(Ids(i)) <= bids.Keys && Cleaned(bids, old(Ids(i)), ids[i], top)
    {
      var h := GetOrCreate(i);
      ghost var was := ids;
      top := CleanIn(i, h, bids);
      assert was[i := ids[i]] == old(ids)[i := ids[i]];
    }

    method CleanIn(i: int, h: Heap.MinHeap<Offer>, bids: map<int, Bid>) returns (top: Option<int>)
      requires Valid() && i in heaps && heaps[i] == h && prices == Prices(bids)
      modifies this`ids, h
      ensures Valid() && i in ids && ids == old(ids)[i := ids[i]]
      ensures old(ids)[i] <= bids.Keys && Cleaned(bids, old(ids)[i], ids[i], top)
    {
      ghost var rest;
      top, rest := PopRetracted(h, bids, ids[i]);
      ids := ids[i := rest];
    }
  }

  // Pops retracted bids until the top stands.
  method PopRetracted(h: Heap.MinHeap<Offer>, bids: map<int, Bid>, ghost ids: set<int>)
    returns (top: Option<int>, ghost rest: set<int>)
    requires h.Valid() && h.less == Above && Holds(multiset(h.items), ids, Prices(bids))
    modifies h
    ensures h.Valid() && Holds(multiset(h.items), rest, Prices(bids))
    ensures ids <= bids.Keys && Cleaned(bids, ids, rest, top)
  {
    rest := ids;
    while true
      invariant h.Valid() && rest <= ids && Holds(multiset(h.items), rest, Prices(bids))
      invariant forall b :: b in ids - rest ==> bids[b].retracted
      decreases |h.items|
    {
      var peek := h.Peek();
      if peek.None? {
        forall b | b in rest ensures false {
          HoldsKey(multiset(h.items), rest, Prices(bids), b);
        }
        return None, rest;
      }
      var o := peek.value;
      assert o in multiset(h.items);
      if !bids[o.id].retracted {
        forall b | b in rest ensures bids[b].amount <= o.amount {
          HoldsKey(multiset(h.items), rest, Prices(bids), b);
          assert !Above(Offer(b, bids[b].amount), o);
        }
        return Some(o.id), rest;
      }
      var popped := h.Pop();
      HoldsRemove(multiset(h.items), rest, Prices(bids), o);
      rest := rest - {o.id};
    }
  }

  // The new bid stands, is the item's current one and comes last with its user, its item
  // and its stack; all else is as before.
  ghost predicate Entered(s: Store, u: int, i: int, amount: real, b: int, t: Store) {
    && u in s.users && i in s.items && t.bids == s.bids[b := Bid(u, i, amount, false)]
    && t.items.Keys == s.items.Keys && t.users.Keys == s.users.Keys
    && t.items[i] == s.items[i].(current := Some(b), history := s.items[i].history + [b])
    && t.users[u] == s.users[u].(active := s.users[u].active + [b])
    && (forall j :: j in s.items && j != i ==> t.items[j] == s.items[j])
    && (forall x :: x in s.users && x != u ==> t.users[x] == s.users[x])
    && (forall x, j :: StackOf(t, x, j) == StackOf(s, x, j) + if (x, j) == (u, i) then [b] else [])
    && (forall j :: HeapOf(t, j) == HeapOf(s, j) + if j == i then {b} else {})
  }

  // A bid is entered exactly if it may be made, and refused for a reason.
  ghost predicate Answers(r: Result, s: Store, u: int, i: int, amount: real, now: int, t: Store) {
    && (r.Ok? <==> MayBid(s, u, i, amount, now))
    && match r
       case Ok(b) => Entered(s, u, i, amount, b, t)
       case Err(e) => Refuses(e, s, u, i, amount, now) && t == s
  }

  lemma CommitAnswers(s: Store, u: int, i: int, amount: real, now: int, b: int)
    ensures match CheckBid(s, u, i, amount, now)
            case None => Answers(Ok(b), s, u, i, amount, now, CommitBid(s, u, i, amount, b))
            case Some(e) => Answers(Err(e), s, u, i, amount, now, s)
  {
    ChecksExact(s, u, i, amount, now);
  }

  // The user's last bid on an active item is the user's own and stands.
  ghost predicate MayRetract(s: Store, u: int, i: int) {
    && u in s.users && i in s.items && s.items[i].status == Active && StackOf(s, u, i) != []
    && var b := StackOf(s, u, i)[|StackOf(s, u, i)| - 1];
       b in s.bids && s.bids[b].user == u && s.bids[b].item == i && !s.bids[b].retracted
  }

  class AuctionStore {
    var users: map<int, User>
    var items: map<int, Item>
    var bids: map<int, Bid>
    var stacks: map<(int, int), seq<int>>
    const book: HeapBook
    var lastBid: int

    ghost predicate Valid()
      reads this, book, book.heaps.Values
    {
      && book.Valid() && book.prices == Prices(bids)
      && forall b :: b in bids ==> b <= lastBid
    }

    ghost function View(): Store
      reads this, book
    {
      Store(users, items, bids, book.ids, stacks)
    }

    function UserStack(u: int, i: int): (st: seq<int>)
      reads this, book
      ensures st == StackOf(View(), u, i)
    {
      if (u, i) in stacks then stacks[(u, i)] else []
    }

    constructor ()
      ensures Valid() && View() == Store(map[], map[], map[], map[], map[])
      ensures fresh(book) && book.heaps == map[]
    {
      users, items, bids, stacks, lastBid := map[], map[], map[], map[], 0;
      book := new HeapBook();
    }

    // The section that stores a checked bid.
    method Commit(u: int, i: int, amount: real, id: int)
      requires Valid() && u in users && i in items && id !in bids && id <= lastBid
      modifies this, book, book.heaps.Values
      ensures Valid() && View() == CommitBid(old(View()), u, i, amount, id) && lastBid == old(lastBid)
      ensures fresh(book.heaps.Values - old(book.heaps.Values))
    {
      assert Prices(bids[id := Bid(u, i, amount, false)]) == Prices(bids)[id := amount];
      bids := bids[id := Bid(u, i, amount, false)];
      book.Push(i, Offer(id, amount));
      Enlist(u, i, id);
    }

    // Enters the bid's ID with its user, its item and the user's stack.
    method Enlist(u: int, i: int, id: int)
      requires u in users && i in items
      modifies this`users, this`items, this`stacks
      ensures users == old(users)[u := old(users)[u].(active := old(users)[u].active + [id])]
      ensures items == old(items)[i := old(items)[i].(current := Some(id), history := old(items)[i].history + [id])]
      ensures stacks == old(stacks)[(u, i) := StackOf(old(View()), u, i) + [id]]
    {
      users, items, stacks := users[u := users[u].(active := users[u].active + [id])],
        items[i := items[i].(current := Some(id), history := items[i].history + [id])],
        stacks[(u, i) := UserStack(u, i) + [id]];
    }

    method PlaceBid(u: int, i: int, amount: real, now: int) returns (r: Result)
      requires Valid()
      modifies this, book, book.heaps.Values
      ensures Valid() && fresh(book.heaps.Values - old(book.heaps.Values))
      ensures match CheckBid(old(View()), u, i, amount, now)
              case Some(e) => r == Err(e) && View() == old(View()) && lastBid == old(lastBid)
              case None => r == Ok(lastBid) && lastBid == old(lastBid) + 1
                             && View() == CommitBid(old(View()), u, i, amount, lastBid)
      ensures Answers(r, old(View()), u, i, amount, now, View())
    {
      CommitAnswers(View(), u, i, amount, now, lastBid + 1);
      var error := Check(u, i, amount, now);
      if error.Some? {
        return Err(error.value);
      }
      Accept(u, i, amount);
      return Ok(lastBid);
    }

    // A checked bid gets its number and is stored.
    method Accept(u: int, i: int, amount: real)
      requires Valid() && u in users && i in items
      modifies this, book, book.heaps.Values
      ensures Valid() && fresh(book.heaps.Values - old(book.heaps.Values))
      ensures lastBid == old(lastBid) + 1 && View() == CommitBid(old(View()), u, i, amount, lastBid)
    {
      lastBid := lastBid + 1;
      Commit(u, i, amount, lastBid);
    }

    // The checks before a bid, under the read lock.
    method Check(u: int, i: int, amount: real, now: int) returns (error: Option<Error>)
      ensures error == CheckBid(View(), u, i, amount, now)
    {
      if u !in users {
        return Some(UserNotFound);
      }
      if i !in items {
        return Some(ItemNotFound);
      }
      if amount <= 0.0 {
        return Some(InvalidBidAmount);
      }
      var item := items[i];
      if item.status != Active || now < item.start || now > item.end {
        return Some(AuctionNotActive);
      }
      if item.seller == u {
        return Some(SellerCannotBid);
      }
      if users[u].balance < amount {
        return Some(InsufficientBalance);
      }
      var current := item.startPrice;
      if item.current.Some? && item.current.value in bids {
        current := bids[item.current.value].amount;
      }
      if amount <= current {
        return Some(InvalidBidAmount);
      }
      return None;
    }

    method RetractLastBid(u: int, i: int) returns (r: Result)
      requires Valid()
      modifies this, book, book.heaps.Values
      ensures Valid() && fresh(book.heaps.Values - old(book.heaps.Values))
      ensures var s := old(View());
        var error := if CheckRetract(s, u, i).Some? then CheckRetract(s, u, i) else CheckTop(s, u, i);
        match error
        case Some(e) =>
          r == Err(e) && View() == if CheckRetract(s, u, i).Some? || e == NoBidToRetract then s else Unstacked(s, u, i)
        case None => r.Ok? && TakesBack(s, u, i, r.bid, View())
      ensures r.Ok? <==> MayRetract(old(View()), u, i)
      ensures r.Ok? ==> r.bid == StackOf(old(View()), u, i)[|StackOf(old(View()), u, i)| - 1]
      ensures r.Ok? ==> bids == old(bids)[r.bid := old(bids)[r.bid].(retracted := true)]
    {
      if u !in users {
        return Err(UserNotFound);
      }
      if i !in items {
        return Err(ItemNotFound);
      }
      if items[i].status != Active {
        return Err(AuctionNotActive);
      }
      r := RetractTop(u, i);
    }

    // The section that changes the store.
    method RetractTop(u: int, i: int) returns (r: Result)
      requires Valid() && u in users && i in items
      modifies this, book, book.heaps.Values
      ensures Valid() && fresh(book.heaps.Values - old(book.heaps.Values))
      ensures var s := old(View());
        match CheckTop(s, u, i)
        case Some(e) => r == Err(e) && View() == if e == NoBidToRetract then s else Unstacked(s, u, i)
        case None => r.Ok? && TakesBack(s, u, i, r.bid, View())
    {
      var st := UserStack(u, i);
      if st == [] {
        return Err(NoBidToRetract);
      }
      var b := st[|st| - 1];
      stacks := stacks[(u, i) := st[..|st| - 1]];
      if b !in bids {
        return Err(BidNotFound);
      }
      if bids[b].user != u {
        return Err(OwnershipMismatch);
      }
      if bids[b].item != i {
        return Err(ItemMismatch);
      }
      if bids[b].retracted {
        return Err(AlreadyRetracted);
      }
      var top := TakeBack(u, i, b);
      ghost var s := old(View());
      assert Cleaned(MarkRetracted(s.bids, b), HeapOf(s, i), book.ids[i], top);
      assert View() == Retracted(s, u, i, b, book.ids[i], top);
      return Ok(b);
    }

    // The rest of a retraction, the bid being off its stack.
    method TakeBack(u: int, i: int, b: int) returns (top: Option<int>)
      requires Valid() && u in users && i in items && b in bids
      modifies this, book, book.heaps.Values
      ensures Valid() && fresh(book.heaps.Values - old(book.heaps.Values))
      ensures stacks == old(stacks) && bids == MarkRetracted(old(bids), b)
      ensures HeapOf(old(View()), i) <= old(bids).Keys && i in book.ids && book.ids == old(book.ids)[i := book.ids[i]]
      ensures Cleaned(bids, HeapOf(old(View()), i), book.ids[i], top)
      ensures users == old(users)[u := old(users)[u].(active := RemoveLast(old(users)[u].active, b))]
      ensures items == old(items)[i := old(items)[i].(current := top)]
    {
      Mark(u, b);
      top := book.Clean(i, bids);
      SetCurrent(i, top);
    }

    // Marks the bid retracted and takes it off the user's active bids.
    method Mark(u: int, b: int)
      requires u in users && b in bids
      modifies this`bids, this`users
      ensures bids == MarkRetracted(old(bids), b) && bids.Keys == old(bids).Keys && Prices(bids) == Prices(old(bids))
      ensures users == old(users)[u := old(users)[u].(active := RemoveLast(old(users)[u].active, b))]
    {
      ghost var was := bids;
      bids := MarkRetracted(bids, b);
      assert Prices(bids) == Prices(was);
      var active := WithoutLast(users[u].active, b);
      users := users[u := users[u].(active := active)];
    }

    method SetCurrent(i: int, top: Option<int>)
      requires i in items
      modifies this`items
      ensures items == old(items)[i := old(items)[i].(current := top)]
    {
      items := items[i := items[i].(current := top)];
    }

    method EndAuction(i: int) returns (r: Ending)
      requires Valid()
      modifies this, book, book.heaps.Values
      ensures Valid() && fresh(book.heaps.Values - old(book.heaps.Values))
      ensures var s := old(View());
        if i !in s.items then r == NotEnded(ItemNotFound) && View() == s
        else if s.items[i].status != Active then r == NotEnded(AuctionNotActive) && View() == s
        else r.Winner? && Closes(s, i, r.bid, View())
    {
      if i !in items {
        return NotEnded(ItemNotFound);
      }
      if items[i].status != Active {
        return NotEnded(AuctionNotActive);
      }
      var top := book.Clean(i, bids);
      items := items[i := items[i].(current := top, status := Ended)];
      return Winner(top);
    }
  }
}
