// The auction's shared store and the two-level locking protocol around it. Every
// section that runs under the store's lock is one step; the item lock is held from
// before the first such section of a call until after the last.
module Auction {
  import opened Options
  import opened Sequences

  datatype Status = Active | Ended

  datatype Bid = Bid(user: int, item: int, amount: real, retracted: bool)

  datatype Item = Item(seller: int, startPrice: real, start: int, end: int, status: Status,
                       current: Option<int>, history: seq<int>)

  datatype User = User(balance: real, active: seq<int>)

  // heaps: the bids in each item's heap; stacks: each user's bids on each item.
  datatype Store = Store(users: map<int, User>, items: map<int, Item>, bids: map<int, Bid>,
                         heaps: map<int, set<int>>, stacks: map<(int, int), seq<int>>)

  datatype Error =
    | UserNotFound | ItemNotFound | InvalidBidAmount | AuctionNotActive | SellerCannotBid | InsufficientBalance
    | NoBidToRetract | BidNotFound | OwnershipMismatch | ItemMismatch | AlreadyRetracted

  function HeapOf(s: Store, i: int): set<int> {
    if i in s.heaps then s.heaps[i] else {}
  }

  function StackOf(s: Store, u: int, i: int): seq<int> {
    if (u, i) in s.stacks then s.stacks[(u, i)] else []
  }

  // The price to beat.
  function Floor(s: Store, i: int): real
    requires i in s.items
  {
    var it := s.items[i];
    if it.current.Some? && it.current.value in s.bids then s.bids[it.current.value].amount else it.startPrice
  }

  // Placing ------------------------------------------------------------------------

  function CheckBid(s: Store, u: int, i: int, amount: real, now: int): Option<Error> {
    if u !in s.users then Some(UserNotFound)
    else if i !in s.items then Some(ItemNotFound)
    else if amount <= 0.0 then Some(InvalidBidAmount)
    else if !s.items[i].status.Active? then Some(AuctionNotActive)
    else if now < s.items[i].start || now > s.items[i].end then Some(AuctionNotActive)
    else if s.items[i].seller == u then Some(SellerCannotBid)
    else if s.users[u].balance < amount then Some(InsufficientBalance)
    else if amount <= Floor(s, i) then Some(InvalidBidAmount)
    else None
  }

  // Who may bid what and when.
  predicate MayBid(s: Store, u: int, i: int, amount: real, now: int) {
    && u in s.users && i in s.items && s.items[i].status == Active
    && s.items[i].start <= now <= s.items[i].end && s.items[i].seller != u
    && 0.0 < amount <= s.users[u].balance
    && match s.items[i].current
       case None => s.items[i].startPrice < amount
       case Some(c) => (if c in s.bids then s.bids[c].amount else s.items[i].startPrice) < amount
  }

  // What a refusal says.
  predicate Refuses(e: Error, s: Store, u: int, i: int, amount: real, now: int) {
    match e
    case UserNotFound => u !in s.users
    case ItemNotFound => i !in s.items
    case AuctionNotActive =>
      i in s.items && (s.items[i].status == Ended || now < s.items[i].start || s.items[i].end < now)
    case SellerCannotBid => i in s.items && s.items[i].seller == u
    case InsufficientBalance => u in s.users && s.users[u].balance < amount
    case InvalidBidAmount =>
      || amount <= 0.0
      || (i in s.items && match s.items[i].current
                          case None => amount <= s.items[i].startPrice
                          case Some(c) => amount <= if c in s.bids then s.bids[c].amount else s.items[i].startPrice)
    case _ => false
  }

  // The checks let through exactly those bids, and refuse the others for a reason.
  lemma ChecksExact(s: Store, u: int, i: int, amount: real, now: int)
    ensures CheckBid(s, u, i, amount, now).None? <==> MayBid(s, u, i, amount, now)
    ensures CheckBid(s, u, i, amount, now).Some? ==> Refuses(CheckBid(s, u, i, amount, now).value, s, u, i, amount, now)
  {
  }

  function CommitBid(s: Store, u: int, i: int, amount: real, id: int): Store
    requires u in s.users && i in s.items
  {
    var it, user := s.items[i], s.users[u];
    Store(s.users[u := user.(active := user.active + [id])],
          s.items[i := it.(current := Some(id), history := it.history + [id])],
          s.bids[id := Bid(u, i, amount, false)],
          s.heaps[i := HeapOf(s, i) + {id}],
          s.stacks[(u, i) := StackOf(s, u, i) + [id]])
  }

  // Retracting -----------------------------------------------------------------------

  function CheckRetract(s: Store, u: int, i: int): Option<Error> {
    if u !in s.users then Some(UserNotFound)
    else if i !in s.items then Some(ItemNotFound)
    else if !s.items[i].status.Active? then Some(AuctionNotActive)
    else None
  }

  // What the section that changes the store makes of the top of the user's stack.
  function CheckTop(s: Store, u: int, i: int): Option<Error> {
    var st := StackOf(s, u, i);
    if st == [] then Some(NoBidToRetract)
    else
      var b := st[|st| - 1];
      if b !in s.bids then Some(BidNotFound)
      else if s.bids[b].user != u then Some(OwnershipMismatch)
      else if s.bids[b].item != i then Some(ItemMismatch)
      else if s.bids[b].retracted then Some(AlreadyRetracted)
      else None
  }

  // The top of the user's stack is popped before the bid on it is looked at.
  function Unstacked(s: Store, u: int, i: int): Store
    requires StackOf(s, u, i) != []
  {
    var st := StackOf(s, u, i);
    s.(stacks := s.stacks[(u, i) := st[..|st| - 1]])
  }

  // Popping retracted bids off the heap until an unretracted one is on top.
  ghost predicate Cleaned(bids: map<int, Bid>, heap: set<int>, rest: set<int>, top: Option<int>)
    requires heap <= bids.Keys
  {
    && rest <= heap
    && (forall b :: b in heap - rest ==> bids[b].retracted)
    && match top
       case None => rest == {}
       case Some(c) => c in rest && !bids[c].retracted && forall b :: b in rest ==> bids[b].amount <= bids[c].amount
  }

  function MarkRetracted(bids: map<int, Bid>, b: int): map<int, Bid>
    requires b in bids
  {
    bids[b := bids[b].(retracted := true)]
  }

  function Retracted(s: Store, u: int, i: int, b: int, rest: set<int>, top: Option<int>): Store
    requires u in s.users && i in s.items && b in s.bids && StackOf(s, u, i) != []
  {
    var st, user := StackOf(s, u, i), s.users[u];
    Store(s.users[u := user.(active := RemoveLast(user.active, b))],
          s.items[i := s.items[i].(current := top)],
          MarkRetracted(s.bids, b),
          s.heaps[i := rest],
          s.stacks[(u, i) := st[..|st| - 1]])
  }

  function EndedStore(s: Store, i: int, rest: set<int>, top: Option<int>): Store
    requires i in s.items
  {
    s.(items := s.items[i := s.items[i].(current := top, status := Ended)], heaps := s.heaps[i := rest])
  }

  // From s to t, u's last bid b on item i is taken back.
  ghost predicate TakesBack(s: Store, u: int, i: int, b: int, t: Store) {
    && u in s.users && i in s.items && CheckTop(s, u, i).None? && b == StackOf(s, u, i)[|StackOf(s, u, i)| - 1]
    && HeapOf(s, i) <= s.bids.Keys
    && exists rest, top ::
         && Cleaned(MarkRetracted(s.bids, b), HeapOf(s, i), rest, top)
         && t == Retracted(s, u, i, b, rest, top)
  }

  // From s to t, item i's auction ends with the given winner.
  ghost predicate Closes(s: Store, i: int, winner: Option<int>, t: Store) {
    && i in s.items && HeapOf(s, i) <= s.bids.Keys
    && exists rest ::
         && Cleaned(s.bids, HeapOf(s, i), rest, winner)
         && t == EndedStore(s, i, rest, winner)
  }

  // What the store keeps ---------------------------------------------------------------

  predicate Live(bids: map<int, Bid>, b: int) {
    b in bids && !bids[b].retracted
  }

  // The user's unretracted bids, oldest first.
  function Mine(h: seq<int>, bids: map<int, Bid>, u: int): seq<int> {
    if h == [] then []
    else
      var b := h[|h| - 1];
      Mine(h[..|h| - 1], bids, u) + if Live(bids, b) && bids[b].user == u then [b] else []
  }

  ghost predicate Distinct(ids: seq<int>) {
    forall j, k :: 0 <= j < k < |ids| ==> ids[j] != ids[k]
  }

  // The unretracted bids grow along the history.
  ghost predicate Rising(h: seq<int>, bids: map<int, Bid>) {
    forall j, k :: 0 <= j < k < |h| && Live(bids, h[j]) && Live(bids, h[k]) ==> bids[h[j]].amount < bids[h[k]].amount
  }

  // The current bid is the largest unretracted one; there is none iff none is left.
  ghost predicate Leads(h: seq<int>, bids: map<int, Bid>, current: Option<int>) {
    match current
    case None => forall b :: b in h ==> !Live(bids, b)
    case Some(c) => c in h && Live(bids, c) && forall b :: b in h && Live(bids, b) ==> bids[b].amount <= bids[c].amount
  }

  ghost predicate HeapSound(h: seq<int>, bids: map<int, Bid>, heap: set<int>) {
    && (forall b :: b in heap ==> b in h)
    && (forall b :: b in h && Live(bids, b) ==> b in heap)
  }

  ghost predicate HistorySound(s: Store, i: int, h: seq<int>)
    requires i in s.items
  {
    && Distinct(h) && Rising(h, s.bids)
    && (forall b :: b in h ==> b in s.bids && s.bids[b].item == i && s.bids[b].amount > s.items[i].startPrice)
  }

  ghost predicate ItemSound(s: Store, i: int)
    requires i in s.items
  {
    var it := s.items[i];
    && HistorySound(s, i, it.history)
    && Leads(it.history, s.bids, it.current)
    && HeapSound(it.history, s.bids, HeapOf(s, i))
    && (forall u :: StackOf(s, u, i) == Mine(it.history, s.bids, u))
  }

  ghost predicate UserSound(s: Store, u: int)
    requires u in s.users
  {
    && Distinct(s.users[u].active)
    && (forall b :: b in s.users[u].active <==> Live(s.bids, b) && s.bids[b].user == u)
  }

  ghost predicate BidSound(s: Store, b: int)
    requires b in s.bids
  {
    && s.bids[b].user in s.users && s.bids[b].item in s.items
    && b in s.items[s.bids[b].item].history
  }

  ghost predicate Sound(s: Store) {
    && (forall i :: i in s.items ==> ItemSound(s, i))
    && (forall u :: u in s.users ==> UserSound(s, u))
    && (forall b :: b in s.bids ==> BidSound(s, b))
  }

  // Lemmas on one history ---------------------------------------------------------------

  lemma {:induction false} MineSame(h: seq<int>, bids: map<int, Bid>, other: map<int, Bid>, u: int)
    requires forall b :: b in h ==> b in bids && b in other && bids[b] == other[b]
    ensures Mine(h, bids, u) == Mine(h, other, u)
  {
    if h != [] {
      assert h[|h| - 1] in h;
      MineSame(h[..|h| - 1], bids, other, u);
    }
  }

  lemma MineAppended(h: seq<int>, bids: map<int, Bid>, bid: Bid, id: int, u: int)
    requires (forall b :: b in h ==> b in bids) && id !in h && !bid.retracted
    ensures Mine(h + [id], bids[id := bid], u) == Mine(h, bids, u) + if bid.user == u then [id] else []
  {
    assert (h + [id])[..|h|] == h;
    MineSame(h, bids, bids[id := bid], u);
  }

  lemma {:induction false} MineMember(h: seq<int>, bids: map<int, Bid>, u: int, b: int)
    ensures b in Mine(h, bids, u) <==> b in h && Live(bids, b) && bids[b].user == u
  {
    if h != [] {
      assert h == h[..|h| - 1] + [h[|h| - 1]];
      MineMember(h[..|h| - 1], bids, u, b);
    }
  }

  // Retracting the user's last bid takes it off the end of the user's bids and leaves
  // everybody else's alone.
  lemma {:induction false} MineRetracted(h: seq<int>, bids: map<int, Bid>, b: int, u: int)
    requires Distinct(h) && b in bids && (forall x :: x in h ==> x in bids)
    requires bids[b].user == u ==> Mine(h, bids, u) != [] && Mine(h, bids, u)[|Mine(h, bids, u)| - 1] == b
    ensures bids[b].user == u ==> Mine(h, MarkRetracted(bids, b), u) == Mine(h, bids, u)[..|Mine(h, bids, u)| - 1]
    ensures bids[b].user != u ==> Mine(h, MarkRetracted(bids, b), u) == Mine(h, bids, u)
  {
    if h != [] {
      var init, x := h[..|h| - 1], h[|h| - 1];
      assert x in h;
      if x == b {
        assert b !in init;
        MineSame(init, bids, MarkRetracted(bids, b), u);
        if bids[b].user == u {
          assert b in Mine(h, bids, u);
          MineMember(h, bids, u, b);
          assert Mine(h, bids, u) == Mine(init, bids, u) + [b];
        }
      } else {
        MineRetracted(init, bids, b, u);
      }
    }
  }

  // The bid on top of a cleaned heap leads the history.
  lemma CleanedLeads(h: seq<int>, bids: map<int, Bid>, heap: set<int>, rest: set<int>, top: Option<int>)
    requires heap <= bids.Keys && HeapSound(h, bids, heap) && Cleaned(bids, heap, rest, top)
    ensures Leads(h, bids, top) && HeapSound(h, bids, rest)
  {
  }

  // The leader is the last unretracted bid of the history.
  lemma LeaderIsLast(h: seq<int>, bids: map<int, Bid>, current: Option<int>, k: nat)
    requires Leads(h, bids, current) && Rising(h, bids) && k < |h| && Live(bids, h[k])
    requires forall j :: k < j < |h| ==> !Live(bids, h[j])
    ensures current == Some(h[k])
  {
    assert h[k] in h;
    var c := current.value;
    var j :| 0 <= j < |h| && h[j] == c;
  }

  // One change of the store ---------------------------------------------------------------

  // Nothing of other items changes, and no user's balance.
  ghost predicate Elsewhere(s: Store, t: Store, i: int) {
    && s.items.Keys <= t.items.Keys && s.users.Keys <= t.users.Keys && s.bids.Keys <= t.bids.Keys
    && (forall j :: j in s.items && j != i ==> t.items[j] == s.items[j])
    && (forall j :: j != i ==> HeapOf(t, j) == HeapOf(s, j))
    && (forall u, j :: j != i ==> StackOf(t, u, j) == StackOf(s, u, j))
    && (forall u :: u in s.users ==> t.users[u].balance == s.users[u].balance)
    && (forall b :: b in s.bids && s.bids[b].item != i ==> t.bids[b] == s.bids[b])
  }

  lemma ItemElsewhere(s: Store, t: Store, i: int, j: int)
    requires Elsewhere(s, t, i) && j != i && j in s.items && ItemSound(s, j)
    ensures ItemSound(t, j)
  {
    var h := s.items[j].history;
    forall u ensures StackOf(t, u, j) == Mine(h, t.bids, u) {
      MineSame(h, s.bids, t.bids, u);
    }
  }

  lemma CheckElsewhere(s: Store, t: Store, i: int, j: int, u: int, amount: real, now: int)
    requires Sound(s) && Elsewhere(s, t, i) && j != i
    ensures CheckBid(s, u, j, amount, now).None? ==> CheckBid(t, u, j, amount, now).None?
    ensures CheckRetract(s, u, j).None? ==> CheckRetract(t, u, j).None?
  {
    if j in s.items {
      assert ItemSound(s, j);
    }
  }

  lemma CommitStacks(s: Store, u: int, i: int, amount: real, id: int, x: int)
    requires u in s.users && i in s.items && ItemSound(s, i) && id !in s.bids
    ensures var t := CommitBid(s, u, i, amount, id); StackOf(t, x, i) == Mine(t.items[i].history, t.bids, x)
  {
    var h := s.items[i].history;
    assert StackOf(s, x, i) == Mine(h, s.bids, x);
    MineAppended(h, s.bids, Bid(u, i, amount, false), id, x);
  }

  lemma CommitItem(s: Store, u: int, i: int, amount: real, id: int)
    requires u in s.users && i in s.items && ItemSound(s, i) && id !in s.bids && amount > Floor(s, i)
    ensures ItemSound(CommitBid(s, u, i, amount, id), i)
  {
    var t := CommitBid(s, u, i, amount, id);
    CommitHistory(s, i, amount, id, t);
    forall x {
      CommitStacks(s, u, i, amount, id, x);
    }
  }

  lemma CommitUser(s: Store, u: int, i: int, amount: real, id: int, x: int)
    requires u in s.users && i in s.items && x in s.users && UserSound(s, x) && id !in s.bids
    ensures UserSound(CommitBid(s, u, i, amount, id), x)
  {
    assert id !in s.users[x].active;
  }

  lemma CommitHistory(s: Store, i: int, amount: real, id: int, t: Store)
    requires i in s.items && i in t.items && t.items[i].startPrice == s.items[i].startPrice
    requires ItemSound(s, i) && id !in s.bids && amount > Floor(s, i)
    requires exists u :: t.bids == s.bids[id := Bid(u, i, amount, false)]
    ensures var h := s.items[i].history + [id];
      HistorySound(t, i, h) && Leads(h, t.bids, Some(id)) && HeapSound(h, t.bids, HeapOf(s, i) + {id})
  {
    var h := s.items[i].history;
    assert id !in h;
    forall b | b in h && Live(s.bids, b) ensures s.bids[b].amount < amount {}
  }

  lemma CommitElsewhere(s: Store, u: int, i: int, amount: real, id: int)
    requires u in s.users && i in s.items && id !in s.bids
    ensures Elsewhere(s, CommitBid(s, u, i, amount, id), i)
  {
  }

  lemma CommitKeeps(s: Store, u: int, i: int, amount: real, id: int, now: int)
    requires Sound(s) && CheckBid(s, u, i, amount, now).None? && id !in s.bids
    ensures Sound(CommitBid(s, u, i, amount, id)) && Elsewhere(s, CommitBid(s, u, i, amount, id), i)
  {
    var t := CommitBid(s, u, i, amount, id);
    CommitElsewhere(s, u, i, amount, id);
    forall j | j in t.items ensures ItemSound(t, j) {
      if j != i {
        ItemElsewhere(s, t, i, j);
      } else {
        CommitItem(s, u, i, amount, id);
      }
    }
    forall x | x in t.users ensures UserSound(t, x) {
      CommitUser(s, u, i, amount, id, x);
    }
    forall b | b in t.bids ensures BidSound(t, b) {
      assert b != id ==> BidSound(s, b);
    }
  }

  // Every unretracted bid so far is smaller than the one committed.
  lemma CommitBeatsAll(s: Store, u: int, i: int, amount: real, now: int)
    requires Sound(s) && CheckBid(s, u, i, amount, now).None?
    ensures amount > s.items[i].startPrice
    ensures forall b :: b in s.bids && s.bids[b].item == i && !s.bids[b].retracted ==> s.bids[b].amount < amount
  {
    assert ItemSound(s, i);
    forall b | b in s.bids && s.bids[b].item == i && !s.bids[b].retracted ensures s.bids[b].amount < amount {
      assert BidSound(s, b);
    }
  }

  // The stack's top is the user's own unretracted bid on this item, so the only way a
  // confirmed retraction fails is that there is no such bid.
  lemma TopIsOwn(s: Store, u: int, i: int)
    requires Sound(s) && u in s.users && i in s.items
    ensures CheckTop(s, u, i) == None || CheckTop(s, u, i) == Some(NoBidToRetract)
    ensures CheckTop(s, u, i).Some? <==>
      forall b :: b in s.bids && s.bids[b].user == u && s.bids[b].item == i ==> s.bids[b].retracted
  {
    var h, st := s.items[i].history, StackOf(s, u, i);
    assert ItemSound(s, i);
    if st != [] {
      MineMember(h, s.bids, u, st[|st| - 1]);
    } else {
      forall b | b in s.bids && s.bids[b].user == u && s.bids[b].item == i ensures s.bids[b].retracted {
        assert BidSound(s, b);
        MineMember(h, s.bids, u, b);
      }
    }
  }

  // Marking one bid and repairing the item around it.
  lemma RetractItem(s: Store, u: int, i: int, b: int, rest: set<int>, top: Option<int>)
    requires i in s.items && u in s.users && ItemSound(s, i) && HeapOf(s, i) <= s.bids.Keys
    requires var st := StackOf(s, u, i); st != [] && b == st[|st| - 1] && b in s.bids && s.bids[b].user == u
    requires Cleaned(MarkRetracted(s.bids, b), HeapOf(s, i), rest, top)
    ensures ItemSound(Retracted(s, u, i, b, rest, top), i)
  {
    var t := Retracted(s, u, i, b, rest, top);
    var h := s.items[i].history;
    CleanedLeads(h, t.bids, HeapOf(s, i), rest, top);
    forall x ensures StackOf(t, x, i) == Mine(h, t.bids, x) {
      MineRetracted(h, s.bids, b, x);
    }
  }

  lemma RetractUsers(s: Store, u: int, i: int, b: int, rest: set<int>, top: Option<int>, x: int)
    requires i in s.items && u in s.users && b in s.bids && StackOf(s, u, i) != []
    requires x in s.users && UserSound(s, x) && s.bids[b].user == u
    ensures UserSound(Retracted(s, u, i, b, rest, top), x)
  {
    RemoveLastMembers(s.users[x].active, b);
  }

  lemma RetractElsewhere(s: Store, u: int, i: int, b: int, rest: set<int>, top: Option<int>)
    requires u in s.users && i in s.items && b in s.bids && s.bids[b].item == i && StackOf(s, u, i) != []
    ensures Elsewhere(s, Retracted(s, u, i, b, rest, top), i)
  {
  }

  lemma RetractKeeps(s: Store, u: int, i: int, rest: set<int>, top: Option<int>)
    requires Sound(s) && CheckRetract(s, u, i).None? && CheckTop(s, u, i).None?
    requires HeapOf(s, i) <= s.bids.Keys
    requires var st := StackOf(s, u, i); Cleaned(MarkRetracted(s.bids, st[|st| - 1]), HeapOf(s, i), rest, top)
    ensures var st := StackOf(s, u, i);
      var t := Retracted(s, u, i, st[|st| - 1], rest, top);
      Sound(t) && Elsewhere(s, t, i)
  {
    var st := StackOf(s, u, i);
    var b := st[|st| - 1];
    var t := Retracted(s, u, i, b, rest, top);
    RetractElsewhere(s, u, i, b, rest, top);
    forall j | j in t.items ensures ItemSound(t, j) {
      if j != i {
        ItemElsewhere(s, t, i, j);
      } else {
        RetractItem(s, u, i, b, rest, top);
      }
    }
    forall x | x in t.users ensures UserSound(t, x) {
      RetractUsers(s, u, i, b, rest, top, x);
    }
    forall x | x in t.bids ensures BidSound(t, x) {
      assert BidSound(s, x);
    }
  }

  lemma EndKeeps(s: Store, i: int, rest: set<int>, top: Option<int>)
    requires Sound(s) && i in s.items && HeapOf(s, i) <= s.bids.Keys && Cleaned(s.bids, HeapOf(s, i), rest, top)
    ensures var t := EndedStore(s, i, rest, top); Sound(t) && Elsewhere(s, t, i)
    ensures top == s.items[i].current
  {
    var t := EndedStore(s, i, rest, top);
    assert ItemSound(s, i);
    CleanedLeads(s.items[i].history, s.bids, HeapOf(s, i), rest, top);
    forall j | j in t.items ensures ItemSound(t, j) {
      if j != i {
        ItemElsewhere(s, t, i, j);
      }
    }
    forall x | x in t.users ensures UserSound(t, x) {
      assert UserSound(s, x);
    }
    forall x | x in t.bids ensures BidSound(t, x) {
      assert BidSound(s, x);
    }
  }
}
