// All interleavings of the auction's calls, one locked section at a time.
module AuctionRuns {
  import opened Options
  import opened Auction

  // Where a caller stands. Between Idle and Idle it holds the lock of its item.
  datatype Pc =
    | Idle
    | Bidding(u: int, item: int, amount: real)
    | Checked(u: int, item: int, amount: real, now: int)
    | Numbered(u: int, item: int, amount: real, now: int, id: int)
    | Retracting(u: int, item: int)
    | Confirmed(u: int, item: int)
    | Ending(item: int)
    | Leaving(item: int, outcome: Outcome)

  datatype Outcome = Failed(error: Error) | Done(bid: Option<int>)

  datatype World = World(store: Store, callers: map<int, Pc>, lastBid: int)

  datatype Action =
    | CreateUser(id: int, balance: real)
    | CreateItem(id: int, item: Item)
    | Call(caller: int, pc: Pc)
    | Section(caller: int, now: int)

  function PcOf(w: World, c: int): Pc {
    if c in w.callers then w.callers[c] else Idle
  }

  function LockOf(pc: Pc): Option<int> {
    if pc.Idle? then None else Some(pc.item)
  }

  function Goes(w: World, c: int, pc: Pc): World {
    w.(callers := w.callers[c := pc])
  }

  ghost predicate Begins(w: World, c: int, pc: Pc) {
    && PcOf(w, c).Idle? && (pc.Bidding? || pc.Retracting? || pc.Ending?)
    && forall d :: d in w.callers ==> LockOf(w.callers[d]) != LockOf(pc)
  }

  // The section in which a retraction changes the store.
  ghost predicate Retracts(w: World, c: int, u: int, i: int, v: World) {
    var s := w.store;
    var error := CheckTop(s, u, i);
    if error.Some? then
      // A bid popped before one of the later checks fails stays popped.
      var t := if StackOf(s, u, i) == [] then s else Unstacked(s, u, i);
      v == Goes(w.(store := t), c, Leaving(i, Failed(error.value)))
    else
      var b := StackOf(s, u, i)[|StackOf(s, u, i)| - 1];
      TakesBack(s, u, i, b, v.store) && v == Goes(w.(store := v.store), c, Leaving(i, Done(Some(b))))
  }

  ghost predicate Ends(w: World, c: int, i: int, v: World) {
    var s := w.store;
    if i !in s.items then v == Goes(w, c, Leaving(i, Failed(ItemNotFound)))
    else if !s.items[i].status.Active? then v == Goes(w, c, Leaving(i, Failed(AuctionNotActive)))
    else exists top ::
      Closes(s, i, top, v.store) && v == Goes(w.(store := v.store), c, Leaving(i, Done(top)))
  }

  // The next section of a caller's call.
  ghost predicate Proceeds(w: World, c: int, now: int, v: World) {
    var s := w.store;
    match PcOf(w, c)
    case Idle => false
    case Bidding(u, i, amount) =>
      var error := CheckBid(s, u, i, amount, now);
      v == Goes(w, c, if error.Some? then Leaving(i, Failed(error.value)) else Checked(u, i, amount, now))
    case Checked(u, i, amount, at) =>
      v == Goes(w.(lastBid := w.lastBid + 1), c, Numbered(u, i, amount, at, w.lastBid + 1))
    case Numbered(u, i, amount, _, id) =>
      && u in s.users && i in s.items
      && v == Goes(w.(store := CommitBid(s, u, i, amount, id)), c, Leaving(i, Done(Some(id))))
    case Retracting(u, i) =>
      var error := CheckRetract(s, u, i);
      v == Goes(w, c, if error.Some? then Leaving(i, Failed(error.value)) else Confirmed(u, i))
    case Confirmed(u, i) => Retracts(w, c, u, i, v)
    case Ending(i) => Ends(w, c, i, v)
    case Leaving(_, _) => v == Goes(w, c, Idle)
  }

  ghost predicate Next(w: World, a: Action, v: World) {
    var s := w.store;
    match a
    case CreateUser(id, balance) =>
      id !in s.users && balance >= 0.0 && v == w.(store := s.(users := s.users[id := User(balance, [])]))
    case CreateItem(id, item) =>
      && id !in s.items && item.startPrice > 0.0 && item.start < item.end && item.seller in s.users
      && item.status == Active && item.current == None && item.history == []
      && v == w.(store := s.(items := s.items[id := item]))
    case Call(c, pc) => Begins(w, c, pc) && v == Goes(w, c, pc)
    case Section(c, now) => Proceeds(w, c, now, v)
  }

  // What every reachable world keeps ------------------------------------------------------

  // A caller past its checks could pass them again now.
  ghost predicate StillValid(s: Store, pc: Pc) {
    match pc
    case Checked(u, i, amount, now) => CheckBid(s, u, i, amount, now).None?
    case Numbered(u, i, amount, now, _) => CheckBid(s, u, i, amount, now).None?
    case Confirmed(u, i) => CheckRetract(s, u, i).None?
    case _ => true
  }

  ghost predicate Exclusive(w: World) {
    forall c, d :: c in w.callers && d in w.callers && c != d && !w.callers[c].Idle?
      ==> LockOf(w.callers[c]) != LockOf(w.callers[d])
  }

  ghost predicate FreshIds(w: World) {
    && (forall b :: b in w.store.bids ==> b <= w.lastBid)
    && (forall c :: c in w.callers && w.callers[c].Numbered? ==>
          w.callers[c].id <= w.lastBid && w.callers[c].id !in w.store.bids)
    && (forall c, d :: c in w.callers && d in w.callers && c != d && w.callers[c].Numbered? && w.callers[d].Numbered?
          ==> w.callers[c].id != w.callers[d].id)
  }

  // Nothing is stored for items that do not exist yet.
  ghost predicate NoGhosts(s: Store) {
    && (forall i :: i !in s.items ==> HeapOf(s, i) == {})
    && (forall i, u :: i !in s.items ==> StackOf(s, u, i) == [])
  }

  ghost predicate Inv(w: World) {
    && Sound(w.store) && NoGhosts(w.store) && Exclusive(w) && FreshIds(w)
    && (forall c :: c in w.callers ==> StillValid(w.store, w.callers[c]))
  }

  // A caller works on the store under the lock of its item: everybody else's checks hold.
  lemma OthersStayValid(w: World, c: int, t: Store, i: int)
    requires Inv(w) && c in w.callers && LockOf(w.callers[c]) == Some(i) && Elsewhere(w.store, t, i)
    ensures forall d :: d in w.callers && d != c ==> StillValid(t, w.callers[d])
  {
    forall d | d in w.callers && d != c ensures StillValid(t, w.callers[d]) {
      var s := w.store;
      match w.callers[d] {
        case Checked(u, j, amount, now) => CheckElsewhere(s, t, i, j, u, amount, now);
        case Numbered(u, j, amount, now, _) => CheckElsewhere(s, t, i, j, u, amount, now);
        case Confirmed(u, j) => CheckElsewhere(s, t, i, j, u, 0.0, 0);
        case _ =>
      }
    }
  }

  // The store after a section of caller c on item i.
  ghost predicate StoreStep(w: World, i: int, v: World) {
    && Sound(v.store) && NoGhosts(v.store) && Elsewhere(w.store, v.store, i)
    && v.lastBid == w.lastBid
  }

  lemma SectionKeeps(w: World, c: int, v: World, i: int)
    requires Inv(w) && c in w.callers && LockOf(w.callers[c]) == Some(i) && StoreStep(w, i, v)
    requires c in v.callers && v.callers == w.callers[c := v.callers[c]]
    requires v.callers[c].Leaving? && v.callers[c].item == i
    requires forall b :: b in v.store.bids && b !in w.store.bids ==> w.callers[c].Numbered? && w.callers[c].id == b
    ensures Inv(v)
  {
    OthersStayValid(w, c, v.store, i);
  }

  lemma CommitInv(w: World, c: int, v: World, now: int)
    requires Inv(w) && PcOf(w, c).Numbered? && Proceeds(w, c, now, v)
    ensures Inv(v)
  {
    var s := w.store;
    var pc := w.callers[c];
    CommitKeeps(s, pc.u, pc.item, pc.amount, pc.id, pc.now);
    SectionKeeps(w, c, v, pc.item);
  }

  lemma RetractInv(w: World, c: int, v: World, now: int)
    requires Inv(w) && PcOf(w, c).Confirmed? && Proceeds(w, c, now, v)
    ensures Inv(v)
  {
    var s := w.store;
    var Confirmed(u, i) := w.callers[c];
    TopIsOwn(s, u, i);
    if StackOf(s, u, i) != [] {
      RetractDone(w, c, v, now);
    } else {
      SectionKeeps(w, c, v, i);
    }
  }

  lemma RetractDone(w: World, c: int, v: World, now: int)
    requires Inv(w) && PcOf(w, c).Confirmed? && Proceeds(w, c, now, v)
    requires CheckTop(w.store, w.callers[c].u, w.callers[c].item).None?
    ensures Inv(v)
  {
    var Confirmed(u, i) := w.callers[c];
    var st := StackOf(w.store, u, i);
    RetractStep(w.store, u, i, st[|st| - 1], v.store);
    SectionKeeps(w, c, v, i);
  }

  lemma RetractStep(s: Store, u: int, i: int, b: int, t: Store)
    requires Sound(s) && NoGhosts(s) && CheckRetract(s, u, i).None? && TakesBack(s, u, i, b, t)
    ensures Sound(t) && NoGhosts(t) && Elsewhere(s, t, i) && t.bids.Keys == s.bids.Keys
  {
    var rest, top :|
      Cleaned(MarkRetracted(s.bids, b), HeapOf(s, i), rest, top) && t == Retracted(s, u, i, b, rest, top);
    RetractKeeps(s, u, i, rest, top);
  }

  lemma EndInv(w: World, c: int, v: World, now: int)
    requires Inv(w) && PcOf(w, c).Ending? && Proceeds(w, c, now, v)
    ensures Inv(v)
  {
    var s := w.store;
    var i := w.callers[c].item;
    if i in s.items && s.items[i].status.Active? {
      var top :| Closes(s, i, top, v.store) && v == Goes(w.(store := v.store), c, Leaving(i, Done(top)));
      var rest :| Cleaned(s.bids, HeapOf(s, i), rest, top) && v.store == EndedStore(s, i, rest, top);
      EndKeeps(s, i, rest, top);
      SectionKeeps(w, c, v, i);
    } else {
      SectionKeeps(w, c, v, i);
    }
  }

  lemma CreateUserInv(w: World, v: World, id: int, balance: real)
    requires Inv(w) && Next(w, CreateUser(id, balance), v)
    ensures Inv(v)
  {
    var s, t := w.store, v.store;
    assert forall i, u :: StackOf(t, u, i) == StackOf(s, u, i);
    forall i | i in t.items ensures ItemSound(t, i) {
      assert ItemSound(s, i);
    }
    forall u | u in t.users ensures UserSound(t, u) {
      assert u in s.users ==> UserSound(s, u);
      forall b | Live(s.bids, b) && s.bids[b].user == u ensures u in s.users {
        assert BidSound(s, b);
      }
    }
    forall b | b in t.bids ensures BidSound(t, b) {
      assert BidSound(s, b);
    }
    forall c | c in w.callers ensures StillValid(t, w.callers[c]) {
      assert StillValid(s, w.callers[c]);
    }
  }

  lemma CreateItemInv(w: World, v: World, id: int, item: Item)
    requires Inv(w) && Next(w, CreateItem(id, item), v)
    ensures Inv(v)
  {
    var s, t := w.store, v.store;
    assert forall i, u :: StackOf(t, u, i) == StackOf(s, u, i);
    forall i | i in t.items ensures ItemSound(t, i) {
      if i != id {
        assert ItemSound(s, i);
      }
    }
    forall u | u in t.users ensures UserSound(t, u) {
      assert UserSound(s, u);
    }
    forall b | b in t.bids ensures BidSound(t, b) {
      assert BidSound(s, b);
    }
    forall c | c in w.callers ensures StillValid(t, w.callers[c]) {
      assert StillValid(s, w.callers[c]);
    }
  }

  // A section that only moves its caller on.
  lemma QuietInv(w: World, c: int, v: World, now: int)
    requires Inv(w) && Proceeds(w, c, now, v)
    requires PcOf(w, c).Bidding? || PcOf(w, c).Checked? || PcOf(w, c).Retracting? || PcOf(w, c).Leaving?
    ensures Inv(v)
  {
    var pc := v.callers[c];
    assert v.store == w.store && v.callers == w.callers[c := pc] && StillValid(v.store, pc);
    assert pc.Idle? || LockOf(pc) == LockOf(w.callers[c]);
    assert pc.Numbered? ==> v.lastBid == w.lastBid + 1 == pc.id;
    MovesOn(w, c, v);
  }

  lemma MovesOn(w: World, c: int, v: World)
    requires Inv(w) && c in w.callers && c in v.callers
    requires v.store == w.store && v.callers == w.callers[c := v.callers[c]]
    requires StillValid(v.store, v.callers[c]) && w.lastBid <= v.lastBid
    requires v.callers[c].Idle? || LockOf(v.callers[c]) == LockOf(w.callers[c])
    requires v.callers[c].Numbered? ==> v.callers[c].id == v.lastBid > w.lastBid
    ensures Inv(v)
  {
    assert Sound(v.store) && NoGhosts(v.store);
  }

  // Every step of every caller keeps the invariant.
  lemma NextKeeps(w: World, a: Action, v: World)
    requires Inv(w) && Next(w, a, v)
    ensures Inv(v)
  {
    match a {
      case CreateUser(id, balance) => CreateUserInv(w, v, id, balance);
      case CreateItem(id, item) => CreateItemInv(w, v, id, item);
      case Call(c, pc) => CallInv(w, v, c, pc);
      case Section(c, now) =>
        match PcOf(w, c) {
          case Numbered(_, _, _, _, _) => CommitInv(w, c, v, now);
          case Confirmed(_, _) => RetractInv(w, c, v, now);
          case Ending(_) => EndInv(w, c, v, now);
          case Idle =>
          case _ => QuietInv(w, c, v, now);
        }
    }
  }

  lemma CallInv(w: World, v: World, c: int, pc: Pc)
    requires Inv(w) && Next(w, Call(c, pc), v)
    ensures Inv(v)
  {
  }

  // Whole runs ----------------------------------------------------------------------------

  ghost predicate Initial(w: World) {
    w.store == Store(map[], map[], map[], map[], map[]) && w.callers == map[] && w.lastBid == 0
  }

  ghost predicate IsRun(ws: seq<World>, acts: seq<Action>) {
    |ws| == |acts| + 1 && forall k :: 0 <= k < |acts| ==> Next(ws[k], acts[k], ws[k + 1])
  }

  lemma {:induction false} RunKeeps(ws: seq<World>, acts: seq<Action>, k: nat)
    requires IsRun(ws, acts) && Initial(ws[0]) && k < |ws|
    ensures Inv(ws[k])
  {
    if k > 0 {
      RunKeeps(ws, acts, k - 1);
      NextKeeps(ws[k - 1], acts[k - 1], ws[k]);
    }
  }

  // An unretracted bid on item i.
  predicate Standing(s: Store, i: int, b: int) {
    Live(s.bids, b) && s.bids[b].item == i
  }

  // In every reachable state: no current bid iff no bid stands; otherwise the current
  // bid stands, is larger than every other that does, and comes last in the history.
  lemma CurrentBidExact(ws: seq<World>, acts: seq<Action>, k: nat, i: int)
    requires IsRun(ws, acts) && Initial(ws[0]) && k < |ws| && i in ws[k].store.items
    ensures var s := ws[k].store;
      s.items[i].current.None? <==> forall b :: !Standing(s, i, b)
    ensures var s := ws[k].store;
      s.items[i].current.Some? ==>
        var c := s.items[i].current.value;
        Standing(s, i, c) && forall b :: Standing(s, i, b) && b != c ==> s.bids[b].amount < s.bids[c].amount
    ensures var s := ws[k].store;
      var h := s.items[i].history;
      forall n :: 0 <= n < |h| && Standing(s, i, h[n]) && (forall m :: n < m < |h| ==> !Standing(s, i, h[m]))
        ==> s.items[i].current == Some(h[n])
  {
    RunKeeps(ws, acts, k);
    CurrentOf(ws[k].store, i);
  }

  lemma CurrentOf(s: Store, i: int)
    requires Sound(s) && i in s.items
    ensures s.items[i].current.None? <==> forall b :: !Standing(s, i, b)
    ensures s.items[i].current.Some? ==>
      var c := s.items[i].current.value;
      Standing(s, i, c) && forall b :: Standing(s, i, b) && b != c ==> s.bids[b].amount < s.bids[c].amount
    ensures var h := s.items[i].history;
      forall n :: 0 <= n < |h| && Standing(s, i, h[n]) && (forall m :: n < m < |h| ==> !Standing(s, i, h[m]))
        ==> s.items[i].current == Some(h[n])
  {
    assert ItemSound(s, i);
    var it := s.items[i];
    var h := it.history;
    forall b | Standing(s, i, b) ensures b in h {
      assert BidSound(s, b);
    }
    forall b | b in h && Live(s.bids, b) ensures Standing(s, i, b) {}
    if it.current.Some? {
      var c := it.current.value;
      forall b | Standing(s, i, b) && b != c ensures s.bids[b].amount < s.bids[c].amount {
        var j :| 0 <= j < |h| && h[j] == b;
        var k :| 0 <= k < |h| && h[k] == c;
      }
    }
    forall n | 0 <= n < |h| && Standing(s, i, h[n]) && (forall m :: n < m < |h| ==> !Standing(s, i, h[m]))
      ensures it.current == Some(h[n])
    {
      forall m | n < m < |h| ensures !Live(s.bids, h[m]) {
        assert h[m] in h;
      }
      LeaderIsLast(h, s.bids, it.current, n);
    }
  }

  // Who may bid, in terms of the standing bids.
  ghost predicate Welcome(s: Store, u: int, i: int, amount: real, now: int) {
    && u in s.users && i in s.items && s.items[i].status == Active
    && s.items[i].start <= now <= s.items[i].end && s.items[i].seller != u
    && 0.0 < amount <= s.users[u].balance && s.items[i].startPrice < amount
    && forall b :: Standing(s, i, b) ==> s.bids[b].amount < amount
  }

  lemma ChecksWelcome(s: Store, u: int, i: int, amount: real, now: int)
    requires Sound(s)
    ensures CheckBid(s, u, i, amount, now).None? <==> Welcome(s, u, i, amount, now)
  {
    ChecksExact(s, u, i, amount, now);
    if i in s.items {
      CurrentOf(s, i);
      assert ItemSound(s, i);
    }
  }

  // After its checks a bid is on its way if and only if it is welcome at that moment, and
  // otherwise refused for a reason.
  lemma BidAcceptedIff(ws: seq<World>, acts: seq<Action>, k: nat, c: int)
    requires IsRun(ws, acts) && Initial(ws[0]) && k + 1 < |ws|
    requires PcOf(ws[k], c).Bidding? && acts[k].Section? && acts[k].caller == c
    ensures var s, pc, now, next := ws[k].store, PcOf(ws[k], c), acts[k].now, PcOf(ws[k + 1], c);
      && ws[k + 1].store == s
      && (next == Checked(pc.u, pc.item, pc.amount, now) <==> Welcome(s, pc.u, pc.item, pc.amount, now))
      && (!Welcome(s, pc.u, pc.item, pc.amount, now) ==>
            next.Leaving? && next.outcome.Failed? && Refuses(next.outcome.error, s, pc.u, pc.item, pc.amount, now))
  {
    RunKeeps(ws, acts, k);
    var s, pc := ws[k].store, PcOf(ws[k], c);
    assert Next(ws[k], acts[k], ws[k + 1]);
    ChecksWelcome(s, pc.u, pc.item, pc.amount, acts[k].now);
    ChecksExact(s, pc.u, pc.item, pc.amount, acts[k].now);
  }

  // At the moment a bid is committed it is still welcome as of the time it was checked,
  // so it beats every standing bid, though the store was unlocked in between.
  lemma CommitWins(ws: seq<World>, acts: seq<Action>, k: nat, c: int)
    requires IsRun(ws, acts) && Initial(ws[0]) && k < |ws| && (PcOf(ws[k], c).Checked? || PcOf(ws[k], c).Numbered?)
    ensures var s, pc := ws[k].store, PcOf(ws[k], c);
      Welcome(s, pc.u, pc.item, pc.amount, pc.now) && (pc.Numbered? ==> pc.id !in s.bids)
  {
    RunKeeps(ws, acts, k);
    var pc := ws[k].callers[c];
    assert StillValid(ws[k].store, pc);
    ChecksWelcome(ws[k].store, pc.u, pc.item, pc.amount, pc.now);
  }

  // A bid of a registered user who does not sell the item, for an amount the user has.
  ghost predicate FairBid(s: Store, b: Bid) {
    && b.user in s.users && b.item in s.items && b.user != s.items[b.item].seller
    && s.items[b.item].startPrice < b.amount && 0.0 < b.amount <= s.users[b.user].balance
  }

  // Balances, sellers and prices stay; bids change by retraction only, and a new one is the
  // committed one.
  ghost predicate Grows(s: Store, t: Store) {
    && (forall u :: u in s.users ==> u in t.users && t.users[u].balance == s.users[u].balance)
    && (forall i :: i in s.items ==>
          i in t.items && t.items[i].seller == s.items[i].seller && t.items[i].startPrice == s.items[i].startPrice)
    && forall b :: b in t.bids && b in s.bids ==> t.bids[b].(retracted := s.bids[b].retracted) == s.bids[b]
  }

  lemma RetractGrows(w: World, c: int, now: int, v: World)
    requires Inv(w) && PcOf(w, c).Confirmed? && Proceeds(w, c, now, v)
    ensures Grows(w.store, v.store) && v.store.bids.Keys == w.store.bids.Keys
  {
    var s := w.store;
    var Confirmed(u, i) := w.callers[c];
    if CheckTop(s, u, i).None? {
      var b := StackOf(s, u, i)[|StackOf(s, u, i)| - 1];
      var rest, top :|
        Cleaned(MarkRetracted(s.bids, b), HeapOf(s, i), rest, top) && v.store == Retracted(s, u, i, b, rest, top);
    }
  }

  lemma EndGrows(w: World, c: int, now: int, v: World)
    requires PcOf(w, c).Ending? && Proceeds(w, c, now, v)
    ensures Grows(w.store, v.store) && v.store.bids == w.store.bids
  {
    var s, i := w.store, w.callers[c].item;
    if i in s.items && s.items[i].status.Active? {
      var top :| Closes(s, i, top, v.store) && v == Goes(w.(store := v.store), c, Leaving(i, Done(top)));
    }
  }

  lemma CommitGrows(w: World, c: int, now: int, v: World)
    requires Inv(w) && PcOf(w, c).Numbered? && Proceeds(w, c, now, v)
    ensures Grows(w.store, v.store)
    ensures var pc := PcOf(w, c); v.store.bids == w.store.bids[pc.id := Bid(pc.u, pc.item, pc.amount, false)]
  {
    assert w.callers[c].id !in w.store.bids;
  }

  lemma NextGrows(w: World, a: Action, v: World)
    requires Inv(w) && Next(w, a, v)
    ensures Grows(w.store, v.store)
    ensures forall b :: b in v.store.bids && b !in w.store.bids ==>
      a.Section? && PcOf(w, a.caller).Numbered? && b == PcOf(w, a.caller).id
      && v.store.bids[b] == Bid(PcOf(w, a.caller).u, PcOf(w, a.caller).item, PcOf(w, a.caller).amount, false)
  {
    if a.Section? {
      match PcOf(w, a.caller) {
        case Numbered(_, _, _, _, _) => CommitGrows(w, a.caller, a.now, v);
        case Confirmed(_, _) => RetractGrows(w, a.caller, a.now, v);
        case Ending(_) => EndGrows(w, a.caller, a.now, v);
        case _ =>
      }
    }
  }

  // In every reachable state every bid is fair, those that were retracted too.
  lemma {:induction false} BidsFair(ws: seq<World>, acts: seq<Action>, k: nat, b: int)
    requires IsRun(ws, acts) && Initial(ws[0]) && k < |ws| && b in ws[k].store.bids
    ensures FairBid(ws[k].store, ws[k].store.bids[b])
  {
    if k > 0 {
      var w, a, v := ws[k - 1], acts[k - 1], ws[k];
      RunKeeps(ws, acts, k - 1);
      assert Next(w, a, v);
      NextGrows(w, a, v);
      if b in w.store.bids {
        BidsFair(ws, acts, k - 1, b);
      } else {
        CommitWins(ws, acts, k - 1, a.caller);
      }
    }
  }

  // A confirmed retraction takes back the caller's largest standing bid on the item, or
  // finds that there is none; the store's other four errors never come up.
  lemma RetractionExact(ws: seq<World>, acts: seq<Action>, k: nat, c: int)
    requires IsRun(ws, acts) && Initial(ws[0]) && k + 1 < |ws|
    requires PcOf(ws[k], c).Confirmed? && acts[k].Section? && acts[k].caller == c
    ensures var s, t, u, i := ws[k].store, ws[k + 1].store, PcOf(ws[k], c).u, PcOf(ws[k], c).item;
      match PcOf(ws[k + 1], c)
      case Leaving(_, Failed(e)) =>
        e == NoBidToRetract && t == s && forall b :: Standing(s, i, b) ==> s.bids[b].user != u
      case Leaving(_, Done(Some(b))) =>
        && Standing(s, i, b) && s.bids[b].user == u && t.bids == MarkRetracted(s.bids, b)
        && forall a :: Standing(s, i, a) && s.bids[a].user == u ==> s.bids[a].amount <= s.bids[b].amount
      case _ => false
  {
    RunKeeps(ws, acts, k);
    var s := ws[k].store;
    var Confirmed(u, i) := ws[k].callers[c];
    assert StillValid(s, ws[k].callers[c]) && Next(ws[k], acts[k], ws[k + 1]);
    TopIsOwn(s, u, i);
    var st := StackOf(s, u, i);
    if st != [] {
      assert ItemSound(s, i);
      forall a | Standing(s, i, a) && s.bids[a].user == u
        ensures s.bids[a].amount <= s.bids[st[|st| - 1]].amount
      {
        assert BidSound(s, a);
        MineLast(s.items[i].history, s.bids, u, a);
      }
    }
  }

  // A user's last unretracted bid in a rising history is the user's largest.
  lemma {:induction false} MineLast(h: seq<int>, bids: map<int, Bid>, u: int, a: int)
    requires Rising(h, bids) && a in h && Live(bids, a) && bids[a].user == u
    ensures var m := Mine(h, bids, u);
      m != [] && m[|m| - 1] in bids && bids[a].amount <= bids[m[|m| - 1]].amount
  {
    var init, x := h[..|h| - 1], h[|h| - 1];
    assert h == init + [x];
    if Live(bids, x) && bids[x].user == u {
      var j :| 0 <= j < |h| && h[j] == a;
    } else {
      MineLast(init, bids, u, a);
    }
  }

  // A retraction is confirmed exactly for a registered user and an active item.
  lemma RetractionConfirmedIff(ws: seq<World>, acts: seq<Action>, k: nat, c: int)
    requires IsRun(ws, acts) && k + 1 < |ws|
    requires PcOf(ws[k], c).Retracting? && acts[k].Section? && acts[k].caller == c
    ensures var s, pc := ws[k].store, PcOf(ws[k], c);
      && ws[k + 1].store == s
      && (PcOf(ws[k + 1], c) == Confirmed(pc.u, pc.item) <==>
            pc.u in s.users && pc.item in s.items && s.items[pc.item].status == Active)
  {
    assert Next(ws[k], acts[k], ws[k + 1]);
  }

  // Nothing about an item changes once its auction has ended.
  ghost predicate SameItem(s: Store, t: Store, i: int) {
    && i in s.items && i in t.items && t.items[i] == s.items[i]
    && forall b :: b in s.bids && s.bids[b].item == i ==> b in t.bids && t.bids[b] == s.bids[b]
  }

  lemma RetractSpares(w: World, c: int, now: int, v: World, i: int)
    requires Inv(w) && PcOf(w, c).Confirmed? && Proceeds(w, c, now, v)
    requires i in w.store.items && w.store.items[i].status.Ended?
    ensures SameItem(w.store, v.store, i)
  {
    assert StillValid(w.store, w.callers[c]);
    TopIsOwn(w.store, w.callers[c].u, w.callers[c].item);
  }

  lemma EndedStays(w: World, a: Action, v: World, i: int)
    requires Inv(w) && Next(w, a, v) && i in w.store.items && w.store.items[i].status.Ended?
    ensures SameItem(w.store, v.store, i)
  {
    if a.Section? {
      if PcOf(w, a.caller).Confirmed? {
        RetractSpares(w, a.caller, a.now, v, i);
      } else {
        assert StillValid(w.store, w.callers[a.caller]);
      }
    }
  }

  // So the winner stays the winner, whatever is called afterwards.
  lemma {:induction false} WinnerStays(ws: seq<World>, acts: seq<Action>, k: nat, n: nat, i: int)
    requires IsRun(ws, acts) && Initial(ws[0]) && k <= n < |ws|
    requires i in ws[k].store.items && ws[k].store.items[i].status.Ended?
    ensures SameItem(ws[k].store, ws[n].store, i)
  {
    if k < n {
      WinnerStays(ws, acts, k, n - 1, i);
      RunKeeps(ws, acts, n - 1);
      EndedStays(ws[n - 1], acts[n - 1], ws[n], i);
    }
  }

  // Ending an auction reports the current bid as the winner.
  lemma WinnerIsCurrent(ws: seq<World>, acts: seq<Action>, k: nat, c: int)
    requires IsRun(ws, acts) && Initial(ws[0]) && k + 1 < |ws|
    requires PcOf(ws[k], c).Ending? && acts[k].Section? && acts[k].caller == c
    ensures var s, t, i := ws[k].store, ws[k + 1].store, PcOf(ws[k], c).item;
      match PcOf(ws[k + 1], c)
      case Leaving(_, Done(winner)) =>
        && i in s.items && s.items[i].status.Active? && winner == s.items[i].current
        && t.items == s.items[i := s.items[i].(status := Ended)] && t.bids == s.bids
      case Leaving(_, Failed(_)) => t == s && (i !in s.items || s.items[i].status.Ended?)
      case _ => false
  {
    RunKeeps(ws, acts, k);
    var s := ws[k].store;
    var i := ws[k].callers[c].item;
    assert Next(ws[k], acts[k], ws[k + 1]);
    if i in s.items && s.items[i].status.Active? {
      var t := ws[k + 1].store;
      var top :| Closes(s, i, top, t) && ws[k + 1] == Goes(ws[k].(store := t), c, Leaving(i, Done(top)));
      var rest :| Cleaned(s.bids, HeapOf(s, i), rest, top) && t == EndedStore(s, i, rest, top);
      EndKeeps(s, i, rest, top);
    }
  }
}
