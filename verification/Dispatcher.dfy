// The dispatcher's methods over the driver store, the request heap and the two ride maps.
module Dispatcher {
  import opened Options
  import opened Drivers
  import opened Dispatch
  import DriverStore
  import Heap

  // An entry of the request queue.
  datatype Ticket = Ticket(id: int, request: Request)

  predicate Older(a: Ticket, b: Ticket) {
    a.request.time < b.request.time
  }

  // The heap's entries are the waiting requests, each once.
  ghost predicate Holds(q: multiset<Ticket>, waiting: map<int, Request>) {
    forall t :: q[t] == if t.id in waiting && waiting[t.id] == t.request then 1 else 0
  }

  lemma HoldsAdd(q: multiset<Ticket>, waiting: map<int, Request>, t: Ticket)
    requires Holds(q, waiting) && t.id !in waiting
    ensures Holds(q + multiset{t}, waiting[t.id := t.request])
  {
  }

  lemma HoldsRemove(q: multiset<Ticket>, waiting: map<int, Request>, t: Ticket)
    requires Holds(q + multiset{t}, waiting)
    ensures t.id in waiting && waiting[t.id] == t.request && Holds(q, waiting - {t.id})
  {
    assert (q + multiset{t})[t] == q[t] + 1;
    forall u ensures q[u] == if u.id in waiting - {t.id} && waiting[u.id] == u.request then 1 else 0 {
      assert (q + multiset{t})[u] == q[u] + if u == t then 1 else 0;
    }
  }

  // The top of the heap is a request no older than any other waiting one.
  lemma TopIsFront(s: seq<Ticket>, w: World)
    requires Holds(multiset(s), w.queue)
    requires forall t :: t in s ==> !Older(t, s[0])
    ensures s == [] ==> w.queue == map[]
    ensures s != [] ==> Front(w, s[0].id) && w.queue[s[0].id] == s[0].request
  {
    forall id | id in w.queue ensures Ticket(id, w.queue[id]) in s {
      assert multiset(s)[Ticket(id, w.queue[id])] == 1;
    }
    if s != [] {
      assert multiset(s)[s[0]] > 0;
      forall id | id in w.queue ensures w.queue[s[0].id].time <= w.queue[id].time {
        assert !Older(Ticket(id, w.queue[id]), s[0]);
      }
    }
  }

  datatype Answer =
    | Rides(ride: int)
    | NoRequest
    | RequestExpired
    | NoDriverAvailable
    | DriverWentOffline
    | RideInvalid
    | RideNotFound

  // What an answer to a call of ProcessNextRequest says about the worlds before and after.
  ghost predicate Told(c: Setup, a: Answer, w: World, now: int, v: World)
    requires c.cfg.cell > 0.0
  {
    match a
    case NoRequest => w.queue == map[] && v == w
    case RequestExpired => exists id :: Oldest(w, id) && !InTime(c, w, id, now) && Cancels(w, id, now, v)
    case NoDriverAvailable => v == w && exists id :: Oldest(w, id) && InTime(c, w, id, now) && NoneReaches(c, w, id)
    case Rides(n) =>
      && n == w.lastRide + 1 && n in v.active
      && exists id, d :: Oldest(w, id) && InTime(c, w, id, now) && ReachedFirst(c, w.fleet, w.queue[id].pickup, d)
           && Takes(w.fleet, d, v.fleet) && Books(c, w, id, d, now, v)
    case RideInvalid => exists id :: Oldest(w, id) && InTime(c, w, id, now) && Drops(c, w, id, v)
    case _ => false
  }

  // No waiting request is older.
  ghost predicate Oldest(w: World, id: int) {
    id in w.queue && forall o :: o in w.queue ==> w.queue[id].time <= w.queue[o].time
  }

  predicate InTime(c: Setup, w: World, id: int, now: int)
    requires id in w.queue
  {
    now - w.queue[id].time <= c.cfg.timeout
  }

  // The available driver is busy from now on.
  ghost predicate Takes(f: Fleet, d: int, g: Fleet) {
    d in f.byId && f.byId[d].status == Available && g.byId == f.byId[d := f.byId[d].(status := Busy)]
  }

  // What the fare parameters say about the request.
  function Price(c: Setup, r: Request): real {
    c.cfg.baseFare + c.cfg.farePerKm * c.distance(r.pickup, r.dropoff)
  }

  // The request leaves the queue and is an active ride of the driver.
  ghost predicate Books(c: Setup, w: World, id: int, d: int, now: int, v: World)
    requires id in w.queue
  {
    var r := w.queue[id];
    var n := w.lastRide + 1;
    && Price(c, r) >= 0.0
    && v.active == w.active[n := Ride(id, r.rider, Some(d), r.pickup, r.dropoff, Assigned, r.time, now, 0,
                                      Price(c, r), c.distance(r.pickup, r.dropoff))]
    && v.queue == w.queue - {id} && v.history == w.history && v.lost == w.lost && v.lastRide == n
  }

  // The request leaves the queue for a negative fare.
  ghost predicate Drops(c: Setup, w: World, id: int, v: World)
    requires id in w.queue
  {
    && Price(c, w.queue[id]) < 0.0
    && v.queue == w.queue - {id} && v.lost == w.lost + {id} && v.active == w.active && v.history == w.history
  }

  ghost predicate Cancels(w: World, id: int, now: int, v: World)
    requires id in w.queue
  {
    var r := w.queue[id];
    var n := w.lastRide + 1;
    var ride := Ride(id, r.rider, None, r.pickup, r.dropoff, Cancelled, r.time, 0, now, 0.0, 0.0);
    v == w.(queue := w.queue - {id}, lastRide := n, history := w.history[n := ride])
  }

  // The driver is available at the place and nobody else changed.
  ghost predicate Freed(f: Fleet, d: int, at: Location, g: Fleet) {
    && d in g.byId && g.byId[d].status == Available && g.byId[d].location == at && Only(f, g, d)
  }

  // The ride moved from the active rides to the history.
  predicate Ended(w: World, id: int, now: int, v: World)
    requires id in w.active
  {
    && v.active == w.active - {id} && v.queue == w.queue && v.lost == w.lost
    && v.history == w.history[id := w.active[id].(status := RideStatus.Completed, end := now)]
  }

  // The history takes the ride once it is completed.
  predicate Closes(r: Ride) {
    ValidRide(r.(status := RideStatus.Completed))
  }

  class Dispatcher {
    const store: DriverStore.MemoryStore
    const requests: Heap.MinHeap<Ticket>
    ghost var waiting: map<int, Request>
    var active: map<int, Ride>
    var history: map<int, Ride>
    var lastRequest: int
    var lastRide: int
    ghost var accepted: set<int>
    ghost var lost: set<int>

    ghost function Env(): Setup {
      Setup(store.cfg, store.distance)
    }

    // The world seen from outside, the dispatcher standing at pc.
    ghost function View(pc: Pc): World
      reads this, store
    {
      World(store.View(), waiting, active, history, pc, lastRequest, lastRide, accepted, lost)
    }

    ghost predicate Stored()
      reads this, store, requests
    {
      && store.Valid() && Usable(Env()) && requests.Valid() && requests.less == Older
      && Holds(multiset(requests.items), waiting)
    }

    ghost predicate Valid()
      reads this, store, requests
    {
      Stored() && Inv(Env(), View(Idle))
    }

    constructor (store: DriverStore.MemoryStore)
      requires store.Valid() && Usable(Setup(store.cfg, store.distance)) && store.View() == Fleet(map[], map[])
      ensures Valid() && Initial(View(Idle)) && this.store == store && fresh(requests)
    {
      this.store := store;
      requests := new Heap.MinHeap(Older);
      waiting, active, history, lastRequest, lastRide, accepted, lost := map[], map[], map[], 0, 0, {}, {};
      new;
      InitialInv(Env(), View(Idle));
    }

    method RequestRide(r: Request, now: int, knownRider: bool) returns (id: Option<int>)
      requires Valid()
      modifies this, requests
      ensures Valid() && Next(Env(), old(View(Idle)), Action.RequestRide(r, now, knownRider), View(Idle))
      ensures id.Some? <==> MayRequest(r, now, knownRider)
      ensures id.None? ==> View(Idle) == old(View(Idle))
      ensures id.Some? ==> id.value == lastRequest == old(lastRequest) + 1 && waiting == old(waiting)[id.value := r]
    {
      if !ValidRequest(r) || r.time > now || !knownRider {
        return None;
      }
      ghost var w := View(Idle);
      FreshRequest(w);
      PushRequest(Ticket(lastRequest + 1, r));
      lastRequest, accepted := lastRequest + 1, accepted + {lastRequest + 1};
      RequestKeeps(Env(), w, Action.RequestRide(r, now, knownRider), View(Idle));
      return Some(lastRequest);
    }

    lemma FreshRequest(w: World)
      requires RequestsSound(w)
      ensures w.lastRequest + 1 !in w.queue && w.lastRequest + 1 !in w.accepted
    {
      assert w.lastRequest + 1 in w.queue ==> Somewhere(w, w.lastRequest + 1);
    }

    method PushRequest(t: Ticket)
      requires requests.Valid() && Holds(multiset(requests.items), waiting) && t.id !in waiting
      modifies this`waiting, requests
      ensures requests.Valid() && Holds(multiset(requests.items), waiting)
      ensures waiting == old(waiting)[t.id := t.request]
    {
      HoldsAdd(multiset(requests.items), waiting, t);
      requests.Push(t);
      waiting := waiting[t.id := t.request];
    }

    // One undisturbed call is a run of the dispatcher's sections, from idle to idle.
    method ProcessNextRequest(now: int) returns (a: Answer, ghost ws: seq<World>, ghost acts: seq<Action>)
      requires Valid()
      modifies this, requests, store
      ensures Valid() && IsRun(Env(), ws, acts) && Told(Env(), a, old(View(Idle)), now, View(Idle))
      ensures ws[0] == old(View(Idle)) && ws[|ws| - 1] == View(Idle)
      ensures acts != [] && acts[0] == Process(now) && forall k :: 1 <= k < |acts| ==> acts[k] == Proceed
    {
      var pc;
      ws, acts := [View(Idle)], [Process(now)];
      a, pc := Handle(now);
      ws := ws + [View(pc)];
      if pc.Found? {
        a, ws, acts := Engage(pc.request, pc.driver, now, ws, acts);
      }
      RunKeepsInv(Env(), ws, acts, |acts|);
    }

    // The sections after a driver was found.
    method Engage(id: int, d: int, now: int, ghost before: seq<World>, ghost first: seq<Action>)
      returns (a: Answer, ghost ws: seq<World>, ghost acts: seq<Action>)
      requires Stored() && AtFront(id)
      requires IsRun(Env(), before, first) && before[|before| - 1] == View(Found(id, d, now))
      requires Ready(id, now) && ReachedFirst(Env(), store.View(), waiting[id].pickup, d)
      modifies this, requests, store
      ensures Stored() && IsRun(Env(), ws, acts) && ws[0] == before[0] && ws[|ws| - 1] == View(Idle)
      ensures first <= acts && forall k :: |first| <= k < |acts| ==> acts[k] == Proceed
      ensures Told(Env(), a, old(View(Idle)), now, View(Idle))
    {
      var pc := Seat(id, d, now);
      ws, acts := Extended(before, first, View(pc));
      if pc.Idle? {
        assert false;
        return DriverWentOffline, ws, acts;
      }
      a, ws, acts := Board(id, d, now, ws, acts);
    }

    // The sections after the driver was assigned.
    method Board(id: int, d: int, now: int, ghost before: seq<World>, ghost first: seq<Action>)
      returns (a: Answer, ghost ws: seq<World>, ghost acts: seq<Action>)
      requires Stored() && AtFront(id)
      requires IsRun(Env(), before, first) && before[|before| - 1] == View(Seated(id, d, now)) && id in waiting
      requires ValidRequest(waiting[id])
      modifies this, requests, store
      ensures Stored() && IsRun(Env(), ws, acts) && ws[0] == before[0] && ws[|ws| - 1] == View(Idle)
      ensures first <= acts && forall k :: |first| <= k < |acts| ==> acts[k] == Proceed
      ensures a == Rides(old(lastRide) + 1) || a == RideInvalid
      ensures a.Rides? ==> store.View() == old(store.View()) && Books(Env(), old(View(Idle)), id, d, now, View(Idle))
      ensures a.RideInvalid? ==> Drops(Env(), old(View(Idle)), id, View(Idle))
    {
      var pc := Depart(id, d, now);
      ws, acts := Extended(before, first, View(pc));
      if pc.Idle? {
        return Rides(lastRide), ws, acts;
      }
      Free(d);
      ws, acts := Extended(ws, acts, View(Idle));
      a := RideInvalid;
    }

    // The request may go on: none waiting is older and it has not run out.
    ghost predicate Ready(id: int, now: int)
      reads this, store
    {
      Oldest(View(Idle), id) && InTime(Env(), View(Idle), id, now) && ValidRequest(waiting[id])
    }

    ghost method Extended(ws: seq<World>, acts: seq<Action>, v: World) returns (ws': seq<World>, acts': seq<Action>)
      requires Usable(Env()) && IsRun(Env(), ws, acts) && Next(Env(), ws[|ws| - 1], Proceed, v)
      ensures IsRun(Env(), ws', acts') && ws' == ws + [v] && acts' == acts + [Proceed]
    {
      ws', acts' := ws + [v], acts + [Proceed];
    }

    // The request id is the one at the front of the queue.
    ghost predicate AtFront(id: int)
      reads this, requests
    {
      requests.items != [] && requests.items[0].id == id
    }

    // The section that looks at the front of the queue.
    method Handle(now: int) returns (a: Answer, pc: Pc)
      requires Stored()
      requires forall id :: id in waiting ==> ValidRequest(waiting[id])
      modifies this, requests
      ensures Stored() && Next(Env(), old(View(Idle)), Process(now), View(pc))
      ensures pc.Idle? ==> Told(Env(), a, old(View(Idle)), now, View(Idle))
      ensures !pc.Idle? ==> pc.Found? && pc.now == now && AtFront(pc.request) && View(Idle) == old(View(Idle))
      ensures pc.Found? ==>
        Ready(pc.request, now) && ReachedFirst(Env(), store.View(), waiting[pc.request].pickup, pc.driver)
    {
      ghost var w := View(Idle);
      var top := requests.Peek();
      TopIsFront(requests.items, w);
      if top.None? {
        return NoRequest, Idle;
      }
      var Ticket(id, r) := top.value;
      if Expired(store.cfg, r, now) {
        TakeFront();
        lastRide := lastRide + 1;
        history := history[lastRide := CancelledRide(id, r, now)];
        assert Handles(Env(), w, id, now, View(Idle));
        assert Oldest(w, id) && !InTime(Env(), w, id, now) && Cancels(w, id, now, View(Idle));
        return RequestExpired, Idle;
      }
      var found, _ := store.FindNearestAvailable(r.pickup, store.cfg.maxPickup);
      assert Finds(Env(), w, id, DriverStore.Who(found));
      pc := if found.None? then Idle else Found(id, found.value.0, now);
      assert Handles(Env(), w, id, now, View(pc));
      a := NoDriverAvailable;
      assert Oldest(w, id) && InTime(Env(), w, id, now);
      WhoReaches(Env(), w, id, DriverStore.Who(found));
    }

    method Seat(id: int, d: int, now: int) returns (pc: Pc)
      requires Stored()
      modifies store
      ensures Stored() && Next(Env(), old(View(Found(id, d, now))), Proceed, View(pc))
      ensures pc == Seated(id, d, now) || (pc.Idle? && View(pc) == old(View(pc)))
      ensures old(d in store.byId && store.byId[d].status == Available) ==>
        !pc.Idle? && Takes(old(store.View()), d, store.View())
    {
      var error := store.Assign(d);
      pc := if error.None? then Seated(id, d, now) else Idle;
    }

    method Depart(id: int, d: int, now: int) returns (pc: Pc)
      requires Stored() && AtFront(id) && id in waiting && ValidRequest(waiting[id])
      modifies this, requests
      ensures Stored() && Next(Env(), old(View(Seated(id, d, now))), Proceed, View(pc))
      ensures lastRide == old(lastRide) + 1 && store.View() == old(store.View()) && history == old(history)
      ensures pc == Releasing(d) || pc.Idle?
      ensures pc.Idle? ==> Books(Env(), old(View(Idle)), id, d, now, View(Idle))
      ensures !pc.Idle? ==> Drops(Env(), old(View(Idle)), id, View(Idle))
    {
      ghost var w := View(Seated(id, d, now));
      var top := requests.Peek();
      TopIsFront(requests.items, w);
      var r := top.value.request;
      assert w.queue[id] == r && old(View(Idle)) == w.(pc := Idle);
      TakeFront();
      var ride := RideOf(Setup(store.cfg, store.distance), id, r, d, now);
      lastRide := lastRide + 1;
      if ValidRide(ride) {
        assert ride == Ride(id, r.rider, Some(d), r.pickup, r.dropoff, Assigned, r.time, now, 0, Price(Env(), r),
                            Env().distance(r.pickup, r.dropoff));
        active, pc := active[lastRide := ride], Idle;
      } else {
        lost, pc := lost + {id}, Releasing(d);
      }
      assert Boards(Env(), w, id, d, now, View(pc));
    }

    method Free(d: int)
      requires Stored()
      modifies store
      ensures Stored() && Next(Env(), old(View(Releasing(d))), Proceed, View(Idle))
      ensures old(IsBusy(store.View(), d)) ==>
        Freed(old(store.View()), d, old(store.byId[d].location), store.View())
    {
      var l := Location(0.0, 0.0);
      Transitions(store.View(), d, l, store.cfg.cell);
      OperationsKeepIndex(store.View(), d, l, store.cfg.cell);
      var _ := store.Release(d);
    }

    method CompleteRide(id: int, now: int) returns (a: Answer, ghost ws: seq<World>, ghost acts: seq<Action>)
      requires Valid()
      modifies this, store
      ensures Valid() && IsRun(Env(), ws, acts)
      ensures ws[0] == old(View(Idle)) && ws[|ws| - 1] == View(Idle)
      ensures acts != [] && acts[0] == Complete(id, now) && forall k :: 1 <= k < |acts| ==> acts[k] == Proceed
      ensures a == if id in old(active) then Rides(id) else RideNotFound
      ensures id in old(active) ==> Ended(old(View(Idle)), id, now, View(Idle))
      ensures id in old(active) ==>
        Freed(old(store.View()), old(active[id]).driver.value, old(active[id]).dropoff, store.View())
      ensures id !in old(active) ==> View(Idle) == old(View(Idle))
    {
      var pc;
      ws, acts := [View(Idle)], [Complete(id, now)];
      a, pc := Finish(id, now);
      ws := ws + [View(pc)];
      if pc.Arriving? {
        assert Names(old(active), id, pc.ride.driver.value);
        ws, acts := Leave(pc.ride, ws, acts);
      }
      assert ws[|ws| - 1] == View(Idle);
      RunKeepsInv(Env(), ws, acts, |acts|);
    }

    // The sections after the ride went into the history.
    method Leave(ride: Ride, ghost before: seq<World>, ghost first: seq<Action>)
      returns (ghost ws: seq<World>, ghost acts: seq<Action>)
      requires Stored() && ride.driver.Some? && ValidLocation(ride.dropoff) && IsBusy(store.View(), ride.driver.value)
      requires IsRun(Env(), before, first) && before[|before| - 1] == View(Arriving(ride))
      modifies store
      ensures Stored() && IsRun(Env(), ws, acts) && ws[0] == before[0] && ws[|ws| - 1] == View(Idle)
      ensures first <= acts && forall k :: |first| <= k < |acts| ==> acts[k] == Proceed
      ensures Freed(old(store.View()), ride.driver.value, ride.dropoff, store.View())
    {
      Arrive(ride);
      ws, acts := Extended(before, first, View(Releasing(ride.driver.value)));
      Free(ride.driver.value);
      ws, acts := Extended(ws, acts, View(Idle));
    }

    // The active ride goes into the history.
    method Finish(id: int, now: int) returns (a: Answer, pc: Pc)
      requires Stored()
      modifies this
      ensures Stored() && Next(Env(), old(View(Idle)), Complete(id, now), View(pc))
      ensures pc.Idle? || (pc.Arriving? && pc.ride.driver.Some?)
      ensures id !in old(active) ==> a == RideNotFound && pc.Idle? && View(Idle) == old(View(Idle))
      ensures id in old(active) && id !in old(history) && Closes(old(active[id])) ==>
        a == Rides(id) && pc.Arriving? && Ended(old(View(Idle)), id, now, View(Idle))
    {
      if id !in active {
        return RideNotFound, Idle;
      }
      var ride := active[id].(status := RideStatus.Completed, end := now);
      if id in history || !ValidRide(ride) {
        return RideInvalid, Idle;
      }
      active, history := active - {id}, history[id := ride];
      return Rides(id), Arriving(ride);
    }

    method Arrive(ride: Ride)
      requires Stored() && ride.driver.Some? && ValidLocation(ride.dropoff) && IsBusy(store.View(), ride.driver.value)
      modifies store
      ensures Stored() && Next(Env(), old(View(Arriving(ride))), Proceed, View(Releasing(ride.driver.value)))
      ensures IsBusy(store.View(), ride.driver.value) && store.byId[ride.driver.value].location == ride.dropoff
      ensures Only(old(store.View()), store.View(), ride.driver.value)
    {
      Transitions(store.View(), ride.driver.value, ride.dropoff, store.cfg.cell);
      OperationsKeepIndex(store.View(), ride.driver.value, ride.dropoff, store.cfg.cell);
      var _ := store.UpdateLocation(ride.driver.value, ride.dropoff);
    }

    // The request at the front leaves the queue.
    method TakeFront()
      requires requests.Valid() && requests.items != [] && Holds(multiset(requests.items), waiting)
      modifies this`waiting, requests
      ensures requests.Valid() && Holds(multiset(requests.items), waiting)
      ensures waiting == old(waiting) - {old(requests.items[0]).id}
    {
      var popped := requests.Pop();
      HoldsRemove(multiset(requests.items), waiting, popped.value);
      waiting := waiting - {popped.value.id};
    }
  }
}
