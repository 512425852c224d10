// The dispatcher: requests wait in a queue, become active rides, and end in the history.
// Its own lock lets one call run at a time, but every call to the driver store is a
// section of its own, and drivers go online, go offline and move between them.
module Dispatch {
  import opened Options
  import opened Drivers

  datatype Request = Request(rider: int, pickup: Location, dropoff: Location, time: int)

  datatype RideStatus = Assigned | Completed | Cancelled

  // `request` names the request a ride serves; it is bookkeeping of this model.
  datatype Ride = Ride(request: int, rider: int, driver: Option<int>, pickup: Location, dropoff: Location,
                       status: RideStatus, requestTime: int, start: int, end: int, fare: real, distance: real)

  // Where the dispatcher stands between two sections of a call.
  datatype Pc =
    | Idle
    | Found(request: int, driver: int, now: int)
    | Seated(request: int, driver: int, now: int)
    | Arriving(ride: Ride)
    | Releasing(driver: int)

  // accepted and lost are ghosts of the model: the requests ever accepted, and those
  // dropped without a trace.
  datatype World = World(fleet: Fleet, queue: map<int, Request>, active: map<int, Ride>, history: map<int, Ride>,
                         pc: Pc, lastRequest: int, lastRide: int, accepted: set<int>, lost: set<int>)

  datatype Setup = Setup(cfg: Config, distance: (Location, Location) -> real)

  datatype Action =
    | Register(d: int, at: Location)
    | Online(d: int)
    | Offline(d: int)
    | Move(d: int, to: Location)
    | RequestRide(request: Request, now: int, knownRider: bool)
    | Process(now: int)
    | Complete(ride: int, now: int)
    | Proceed

  ghost predicate Usable(c: Setup) {
    c.cfg.cell > 0.0 && forall a, b :: c.distance(a, b) >= 0.0
  }

  function Fare(cfg: Config, km: real): real {
    cfg.baseFare + cfg.farePerKm * km
  }

  predicate Expired(cfg: Config, r: Request, now: int) {
    now - r.time > cfg.timeout
  }

  // What an active ride must satisfy to be stored.
  predicate ValidRide(r: Ride) {
    && ValidLocation(r.pickup) && ValidLocation(r.dropoff) && r.pickup != r.dropoff
    && r.fare >= 0.0 && r.distance >= 0.0 && (r.status.Cancelled? || r.driver.Some?)
  }

  predicate ValidRequest(r: Request) {
    ValidLocation(r.pickup) && ValidLocation(r.dropoff) && r.pickup != r.dropoff
  }

  function RideOf(c: Setup, id: int, r: Request, d: int, now: int): Ride {
    var km := c.distance(r.pickup, r.dropoff);
    Ride(id, r.rider, Some(d), r.pickup, r.dropoff, Assigned, r.time, now, 0, Fare(c.cfg, km), km)
  }

  function CancelledRide(id: int, r: Request, now: int): Ride {
    Ride(id, r.rider, None, r.pickup, r.dropoff, Cancelled, r.time, 0, now, 0.0, 0.0)
  }

  // The oldest request, any of them where several are equally old.
  ghost predicate Front(w: World, id: int) {
    id in w.queue && forall o :: o in w.queue ==> w.queue[id].time <= w.queue[o].time
  }

  ghost predicate Processes(c: Setup, w: World, now: int, v: World)
    requires c.cfg.cell > 0.0
  {
    w.pc.Idle? && if w.queue == map[] then v == w else exists id :: Front(w, id) && Handles(c, w, id, now, v)
  }

  ghost predicate Handles(c: Setup, w: World, id: int, now: int, v: World)
    requires c.cfg.cell > 0.0 && id in w.queue
  {
    if Expired(c.cfg, w.queue[id], now) then
      v == w.(queue := w.queue - {id}, lastRide := w.lastRide + 1,
              history := w.history[w.lastRide + 1 := CancelledRide(id, w.queue[id], now)])
    else exists r ::
      Finds(c, w, id, r) && v == if r.None? then w else w.(pc := Found(id, r.value, now))
  }

  ghost predicate Finds(c: Setup, w: World, id: int, r: Option<int>)
    requires c.cfg.cell > 0.0 && id in w.queue
  {
    if c.cfg.maxPickup <= 0.0 then r == None
    else Nearest(w.fleet, Search(w.queue[id].pickup, c.cfg.maxPickup, c.cfg.cell, NeighborRing(c.cfg), c.distance), r)
  }

  // The request of the seated driver leaves the queue and becomes an active ride, unless
  // the ride is not valid: then the driver is released and the request is gone.
  ghost predicate Boards(c: Setup, w: World, id: int, d: int, now: int, v: World)
    requires id in w.queue
  {
    var ride := RideOf(c, id, w.queue[id], d, now);
    var u := w.(queue := w.queue - {id}, lastRide := w.lastRide + 1);
    v == if ValidRide(ride) then u.(active := w.active[w.lastRide + 1 := ride], pc := Idle)
         else u.(pc := Releasing(d), lost := w.lost + {id})
  }

  ghost predicate Next(c: Setup, w: World, a: Action, v: World)
    requires c.cfg.cell > 0.0
  {
    match a
    case Register(d, l) => v == w.(fleet := Drivers.Register(w.fleet, d, l, c.cfg.cell).0)
    case Online(d) => v == w.(fleet := GoOnline(w.fleet, d, c.cfg.cell).0)
    case Offline(d) => v == w.(fleet := GoOffline(w.fleet, d).0)
    case Move(d, l) => v == w.(fleet := UpdateLocation(w.fleet, d, l, c.cfg.cell).0)
    case RequestRide(r, now, knownRider) =>
      w.pc.Idle? &&
      v == if !ValidRequest(r) || r.time > now || !knownRider then w
           else
             var id := w.lastRequest + 1;
             w.(queue := w.queue[id := r], lastRequest := id, accepted := w.accepted + {id})
    case Process(now) => Processes(c, w, now, v)
    case Complete(id, now) =>
      w.pc.Idle? &&
      v == if id !in w.active then w
           else
             var ride := w.active[id].(status := Completed, end := now);
             if id in w.history || !ValidRide(ride) then w
             else w.(active := w.active - {id}, history := w.history[id := ride], pc := Arriving(ride))
    case Proceed =>
      match w.pc
      case Idle => false
      case Found(id, d, now) =>
        var (fleet, error) := Assign(w.fleet, d);
        v == w.(fleet := fleet, pc := if error.None? then Seated(id, d, now) else Idle)
      case Seated(id, d, now) => id in w.queue && Boards(c, w, id, d, now, v)
      case Arriving(ride) =>
        ride.driver.Some? &&
        v == w.(fleet := UpdateLocation(w.fleet, ride.driver.value, ride.dropoff, c.cfg.cell).0,
                pc := Releasing(ride.driver.value))
      case Releasing(d) => v == w.(fleet := Release(w.fleet, d, c.cfg.cell).0, pc := Idle)
  }

  // What every reachable world keeps ------------------------------------------------------

  // The driver the dispatcher holds between two sections.
  function Held(pc: Pc): Option<int> {
    match pc
    case Idle => None
    case Found(_, _, _) => None
    case Seated(_, d, _) => Some(d)
    case Arriving(ride) => ride.driver
    case Releasing(d) => Some(d)
  }

  predicate Names(rides: map<int, Ride>, id: int, d: int) {
    id in rides && rides[id].driver == Some(d)
  }

  ghost predicate IsBusy(f: Fleet, d: int) {
    d in f.byId && f.byId[d].status == Busy
  }

  // A driver is busy iff an active ride or the dispatcher's call has it; never both, and
  // never two rides.
  ghost predicate DriversSound(w: World) {
    && (forall d :: IsBusy(w.fleet, d) <==> Held(w.pc) == Some(d) || exists id :: Names(w.active, id, d))
    && (forall id, d :: Names(w.active, id, d) ==> Held(w.pc) != Some(d))
    && (w.pc.Found? ==> w.pc.driver in w.fleet.byId && w.fleet.byId[w.pc.driver].status != Busy)
    && (forall i, j, d :: Names(w.active, i, d) && Names(w.active, j, d) ==> i == j)
  }

  // Where a request is.
  predicate Serves(rides: map<int, Ride>, ride: int, id: int) {
    ride in rides && rides[ride].request == id
  }

  ghost predicate Somewhere(w: World, id: int) {
    id in w.queue || (exists r :: Serves(w.active, r, id)) || (exists r :: Serves(w.history, r, id)) || id in w.lost
  }

  // In no two places, and in none twice.
  ghost predicate Once(w: World) {
    && (forall id, r :: id in w.queue ==> !Serves(w.active, r, id) && !Serves(w.history, r, id))
    && (forall id :: id in w.lost ==> id !in w.queue)
    && (forall id, r :: id in w.lost ==> !Serves(w.active, r, id) && !Serves(w.history, r, id))
    && (forall id, r, q :: Serves(w.active, r, id) && Serves(w.active, q, id) ==> r == q)
    && (forall id, r, q :: Serves(w.history, r, id) && Serves(w.history, q, id) ==> r == q)
    && (forall id, r, q :: Serves(w.active, r, id) ==> !Serves(w.history, q, id))
  }

  ghost predicate RequestsSound(w: World) {
    && Once(w)
    && (forall id :: id in w.accepted <==> Somewhere(w, id))
    && (forall id :: id in w.accepted ==> id <= w.lastRequest)
    && (forall id :: id in w.queue ==> ValidRequest(w.queue[id]))
  }

  ghost predicate RidesSound(w: World) {
    && (forall r :: r in w.active ==> r <= w.lastRide && ValidRide(w.active[r]) && w.active[r].status == Assigned)
    && (forall r :: r in w.history ==> r <= w.lastRide && r !in w.active)
    && (forall r :: r in w.history ==> w.history[r].status == Completed || w.history[r].status == Cancelled)
    && (w.pc.Arriving? ==> ValidRide(w.pc.ride) && w.pc.ride.status == Completed)
  }

  ghost predicate PcSound(w: World) {
    w.pc.Found? || w.pc.Seated? ==> w.pc.request in w.queue
  }

  ghost predicate Inv(c: Setup, w: World)
    requires c.cfg.cell > 0.0
  {
    IndexExact(w.fleet, c.cfg.cell) && DriversSound(w) && RequestsSound(w) && RidesSound(w) && PcSound(w)
  }

  // The steps of the drivers themselves: nobody becomes busy or stops being busy.
  lemma FleetKeeps(c: Setup, w: World, v: World)
    requires c.cfg.cell > 0.0 && Inv(c, w) && v == w.(fleet := v.fleet) && IndexExact(v.fleet, c.cfg.cell)
    requires forall d :: IsBusy(v.fleet, d) <==> IsBusy(w.fleet, d)
    requires w.fleet.byId.Keys <= v.fleet.byId.Keys
    ensures Inv(c, v)
  {
    assert w.pc.Found? ==> !IsBusy(w.fleet, w.pc.driver) && !IsBusy(v.fleet, w.pc.driver);
  }

  lemma OutsiderKeeps(c: Setup, w: World, a: Action, v: World)
    requires c.cfg.cell > 0.0 && Inv(c, w) && Next(c, w, a, v)
    requires a.Register? || a.Online? || a.Offline? || a.Move?
    ensures Inv(c, v)
  {
    match a {
      case Register(d, l) => SparesBusy(w.fleet, d, l, c.cfg.cell);
      case Online(d) => SparesBusy(w.fleet, d, Location(0.0, 0.0), c.cfg.cell);
      case Offline(d) => SparesBusy(w.fleet, d, Location(0.0, 0.0), c.cfg.cell);
      case Move(d, l) => SparesBusy(w.fleet, d, l, c.cfg.cell);
    }
    FleetKeeps(c, w, v);
  }

  ghost predicate Spares(s: Fleet, t: Fleet, cell: real)
    requires cell > 0.0
  {
    IndexExact(t, cell) && s.byId.Keys <= t.byId.Keys && forall e :: IsBusy(t, e) <==> IsBusy(s, e)
  }

  lemma SparesBusy(s: Fleet, d: int, l: Location, cell: real)
    requires cell > 0.0 && IndexExact(s, cell)
    ensures Spares(s, Drivers.Register(s, d, l, cell).0, cell) && Spares(s, GoOnline(s, d, cell).0, cell)
    ensures Spares(s, GoOffline(s, d).0, cell) && Spares(s, UpdateLocation(s, d, l, cell).0, cell)
  {
    OperationsKeepIndex(s, d, l, cell);
  }

  lemma RequestKeeps(c: Setup, w: World, a: Action, v: World)
    requires c.cfg.cell > 0.0 && Inv(c, w) && Next(c, w, a, v) && a.RequestRide?
    ensures Inv(c, v)
  {
    if v != w {
      var id := w.lastRequest + 1;
      assert id !in w.accepted;
      assert !Somewhere(w, id);
      forall x ensures x in v.accepted <==> Somewhere(v, x) {
        assert x in w.accepted <==> Somewhere(w, x);
      }
    }
  }

  // A request leaves the queue for a ride that is new in one of the two maps.
  lemma Leaves(w: World, v: World, id: int, ride: Ride, toActive: bool)
    requires RequestsSound(w) && id in w.queue && ride.request == id && v.queue == w.queue - {id}
    requires v.accepted == w.accepted && v.lost == w.lost && v.lastRequest == w.lastRequest
    requires w.lastRide + 1 !in w.active && w.lastRide + 1 !in w.history
    requires v.active == if toActive then w.active[w.lastRide + 1 := ride] else w.active
    requires v.history == if toActive then w.history else w.history[w.lastRide + 1 := ride]
    ensures RequestsSound(v)
  {
    var n := w.lastRide + 1;
    forall x, r ensures Serves(v.active, r, x) <==> Serves(w.active, r, x) || (toActive && r == n && x == id) {}
    forall x, r ensures Serves(v.history, r, x) <==> Serves(w.history, r, x) || (!toActive && r == n && x == id) {}
    forall x ensures x in v.accepted <==> Somewhere(v, x) {
      assert x in w.accepted <==> Somewhere(w, x);
      if x == id {
        assert Serves(v.active, n, x) || Serves(v.history, n, x);
      } else {
        assert forall r :: Serves(v.active, r, x) <==> Serves(w.active, r, x);
        assert forall r :: Serves(v.history, r, x) <==> Serves(w.history, r, x);
      }
    }
  }

  lemma RequestsSame(w: World, v: World)
    requires RequestsSound(w) && v == w.(fleet := v.fleet, pc := v.pc)
    ensures RequestsSound(v)
  {
    forall x ensures x in v.accepted <==> Somewhere(v, x) {
      assert x in w.accepted <==> Somewhere(w, x);
    }
  }

  lemma DriversSame(w: World, v: World)
    requires DriversSound(w) && v.fleet == w.fleet && v.active == w.active && Held(v.pc) == Held(w.pc)
    requires v.pc.Found? ==> v.pc.driver in v.fleet.byId && v.fleet.byId[v.pc.driver].status != Busy
    ensures DriversSound(v)
  {
    forall d ensures IsBusy(v.fleet, d) <==> Held(v.pc) == Some(d) || exists id :: Names(v.active, id, d) {}
  }

  lemma ProcessKeeps(c: Setup, w: World, a: Action, v: World)
    requires c.cfg.cell > 0.0 && Inv(c, w) && Next(c, w, a, v) && a.Process?
    ensures Inv(c, v)
  {
    if w.queue != map[] {
      var id :| Front(w, id) && Handles(c, w, id, a.now, v);
      if Expired(c.cfg, w.queue[id], a.now) {
        ExpiryKeeps(c, w, id, a.now, v);
      } else {
        DriversSame(w, v);
        RequestsSame(w, v);
      }
    }
  }

  lemma ExpiryKeeps(c: Setup, w: World, id: int, now: int, v: World)
    requires c.cfg.cell > 0.0 && Inv(c, w) && w.pc.Idle? && id in w.queue && Expired(c.cfg, w.queue[id], now)
    requires Handles(c, w, id, now, v)
    ensures Inv(c, v)
  {
    DriversSame(w, v);
    Leaves(w, v, id, CancelledRide(id, w.queue[id], now), false);
    assert RidesSound(v);
  }

  lemma DepartKeeps(c: Setup, w: World, v: World)
    requires Usable(c) && Inv(c, w) && Next(c, w, Proceed, v) && w.pc.Seated?
    ensures Inv(c, v)
  {
    var Seated(id, d, now) := w.pc;
    var ride := RideOf(c, id, w.queue[id], d, now);
    if ValidRide(ride) {
      Leaves(w, v, id, ride, true);
      BoardsDriver(w, v, ride, d);
      assert RidesSound(v);
    } else {
      DriversSame(w, v);
      Loses(w, v, id);
      assert RidesSound(v);
    }
  }

  lemma Loses(w: World, v: World, id: int)
    requires RequestsSound(w) && id in w.queue && v.queue == w.queue - {id} && v.lost == w.lost + {id}
    requires v.accepted == w.accepted && v.lastRequest == w.lastRequest
    requires v.active == w.active && v.history == w.history
    ensures RequestsSound(v)
  {
    forall r ensures !Serves(v.active, r, id) && !Serves(v.history, r, id) {
      assert !Serves(w.active, r, id) && !Serves(w.history, r, id);
    }
    forall x ensures x in v.accepted <==> Somewhere(v, x) {
      assert x in w.accepted <==> Somewhere(w, x);
    }
  }

  // The driver goes over from the dispatcher's call to the new active ride.
  lemma BoardsDriver(w: World, v: World, ride: Ride, d: int)
    requires DriversSound(w) && Held(w.pc) == Some(d) && v.pc.Idle? && v.fleet == w.fleet
    requires w.lastRide + 1 !in w.active && ride.driver == Some(d) && v.active == w.active[w.lastRide + 1 := ride]
    ensures DriversSound(v)
  {
    var n := w.lastRide + 1;
    forall r, e ensures Names(v.active, r, e) <==> Names(w.active, r, e) || (r == n && e == d) {}
    forall e ensures IsBusy(v.fleet, e) <==> exists r :: Names(v.active, r, e) {
      if e == d {
        assert Names(v.active, n, d);
      } else {
        assert forall r :: Names(v.active, r, e) <==> Names(w.active, r, e);
      }
    }
  }

  lemma CompleteKeeps(c: Setup, w: World, a: Action, v: World)
    requires c.cfg.cell > 0.0 && Inv(c, w) && Next(c, w, a, v) && a.Complete?
    ensures Inv(c, v)
  {
    if v != w {
      var ride := w.active[a.ride].(status := Completed, end := a.now);
      var d := ride.driver.value;
      assert Names(w.active, a.ride, d);
      forall r, e ensures Names(v.active, r, e) <==> Names(w.active, r, e) && r != a.ride {}
      forall e ensures IsBusy(v.fleet, e) <==> e == d || exists r :: Names(v.active, r, e) {
        if e != d {
          assert forall r :: Names(v.active, r, e) <==> Names(w.active, r, e);
        }
      }
      Completes(w, v, a.ride, ride);
    }
  }

  lemma Completes(w: World, v: World, n: int, ride: Ride)
    requires RequestsSound(w) && n in w.active && n !in w.history && ride.request == w.active[n].request
    requires v.active == w.active - {n} && v.history == w.history[n := ride]
    requires v.queue == w.queue && v.accepted == w.accepted && v.lost == w.lost && v.lastRequest == w.lastRequest
    ensures RequestsSound(v)
  {
    var id := ride.request;
    assert Serves(w.active, n, id);
    forall x, r ensures Serves(v.active, r, x) <==> Serves(w.active, r, x) && r != n {}
    forall x, r ensures Serves(v.history, r, x) <==> Serves(w.history, r, x) || (r == n && x == id) {}
    forall x ensures x in v.accepted <==> Somewhere(v, x) {
      assert x in w.accepted <==> Somewhere(w, x);
      if x == id {
        assert Serves(v.history, n, x);
      } else {
        assert forall r :: Serves(v.active, r, x) <==> Serves(w.active, r, x);
        assert forall r :: Serves(v.history, r, x) <==> Serves(w.history, r, x);
      }
    }
  }

  // Assigning the driver found, or failing to because it went offline.
  lemma SeatKeeps(c: Setup, w: World, v: World)
    requires c.cfg.cell > 0.0 && Inv(c, w) && Next(c, w, Proceed, v) && w.pc.Found?
    ensures Inv(c, v)
  {
    var d := w.pc.driver;
    OperationsKeepIndex(w.fleet, d, Location(0.0, 0.0), c.cfg.cell);
    RequestsSame(w, v);
    var error := Assign(w.fleet, d).1;
    forall e ensures IsBusy(v.fleet, e) <==> IsBusy(w.fleet, e) || (error.None? && e == d) {}
    forall e ensures IsBusy(v.fleet, e) <==> Held(v.pc) == Some(e) || exists id :: Names(v.active, id, e) {
      assert IsBusy(w.fleet, e) <==> Held(w.pc) == Some(e) || exists id :: Names(w.active, id, e);
    }
    assert !IsBusy(w.fleet, d);
  }

  lemma ArriveKeeps(c: Setup, w: World, v: World)
    requires c.cfg.cell > 0.0 && Inv(c, w) && Next(c, w, Proceed, v) && w.pc.Arriving?
    ensures Inv(c, v)
  {
    var d := w.pc.ride.driver.value;
    OperationsKeepIndex(w.fleet, d, w.pc.ride.dropoff, c.cfg.cell);
    RequestsSame(w, v);
    forall e ensures IsBusy(v.fleet, e) <==> Held(v.pc) == Some(e) || exists id :: Names(v.active, id, e) {
      assert IsBusy(w.fleet, e) <==> Held(w.pc) == Some(e) || exists id :: Names(w.active, id, e);
    }
  }

  lemma ReleaseKeeps(c: Setup, w: World, v: World)
    requires c.cfg.cell > 0.0 && Inv(c, w) && Next(c, w, Proceed, v) && w.pc.Releasing?
    ensures Inv(c, v)
  {
    var d := w.pc.driver;
    OperationsKeepIndex(w.fleet, d, Location(0.0, 0.0), c.cfg.cell);
    RequestsSame(w, v);
    assert IsBusy(w.fleet, d);
    forall e ensures IsBusy(v.fleet, e) <==> Held(v.pc) == Some(e) || exists id :: Names(v.active, id, e) {
      assert IsBusy(w.fleet, e) <==> Held(w.pc) == Some(e) || exists id :: Names(w.active, id, e);
    }
  }

  lemma NextKeeps(c: Setup, w: World, a: Action, v: World)
    requires Usable(c) && Inv(c, w) && Next(c, w, a, v)
    ensures Inv(c, v)
  {
    match a {
      case RequestRide(_, _, _) => RequestKeeps(c, w, a, v);
      case Process(_) => ProcessKeeps(c, w, a, v);
      case Complete(_, _) => CompleteKeeps(c, w, a, v);
      case Proceed =>
        match w.pc {
          case Found(_, _, _) => SeatKeeps(c, w, v);
          case Seated(_, _, _) => DepartKeeps(c, w, v);
          case Arriving(_) => ArriveKeeps(c, w, v);
          case Releasing(_) => ReleaseKeeps(c, w, v);
          case Idle =>
        }
      case _ => OutsiderKeeps(c, w, a, v);
    }
  }

  // Whole runs ----------------------------------------------------------------------------

  ghost predicate Initial(w: World) {
    w == World(Fleet(map[], map[]), map[], map[], map[], Idle, 0, 0, {}, {})
  }

  ghost predicate IsRun(c: Setup, ws: seq<World>, acts: seq<Action>)
    requires c.cfg.cell > 0.0
  {
    |ws| == |acts| + 1 && forall k :: 0 <= k < |acts| ==> Next(c, ws[k], acts[k], ws[k + 1])
  }

  lemma InitialInv(c: Setup, w: World)
    requires c.cfg.cell > 0.0 && Initial(w)
    ensures Inv(c, w)
  {
  }

  lemma {:induction false} RunKeepsInv(c: Setup, ws: seq<World>, acts: seq<Action>, k: nat)
    requires Usable(c) && IsRun(c, ws, acts) && Inv(c, ws[0]) && k < |ws|
    ensures Inv(c, ws[k])
  {
    if k > 0 {
      RunKeepsInv(c, ws, acts, k - 1);
      NextKeeps(c, ws[k - 1], acts[k - 1], ws[k]);
    }
  }

  lemma RunKeeps(c: Setup, ws: seq<World>, acts: seq<Action>, k: nat)
    requires Usable(c) && IsRun(c, ws, acts) && Initial(ws[0]) && k < |ws|
    ensures Inv(c, ws[k])
  {
    InitialInv(c, ws[0]);
    RunKeepsInv(c, ws, acts, k);
  }

  // The four places a request can be, and how often it is there.
  datatype Place = Waiting | Riding(ride: int) | Past(ride: int) | Nowhere

  predicate At(w: World, id: int, p: Place) {
    match p
    case Waiting => id in w.queue
    case Riding(r) => Serves(w.active, r, id)
    case Past(r) => Serves(w.history, r, id)
    case Nowhere => id in w.lost
  }

  // In every reachable world an accepted request is in exactly one place.
  lemma RequestsInOnePlace(c: Setup, ws: seq<World>, acts: seq<Action>, k: nat, id: int) returns (p: Place)
    requires Usable(c) && IsRun(c, ws, acts) && Initial(ws[0]) && k < |ws| && id in ws[k].accepted
    ensures At(ws[k], id, p) && forall q :: At(ws[k], id, q) ==> q == p
  {
    RunKeeps(c, ws, acts, k);
    var w := ws[k];
    assert Somewhere(w, id);
    if id in w.queue {
      p := Waiting;
    } else if id in w.lost {
      p := Nowhere;
    } else if r :| Serves(w.active, r, id) {
      p := Riding(r);
    } else {
      var r :| Serves(w.history, r, id);
      p := Past(r);
    }
  }

  // Whenever the dispatcher's lock is free, a driver is busy iff exactly one active ride
  // names it.
  lemma BusyIffOneRide(c: Setup, ws: seq<World>, acts: seq<Action>, k: nat, d: int)
    requires Usable(c) && IsRun(c, ws, acts) && Initial(ws[0]) && k < |ws| && ws[k].pc.Idle?
    ensures IsBusy(ws[k].fleet, d) <==> exists r :: Names(ws[k].active, r, d)
    ensures forall r, q :: Names(ws[k].active, r, d) && Names(ws[k].active, q, d) ==> r == q
  {
    RunKeeps(c, ws, acts, k);
  }

  // What a request's ride will cost.
  function FareOf(c: Setup, r: Request): real {
    Fare(c.cfg, c.distance(r.pickup, r.dropoff))
  }

  // A step loses a request iff it is the departure of a seated driver whose request has a
  // negative fare.
  lemma LostIffNegativeFare(c: Setup, ws: seq<World>, acts: seq<Action>, k: nat)
    requires Usable(c) && IsRun(c, ws, acts) && Initial(ws[0]) && k < |acts|
    ensures ws[k].pc.Seated? ==> ws[k].pc.request in ws[k].queue
    ensures ws[k + 1].lost != ws[k].lost <==>
      acts[k].Proceed? && ws[k].pc.Seated? && FareOf(c, ws[k].queue[ws[k].pc.request]) < 0.0
  {
    RunKeeps(c, ws, acts, k);
    var w, v := ws[k], ws[k + 1];
    assert Next(c, w, acts[k], v);
    if acts[k].Proceed? && w.pc.Seated? {
      assert w.pc.request !in w.lost;
    } else if acts[k].Process? && w.queue != map[] {
      var id :| Front(w, id) && Handles(c, w, id, acts[k].now, v);
    }
  }

  // The fare is never negative iff neither of its two parameters is.
  lemma FareNonNegativeIff(cfg: Config)
    ensures (forall km :: km >= 0.0 ==> Fare(cfg, km) >= 0.0) <==> cfg.baseFare >= 0.0 && cfg.farePerKm >= 0.0
  {
    if cfg.baseFare >= 0.0 && cfg.farePerKm >= 0.0 {
      forall km | km >= 0.0 ensures Fare(cfg, km) >= 0.0 {
        assert cfg.farePerKm * km >= 0.0;
      }
    } else if cfg.baseFare < 0.0 {
      assert Fare(cfg, 0.0) < 0.0;
    } else {
      var km := (cfg.baseFare + 1.0) / -cfg.farePerKm;
      assert km >= 0.0 && cfg.farePerKm * km == -(cfg.baseFare + 1.0);
      assert Fare(cfg, km) < 0.0;
    }
  }

  // With such a fare no request is ever lost: each is waiting, riding or past.
  lemma {:induction false} NothingLost(c: Setup, ws: seq<World>, acts: seq<Action>, k: nat)
    requires Usable(c) && IsRun(c, ws, acts) && Initial(ws[0]) && k < |ws|
    requires c.cfg.baseFare >= 0.0 && c.cfg.farePerKm >= 0.0
    ensures ws[k].lost == {}
  {
    if k > 0 {
      NothingLost(c, ws, acts, k - 1);
      FareNonNegativeIff(c.cfg);
      LostIffNegativeFare(c, ws, acts, k - 1);
    }
  }

  // What the rides are -----------------------------------------------------------------------

  // A ride with a driver started before its request ran out and costs what the two fare
  // parameters say; a cancelled one ended after that, without driver and for nothing.
  ghost predicate FairRide(c: Setup, r: Ride) {
    if r.status.Cancelled? then
      r.end - r.requestTime > c.cfg.timeout && r.driver.None? && r.fare == r.distance == 0.0
    else
      && r.driver.Some? && r.start - r.requestTime <= c.cfg.timeout
      && r.distance == c.distance(r.pickup, r.dropoff) && r.fare == c.cfg.baseFare + c.cfg.farePerKm * r.distance
  }

  ghost predicate FairWorld(c: Setup, w: World) {
    && (forall n :: n in w.active ==> FairRide(c, w.active[n]))
    && (forall n :: n in w.history ==> FairRide(c, w.history[n]))
    && (w.pc.Found? || w.pc.Seated? ==>
          w.pc.request in w.queue && w.pc.now - w.queue[w.pc.request].time <= c.cfg.timeout)
  }

  lemma NextFair(c: Setup, w: World, a: Action, v: World)
    requires Usable(c) && Inv(c, w) && FairWorld(c, w) && Next(c, w, a, v)
    ensures FairWorld(c, v)
  {
    match a {
      case Process(now) => ProcessFair(c, w, now, v);
      case Proceed => ProceedFair(c, w, v);
      case RequestRide(_, _, _) =>
        assert w.lastRequest + 1 in w.queue ==> Somewhere(w, w.lastRequest + 1);
      case _ =>
    }
  }

  lemma ProcessFair(c: Setup, w: World, now: int, v: World)
    requires c.cfg.cell > 0.0 && FairWorld(c, w) && Next(c, w, Process(now), v)
    ensures FairWorld(c, v)
  {
    if w.queue != map[] {
      var id :| Front(w, id) && Handles(c, w, id, now, v);
    }
  }

  lemma ProceedFair(c: Setup, w: World, v: World)
    requires c.cfg.cell > 0.0 && FairWorld(c, w) && Next(c, w, Proceed, v)
    ensures FairWorld(c, v)
  {
  }

  // In every reachable world all rides are such.
  lemma {:induction false} RidesFair(c: Setup, ws: seq<World>, acts: seq<Action>, k: nat)
    requires Usable(c) && IsRun(c, ws, acts) && Initial(ws[0]) && k < |ws|
    ensures FairWorld(c, ws[k])
  {
    if k > 0 {
      RidesFair(c, ws, acts, k - 1);
      RunKeeps(c, ws, acts, k - 1);
      NextFair(c, ws[k - 1], acts[k - 1], ws[k]);
    }
  }

  // The driver is available, near enough to the pickup and in the searched square.
  ghost predicate Reaches(c: Setup, f: Fleet, p: Location, d: int)
    requires c.cfg.cell > 0.0
  {
    && d in f.byId && f.byId[d].status == Available && c.distance(p, f.byId[d].location) <= c.cfg.maxPickup
    && Near(BlockOf(p, c.cfg.cell), NeighborRing(c.cfg), BlockOf(f.byId[d].location, c.cfg.cell))
  }

  // Processing looks at a request that no waiting one is older than. If it has run out it is
  // cancelled; else a driver that reaches it is found, none nearer, of two as near the one
  // with the smaller ID; or there is none.
  lemma ProcessingExact(c: Setup, w: World, now: int, v: World) returns (id: int)
    requires Usable(c) && Next(c, w, Process(now), v)
    ensures w.queue == map[] ==> v == w
    ensures w.queue != map[] ==> id in w.queue && forall o :: o in w.queue ==> w.queue[id].time <= w.queue[o].time
    ensures w.queue != map[] && now - w.queue[id].time > c.cfg.timeout ==>
      v == w.(queue := w.queue - {id}, lastRide := w.lastRide + 1,
              history := w.history[w.lastRide + 1 := CancelledRide(id, w.queue[id], now)])
    ensures w.queue != map[] && now - w.queue[id].time <= c.cfg.timeout && v == w ==>
      NoneReaches(c, w, id)
    ensures w.queue != map[] && now - w.queue[id].time <= c.cfg.timeout && v != w ==>
      && v.pc.Found? && v == w.(pc := Found(id, v.pc.driver, now))
      && ReachedFirst(c, w.fleet, w.queue[id].pickup, v.pc.driver)
  {
    if w.queue == map[] {
      id := 0;
    } else {
      id :| Front(w, id) && Handles(c, w, id, now, v);
      if !Expired(c.cfg, w.queue[id], now) {
        var r :| Finds(c, w, id, r) && v == if r.None? then w else w.(pc := Found(id, r.value, now));
        WhoReaches(c, w, id, r);
      }
    }
  }

  ghost predicate NoneReaches(c: Setup, w: World, id: int)
    requires c.cfg.cell > 0.0 && id in w.queue
  {
    c.cfg.maxPickup <= 0.0 || forall d :: !Reaches(c, w.fleet, w.queue[id].pickup, d)
  }

  // What the search for a driver found, in terms of who reaches the pickup.
  lemma WhoReaches(c: Setup, w: World, id: int, r: Option<int>)
    requires c.cfg.cell > 0.0 && id in w.queue && Finds(c, w, id, r)
    ensures r.None? ==> NoneReaches(c, w, id)
    ensures r.Some? ==> ReachedFirst(c, w.fleet, w.queue[id].pickup, r.value)
  {
    var p := w.queue[id].pickup;
    var q := Search(p, c.cfg.maxPickup, c.cfg.cell, NeighborRing(c.cfg), c.distance);
    forall d ensures Reaches(c, w.fleet, p, d) <==> Candidate(w.fleet, q, d) {}
  }

  ghost predicate ReachedFirst(c: Setup, f: Fleet, p: Location, d: int)
    requires c.cfg.cell > 0.0
  {
    && Reaches(c, f, p, d)
    && forall e :: Reaches(c, f, p, e) ==>
         && c.distance(p, f.byId[d].location) <= c.distance(p, f.byId[e].location)
         && (c.distance(p, f.byId[d].location) == c.distance(p, f.byId[e].location) ==> d <= e)
  }

  // A request is taken on exactly if its two places are valid and different, it is not from
  // the future and the rider is known.
  lemma RequestTakenIff(c: Setup, w: World, r: Request, now: int, knownRider: bool, v: World)
    requires c.cfg.cell > 0.0 && Next(c, w, RequestRide(r, now, knownRider), v)
    requires w.lastRequest + 1 !in w.accepted
    ensures v != w <==> MayRequest(r, now, knownRider)
    ensures v != w ==> v.accepted == w.accepted + {w.lastRequest + 1} && v.queue == w.queue[w.lastRequest + 1 := r]
  {
  }

  predicate OnEarth(l: Location) {
    -90.0 <= l.lat && l.lat <= 90.0 && -180.0 <= l.lng && l.lng <= 180.0
  }

  predicate MayRequest(r: Request, now: int, knownRider: bool) {
    OnEarth(r.pickup) && OnEarth(r.dropoff) && r.pickup != r.dropoff && r.time <= now && knownRider
  }

  // When requests can be lost --------------------------------------------------------------

  // A driver could be found for a pickup at p.
  ghost predicate CanFind(c: Setup, p: Location)
    requires c.cfg.cell > 0.0
  {
    c.cfg.maxPickup > 0.0 && exists l :: Serving(c, p, l)
  }

  ghost predicate Serving(c: Setup, p: Location, l: Location)
    requires c.cfg.cell > 0.0
  {
    && ValidLocation(l) && c.distance(p, l) <= c.cfg.maxPickup
    && Near(BlockOf(p, c.cfg.cell), NeighborRing(c.cfg), BlockOf(l, c.cfg.cell))
  }

  // Some trip that a driver could be found for has a negative fare.
  ghost predicate CanLose(c: Setup)
    requires c.cfg.cell > 0.0
  {
    exists p, q ::
      ValidLocation(p) && ValidLocation(q) && p != q && Fare(c.cfg, c.distance(p, q)) < 0.0 && CanFind(c, p)
  }

  ghost predicate NeverLoses(c: Setup)
    requires c.cfg.cell > 0.0
  {
    forall ws: seq<World>, acts: seq<Action> :: IsRun(c, ws, acts) && Initial(ws[0]) ==> ws[|acts|].lost == {}
  }

  // Every driver stands somewhere valid, and the request that was found a driver could be.
  ghost predicate Placed(c: Setup, w: World)
    requires c.cfg.cell > 0.0
  {
    && (forall d :: d in w.fleet.byId ==> ValidLocation(w.fleet.byId[d].location))
    && (forall id :: id in w.queue ==> ValidRequest(w.queue[id]))
    && (w.pc.Found? || w.pc.Seated? ==> w.pc.request in w.queue && CanFind(c, w.queue[w.pc.request].pickup))
  }

  lemma NextPlaced(c: Setup, w: World, a: Action, v: World)
    requires c.cfg.cell > 0.0 && Placed(c, w) && IndexExact(w.fleet, c.cfg.cell) && Next(c, w, a, v)
    ensures Placed(c, v)
  {
    if a.Process? && w.queue != map[] {
      var id :| Front(w, id) && Handles(c, w, id, a.now, v);
      if v.pc.Found? {
        var q := Search(w.queue[id].pickup, c.cfg.maxPickup, c.cfg.cell, NeighborRing(c.cfg), c.distance);
        assert Candidate(w.fleet, q, v.pc.driver);
        assert Serving(c, w.queue[id].pickup, w.fleet.byId[v.pc.driver].location);
      }
    }
  }

  lemma {:induction false} RunPlaced(c: Setup, ws: seq<World>, acts: seq<Action>, k: nat)
    requires Usable(c) && IsRun(c, ws, acts) && Initial(ws[0]) && k < |ws|
    ensures Placed(c, ws[k])
  {
    if k > 0 {
      RunPlaced(c, ws, acts, k - 1);
      RunKeeps(c, ws, acts, k - 1);
      NextPlaced(c, ws[k - 1], acts[k - 1], ws[k]);
    }
  }

  lemma {:induction false} LosesOnlyIf(c: Setup, ws: seq<World>, acts: seq<Action>, k: nat)
    requires Usable(c) && IsRun(c, ws, acts) && Initial(ws[0]) && k < |ws| && !CanLose(c)
    ensures ws[k].lost == {}
  {
    if k > 0 {
      LosesOnlyIf(c, ws, acts, k - 1);
      LostIffNegativeFare(c, ws, acts, k - 1);
      RunPlaced(c, ws, acts, k - 1);
      var w := ws[k - 1];
      if acts[k - 1].Proceed? && w.pc.Seated? {
        var r := w.queue[w.pc.request];
        assert CanFind(c, r.pickup) && ValidRequest(r);
      }
    }
  }

  // A run that loses a request: a driver comes online where it can be found, the request
  // is accepted, and its ride turns out to cost less than nothing.
  lemma LosingRun(c: Setup, p: Location, q: Location, l: Location) returns (ws: seq<World>, acts: seq<Action>)
    requires Usable(c) && c.cfg.maxPickup > 0.0 && Serving(c, p, l)
    requires ValidLocation(p) && ValidLocation(q) && p != q && Fare(c.cfg, c.distance(p, q)) < 0.0
    ensures IsRun(c, ws, acts) && Initial(ws[0]) && ws[|acts|].lost == {1}
  {
    var r := Request(0, p, q, 0);
    var now := if c.cfg.timeout < 0 then c.cfg.timeout else 0;
    var b := BlockOf(l, c.cfg.cell);
    var w0 := World(Fleet(map[], map[]), map[], map[], map[], Idle, 0, 0, {}, {});
    var w1 := w0.(fleet := Fleet(map[0 := Driver(Status.Offline, l, b)], map[]));
    var w2 := w0.(fleet := Fleet(map[0 := Driver(Available, l, b)], map[b := {0}]));
    var w3 := w2.(queue := map[1 := r], lastRequest := 1, accepted := {1});
    var w4 := w3.(pc := Found(1, 0, now));
    var w5 := w3.(fleet := Fleet(map[0 := Driver(Busy, l, b)], map[]), pc := Seated(1, 0, now));
    var w6 := w5.(queue := map[], lastRide := 1, pc := Releasing(0), lost := {1});
    ws := [w0, w1, w2, w3, w4, w5, w6];
    acts := [Action.Register(0, l), Online(0), RequestRide(r, 0, true), Process(now), Proceed, Proceed];
    FindsOnly(c, w3, l, now);
    assert Next(c, w0, acts[0], w1);
    assert Activated(w1.fleet, 0, c.cfg.cell) == w2.fleet by {
      assert {} + {0} == {0};
    }
    assert Next(c, w1, acts[1], w2);
    assert Next(c, w2, acts[2], w3);
    assert Next(c, w3, acts[3], w4);
    SeatsOnly(c, w4, w5, l, now);
    assert Next(c, w4, acts[4], w5);
    assert w5.queue - {1} == map[] && {} + {1} == {1};
    assert Next(c, w5, acts[5], w6);
  }

  lemma FindsOnly(c: Setup, w: World, l: Location, now: int)
    requires c.cfg.cell > 0.0 && c.cfg.maxPickup > 0.0 && w.pc.Idle? && w.queue.Keys == {1}
    requires w.fleet.byId == map[0 := Driver(Available, l, BlockOf(l, c.cfg.cell))]
    requires Serving(c, w.queue[1].pickup, l) && !Expired(c.cfg, w.queue[1], now)
    ensures Next(c, w, Process(now), w.(pc := Found(1, 0, now)))
  {
    assert Finds(c, w, 1, Some(0));
    assert Front(w, 1) && Handles(c, w, 1, now, w.(pc := Found(1, 0, now)));
  }

  lemma SeatsOnly(c: Setup, w: World, v: World, l: Location, now: int)
    requires c.cfg.cell > 0.0 && w.pc == Found(1, 0, now)
    requires var b := BlockOf(l, c.cfg.cell);
      && w.fleet == Fleet(map[0 := Driver(Available, l, b)], map[b := {0}])
      && v == w.(fleet := Fleet(map[0 := Driver(Busy, l, b)], map[]), pc := Seated(1, 0, now))
    ensures Next(c, w, Proceed, v)
  {
    var b := BlockOf(l, c.cfg.cell);
    assert {0} - {0} == {};
    assert map[b := {0}] - {b} == map[];
    assert Deactivated(w.fleet, 0, Busy) == v.fleet;
  }

  // A dispatcher loses requests in some run iff its setup allows a trip with a negative
  // fare that a driver can be found for.
  lemma NeverLosesIff(c: Setup)
    requires Usable(c)
    ensures NeverLoses(c) <==> !CanLose(c)
  {
    if CanLose(c) {
      var p, q :|
        ValidLocation(p) && ValidLocation(q) && p != q && Fare(c.cfg, c.distance(p, q)) < 0.0 && CanFind(c, p);
      var l :| Serving(c, p, l);
      var ws, acts := LosingRun(c, p, q, l);
    } else {
      forall ws: seq<World>, acts: seq<Action> | IsRun(c, ws, acts) && Initial(ws[0]) ensures ws[|acts|].lost == {} {
        LosesOnlyIf(c, ws, acts, |acts|);
      }
    }
  }
}
