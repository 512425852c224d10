// How late a vehicle can be: the bounds on arrival are the least that hold of all runs of
// the traffic world, and with a minimum green of one tick there is no bound at all.
module Delays {
  import opened Options
  import opened Signals
  import opened Traffic
  import opened Journeys
  import opened Crowds
  import Arrival
  import Dijkstra

  // Reachable worlds -----------------------------------------------------------------------

  // The world after these actions from an empty one.
  ghost predicate LeadsTo(net: Network, u: World, acts: seq<Action>, w: World) {
    Initial(net, u) && Conserved(net, u) && Traffic.Run(net, u, acts) == w
  }

  ghost predicate Reachable(net: Network, w: World) {
    exists u, acts :: LeadsTo(net, u, acts, w)
  }

  lemma ActReachable(net: Network, w: World, a: Action)
    requires Conserved(net, w) && Reachable(net, w) && Enabled(w, a)
    ensures Reachable(net, Act(net, w, a))
  {
    var u, acts :| LeadsTo(net, u, acts, w);
    assert (acts + [a])[..|acts|] == acts;
    RunLast(net, u, acts + [a]);
    assert LeadsTo(net, u, acts + [a], Act(net, w, a));
  }

  lemma {:induction false} FinishReachable(net: Network, w: World, i: nat)
    requires Conserved(net, w) && Reachable(net, w) && i < |w.vehicles|
    ensures Reachable(net, Finish(net, w, i))
    decreases Rank(w.vehicles[i].pc)
  {
    if !w.vehicles[i].pc.Idle? {
      SectionConserves(net, w, i);
      ActReachable(net, w, Section(i));
      FinishReachable(net, NextSection(net, w, i), i);
    }
  }

  // A move is a few actions.
  lemma MadeReachable(net: Network, w: World, m: Move)
    requires Calm(net, w) && Reachable(net, w)
    ensures Reachable(net, Made(net, w, m))
  {
    if CanMove(w, m) {
      match m {
        case Drive(i) =>
          SectionConserves(net, w, i);
          ActReachable(net, w, Section(i));
          FinishReachable(net, NextSection(net, w, i), i);
        case Change(at) => ActReachable(net, w, Signaled(at));
        case Update => ActReachable(net, w, Congestion);
        case Join(to, path) => ActReachable(net, w, Register(to, path));
      }
    }
  }

  // The first morning ------------------------------------------------------------------------

  function Traveller(t: Town): Vehicle {
    NewVehicle(t.hops, Arrival.Line(t.hops))
  }

  // What all the worlds on the way to the first morning have.
  ghost predicate Dusk(t: Town, w: World) {
    && Reachable(Net(t), w) && Calm(Net(t), w) && InRange(w)
    && (forall k :: k in w.signals <==> 0 <= k <= t.hops)
    && (forall r :: r in Roads(t) ==> r in w.roads && w.roads[r].road == Roads(t)[r].road)
    && SideTraffic(t, w) && w.vehicles[0] == Traveller(t)
  }

  ghost predicate StandsAt(w: World, k: int, c: Clock) {
    k in w.signals && Shows(w.signals[k], c)
  }

  function Dawning(t: Town): Clock {
    Clock(GreenNS, t.cfg.minGreen)
  }

  // The first a of the crowd have come and stand in the queues.
  ghost predicate Gathered(t: Town, w: World, a: nat)
    requires Fit(t) && a <= |Comers(t)|
  {
    && Dusk(t, w) && |w.vehicles| == a + 1
    && forall b :: 0 <= b < a ==> Queued(t, w.vehicles[b + 1], Comers(t)[b])
  }

  ghost predicate Queued(t: Town, v: Vehicle, s: int) {
    Comes(t, v, s) && IsAt(v, Queue(s, EW))
  }

  lemma Opening(t: Town) returns (w: World)
    requires Fit(t)
    ensures Gathered(t, w, 0) && forall k :: 0 <= k <= t.hops ==> StandsAt(w, k, Dawning(t))
  {
    var u := World([], map k: int | 0 <= k <= t.hops :: FirstSignal(t, k), Roads(t));
    CountersExact(Net(t), u, []);
    assert LeadsTo(Net(t), u, [], u);
    var m := Join(t.hops, Arrival.Line(t.hops));
    MadeReachable(Net(t), u, m);
    MadeIsCalm(Net(t), u, m);
    w := Made(Net(t), u, m);
    assert w.vehicles == [Traveller(t)];
  }

  function FirstSignal(t: Town, k: int): Signal {
    NewSignal(t.cfg)
  }

  // The moves on the way: another of the crowd comes or steps, or a signal ticks.
  ghost predicate Early(t: Town, m: Move) {
    match m
    case Drive(i) => i > 0
    case Change(_) => true
    case Update => false
    case Join(to, path) => to == Side(t) && exists s :: 0 <= s <= t.hops && path == [s, Side(t)]
  }

  lemma SideKeeps(t: Town, w: World, m: Move)
    requires Fit(t) && Calm(Net(t), w) && SideTraffic(t, w) && Early(t, m)
    ensures SideTraffic(t, Made(Net(t), w, m)) && Made(Net(t), w, m).vehicles[0] == w.vehicles[0]
  {
    var net, u := Net(t), Made(Net(t), w, m);
    MadeCounts(net, w, m);
    MadeDrives(net, w, m, 0);
    forall i | 1 <= i < |u.vehicles| ensures FromSide(t, u.vehicles[i]) {
      if i < |w.vehicles| {
        MadeDrives(net, w, m, i);
        assert FromSide(t, w.vehicles[i]);
      }
    }
  }

  lemma DuskKeeps(t: Town, w: World, m: Move)
    requires Fit(t) && Dusk(t, w) && Early(t, m)
    ensures Dusk(t, Made(Net(t), w, m))
  {
    MadeReachable(Net(t), w, m);
    MadeIsCalm(Net(t), w, m);
    MadeKeeps(Net(t), w, m);
    SideKeeps(t, w, m);
  }

  lemma {:induction false} Gather(t: Town, a: nat) returns (w: World)
    requires Fit(t) && a <= |Comers(t)|
    ensures Gathered(t, w, a) && forall k :: 0 <= k <= t.hops ==> StandsAt(w, k, Dawning(t))
  {
    if a == 0 {
      w := Opening(t);
    } else {
      var u := Gather(t, a - 1);
      w := OneComes(t, u, a - 1);
    }
  }

  // The next of the crowd comes, finds the side street red and queues.
  lemma OneComes(t: Town, w: World, a: nat) returns (v: World)
    requires Fit(t) && a < |Comers(t)| && Gathered(t, w, a)
    requires forall k :: 0 <= k <= t.hops ==> StandsAt(w, k, Dawning(t))
    ensures Gathered(t, v, a + 1) && forall k :: 0 <= k <= t.hops ==> StandsAt(v, k, Dawning(t))
  {
    var net := Net(t);
    var m := Join(Side(t), [Comers(t)[a], Side(t)]);
    assert Early(t, m);
    DuskKeeps(t, w, m);
    MadeCounts(net, w, m);
    var u := Made(net, w, m);
    DuskKeeps(t, u, Drive(a + 1));
    v := Made(net, u, Drive(a + 1));
    MadeCounts(net, u, Drive(a + 1));
    forall b | 0 <= b < a + 1 ensures Queued(t, v.vehicles[b + 1], Comers(t)[b]) {
      if b < a {
        assert Queued(t, w.vehicles[b + 1], Comers(t)[b]);
        MadeDrives(net, u, Drive(a + 1), b + 1);
      } else {
        assert StandsAt(w, Comers(t)[a], Dawning(t));
        NewcomerQueues(t, u, a);
      }
    }
    forall k | 0 <= k <= t.hops ensures StandsAt(v, k, Dawning(t)) {
      assert StandsAt(w, k, Dawning(t));
      MadeChanges(net, u, Drive(a + 1), k);
    }
  }

  lemma NewcomerQueues(t: Town, u: World, a: nat)
    requires Fit(t) && a < |Comers(t)| && Calm(Net(t), u) && |u.vehicles| == a + 2
    requires var s := Comers(t)[a];
      u.vehicles[a + 1] == NewVehicle(Side(t), [s, Side(t)]) && StandsAt(u, s, Dawning(t))
    ensures var v := Made(Net(t), u, Drive(a + 1));
      |v.vehicles| == a + 2 && Queued(t, v.vehicles[a + 1], Comers(t)[a])
  {
    MadeCounts(Net(t), u, Drive(a + 1));
    MadeDrives(Net(t), u, Drive(a + 1), a + 1);
  }

  // With the whole crowd in the queues, each signal is let tick to where it shall begin.
  function Position(cfg: Config, c: Clock): int {
    match c.phase
    case GreenNS => cfg.minGreen - c.remaining
    case YellowNS => cfg.minGreen + cfg.yellow - c.remaining
    case GreenEW => cfg.minGreen + cfg.yellow + cfg.maxGreen - c.remaining
    case YellowEW => cfg.minGreen + 2 * cfg.yellow + cfg.maxGreen - c.remaining
  }

  lemma {:induction false} WindTo(t: Town, w: World, k: int, c: Clock) returns (v: World)
    requires Fit(t) && Gathered(t, w, |Comers(t)|) && 0 <= k <= t.hops && StandsAt(w, k, Dawning(t))
    requires InTime(t.cfg, c)
    ensures Gathered(t, v, |Comers(t)|) && StandsAt(v, k, c) && v == w.(signals := w.signals[k := v.signals[k]])
    decreases Position(t.cfg, c)
  {
    if Position(t.cfg, c) <= 0 {
      v := w;
    } else {
      var before := Backward(t.cfg, c);
      var u := WindTo(t, w, k, before);
      WindOnce(t, u, k, before);
      v := Made(Net(t), u, Change(k));
    }
  }

  lemma WindOnce(t: Town, u: World, k: int, c: Clock)
    requires Fit(t) && Gathered(t, u, |Comers(t)|) && 0 <= k <= t.hops && StandsAt(u, k, c) && InTime(t.cfg, c)
    ensures var v := Made(Net(t), u, Change(k));
      && Gathered(t, v, |Comers(t)|) && StandsAt(v, k, Forward(t.cfg, c))
      && v == u.(signals := u.signals[k := v.signals[k]])
  {
    DuskKeeps(t, u, Change(k));
    var ps := Comers(t);
    forall a | 0 <= a < |ps| && ps[a] == k
      ensures IsAt(u.vehicles[|u.vehicles| - |ps| + a], Queue(k, EW))
    {
      assert Queued(t, u.vehicles[a + 1], ps[a]);
    }
    CrowdIsRead(t, u, k);
    CrowdedTick(t.cfg, u.signals[k], c);
  }

  lemma {:induction false} WindAll(t: Town, stops: nat) returns (w: World)
    requires Fit(t) && stops <= t.hops + 1
    ensures Gathered(t, w, |Comers(t)|)
    ensures forall k :: 0 <= k < stops ==> OnSchedule(t, w, k, 0)
    ensures forall k :: stops <= k <= t.hops ==> StandsAt(w, k, Dawning(t))
  {
    if stops == 0 {
      w := Gather(t, |Comers(t)|);
    } else {
      var u := WindAll(t, stops - 1);
      var k := stops - 1;
      assert StandsAt(u, k, Dawning(t));
      w := WindTo(t, u, k, ClockAt(t.cfg, t.start(k), 0));
      forall j | 0 <= j < stops ensures OnSchedule(t, w, j, 0) {
        assert j < k ==> OnSchedule(t, u, j, 0);
      }
      forall j | stops <= j <= t.hops ensures StandsAt(w, j, Dawning(t)) {
        assert StandsAt(u, j, Dawning(t));
      }
    }
  }

  // A reachable world in which the run can begin.
  lemma FirstMorning(t: Town) returns (w: World)
    requires Fit(t)
    ensures Dusk(t, w) && Morning(t, w, 0)
  {
    w := WindAll(t, t.hops + 1);
    forall a | 0 <= a < |Comers(t)| ensures Comes(t, NthComer(t, w, a), Comers(t)[a]) {
      assert Queued(t, w.vehicles[a + 1], Comers(t)[a]);
    }
  }

  // The run from there -------------------------------------------------------------------------

  ghost function Day(t: Town, w: World, n: nat): (u: World)
    requires Fit(t) && Morning(t, w, 0)
    ensures Morning(t, u, n)
  {
    if n == 0 then w
    else
      var v := Day(t, w, n - 1);
      DayTicks(t, v, n - 1);
      Night(t, v, n - 1)
  }

  ghost function Night(t: Town, v: World, n: nat): World
    requires Fit(t) && Morning(t, v, n)
  {
    var ms := Moves(t, |v.vehicles|, n);
    Trace(Net(t), v, ms)[|ms|]
  }

  lemma DayTicks(t: Town, v: World, n: nat)
    requires Fit(t) && Morning(t, v, n)
    ensures var ms := Moves(t, |v.vehicles|, n);
      Tick(t, Trace(Net(t), v, ms), ms, n)
    ensures Morning(t, Night(t, v, n), n + 1)
  {
    var ms := Moves(t, |v.vehicles|, n);
    TraceIsCourse(Net(t), v, ms);
    NextMorning(t, Trace(Net(t), v, ms), ms, n);
  }

  ghost function MovesOf(t: Town, w: World, n: nat): seq<Move>
    requires Fit(t) && Morning(t, w, 0)
  {
    Moves(t, |Day(t, w, n).vehicles|, n)
  }

  ghost function RunFrom(t: Town, w: World): Journeys.Run
    requires Fit(t) && Morning(t, w, 0)
  {
    Journeys.Run((n: nat) => MovesOf(t, w, n), (n: nat) => Trace(Net(t), Day(t, w, n), MovesOf(t, w, n)))
  }

  lemma RunTicks(t: Town, w: World, n: nat)
    requires Fit(t) && Morning(t, w, 0)
    ensures var r := RunFrom(t, w);
      && Dawn(r, n) == Day(t, w, n) && Tick(t, r.ws(n), r.ms(n), n) && LockedAt(Net(t), r, n)
  {
    var r, net, count := RunFrom(t, w), Net(t), |Day(t, w, n).vehicles|;
    DayTicks(t, Day(t, w, n), n);
    UpdatesOnce(t, count, n);
    forall i: nat | i < count ensures Once(r.ms(n), Drive(i)) {
      DrivesOnce(t, count, n, i);
    }
    forall k | k in Dawn(r, n).signals ensures BeatsAt(r, k, n) {
      var q := ChangesOnce(t, count, n, k);
    }
  }

  // When vehicle 0 steps, and when the signal of stop k ticks.
  lemma Places(t: Town, w: World, n: nat, k: nat)
    requires Fit(t) && Morning(t, w, 0) && k <= t.hops
    ensures var ms := RunFrom(t, w).ms(n);
      Place(ms, Change(k)) < Place(ms, Drive(0)) <==> t.late(n, k)
    ensures var ms := RunFrom(t, w).ms(n);
      Place(ms, Drive(0)) < Place(ms, Change(k)) <==> !t.late(n, k)
  {
    var ms, count := RunFrom(t, w).ms(n), |Day(t, w, n).vehicles|;
    DrivesOnce(t, count, n, 0);
    var q := ChangesOnce(t, count, n, k);
    assert Once(ms, Drive(0)) && Once(ms, Change(k));
    assert ms[Place(ms, Drive(0))] == Drive(0) && ms[Place(ms, Change(k))] == Change(k);
  }

  // The traveller sets out in it.
  lemma TravellerSetsOut(t: Town, w: World)
    requires Fit(t) && Morning(t, w, 0) && Dusk(t, w)
    ensures var r := RunFrom(t, w);
      LockStep(Net(t), r) && StepsOnce(Net(t), r, 0) && SetsOut(Net(t), r, 0, Arrival.Line(t.hops), t.longest)
  {
    var r, path := RunFrom(t, w), Arrival.Line(t.hops);
    forall n: nat ensures LockedAt(Net(t), r, n) {
      RunTicks(t, w, n);
    }
    RunTicks(t, w, 0);
    LockStepStepsOnce(Net(t), r, 0);
    forall k | 0 <= k < |path|
      ensures path[k] in w.signals && Timed(t.cfg, w.signals[path[k]]) && Beats(r, path[k])
    {
      assert OnSchedule(t, w, k, 0);
      forall n: nat ensures BeatsAt(r, k, n) {
        RunTicks(t, w, n);
        assert OnSchedule(t, Day(t, w, n), k, n);
      }
    }
    forall k | 0 <= k < |path| - 1 ensures RoadBetween(Net(t), w, path[k], path[k + 1], t.longest) {
      RoadUp(t, w.roads, k);
      assert w.roads[k].(congestion := 10).road == Roads(t)[k].road;
      EvenRoad(t, w.roads[k].(congestion := 10));
    }
  }

  // However congested, the road takes its time.
  lemma EvenRoad(t: Town, r: RoadState)
    requires Fit(t) && r.road == Dijkstra.Road(t.longest as real, 0.0, 2)
    ensures TravelTicks(r) == t.longest
  {
  }

  lemma RoadUp(t: Town, roads: map<int, RoadState>, k: nat)
    requires k < t.hops
    ensures k in Net(t).adj && FirstLink(Net(t).adj[k], k + 1) == Some(k) && k in Roads(t)
    ensures Roads(t)[k].road == Dijkstra.Road(t.longest as real, 0.0, 2)
  {
    assert Net(t).adj[k] == LinksFrom(t, k);
  }

  // It is shown stop k as the schedule has it, and offered the longest hop.
  ghost function ShownPhase(t: Town, k: nat, n: nat): Phase
    requires Fit(t)
  {
    ClockAt(t.cfg, t.start(k), if t.late(n, k) then n + 1 else n).phase
  }

  lemma TravellerSees(t: Town, w: World, k: nat, n: nat)
    requires Fit(t) && Morning(t, w, 0) && Dusk(t, w) && k <= t.hops
    ensures TripOf(Net(t), RunFrom(t, w), 0).seen(k)(n) == ShownPhase(t, k, n)
  {
    var r, path := RunFrom(t, w), Arrival.Line(t.hops);
    TravellerSetsOut(t, w);
    SignalInRun(Net(t), r, 0, path, t.longest, k, n);
    Places(t, w, n, k);
    var m := if t.late(n, k) then n + 1 else n;
    RunTicks(t, w, m);
    assert OnSchedule(t, Day(t, w, m), k, m);
  }

  // The roads are still there when it steps.
  lemma RoadsStay(t: Town, w: World, n: nat, k: nat)
    requires Fit(t) && Morning(t, w, 0) && Dusk(t, w) && k < t.hops
    ensures var roads := Moment(RunFrom(t, w), 0, n).roads;
      k in roads && roads[k].road == Dijkstra.Road(t.longest as real, 0.0, 2)
  {
    var r, path := RunFrom(t, w), Arrival.Line(t.hops);
    TravellerSetsOut(t, w);
    RunKeeps(Net(t), r, 0, path, t.longest, n);
    assert DrivesAt(Net(t), r, 0, n);
    TickKeeps(Net(t), r.ws(n), r.ms(n), 0, 0, Place(r.ms(n), Drive(0)));
    RunTicks(t, w, 0);
    RoadUp(t, w.roads, k);
  }

  lemma HopUp(t: Town, roads: map<int, RoadState>, v: Vehicle)
    requires Fit(t) && v.path == Arrival.Line(t.hops) && v.idx < t.hops
    requires v.idx in roads && roads[v.idx].road == Dijkstra.Road(t.longest as real, 0.0, 2)
    ensures HopAt(Net(t), roads, v) == Some((v.idx, t.longest))
  {
    RoadUp(t, roads, v.idx);
    EvenRoad(t, roads[v.idx]);
  }

  lemma TravellerIsSlow(t: Town, w: World, n: nat)
    requires Fit(t) && Morning(t, w, 0) && Dusk(t, w)
    ensures Arrival.SlowAt(TripOf(Net(t), RunFrom(t, w), 0), t.longest, n)
  {
    var r := RunFrom(t, w);
    TravellerSetsOut(t, w);
    RunKeeps(Net(t), r, 0, Arrival.Line(t.hops), t.longest, n);
    var v := VehicleAt(r, 0, n);
    if v.idx + 1 < |v.path| {
      RoadsStay(t, w, n, v.idx);
      HopUp(t, Moment(r, 0, n).roads, v);
    }
  }

  // Late runs ----------------------------------------------------------------------------------

  // Where the schedule stands j ticks on: yellow, the side's green, yellow, then NS green.
  lemma {:induction false} ClockAfter(cfg: Config, start: nat, j: nat)
    requires Sane(cfg) && j <= Arrival.Cycle(cfg)
    ensures var c := ClockAt(cfg, start, start + j);
      if j < cfg.yellow then c == Clock(YellowNS, cfg.yellow - j)
      else if j < cfg.yellow + cfg.maxGreen then c == Clock(GreenEW, cfg.yellow + cfg.maxGreen - j)
      else if j < Arrival.Cycle(cfg) then c == Clock(YellowEW, Arrival.Cycle(cfg) - j)
      else c.phase == GreenNS
  {
    if j > 0 {
      ClockAfter(cfg, start, j - 1);
      ClockForward(cfg, start, start + (j - 1));
    }
  }

  // What a stop can cost: in a changing order a tick more.
  function Delay(cfg: Config, ordered: bool): nat
    requires Sane(cfg)
  {
    Arrival.Cycle(cfg) + if ordered then 0 else 1
  }

  // The traveller gets to stop k at the beginning of its yellow and steps before the
  // signals in every tick; or it gets there in the last tick of a green and steps after
  // the signal in that tick only.
  function LateTown(cfg: Config, hops: nat, longest: nat, ordered: bool): Town
    requires Sane(cfg)
  {
    var wait := Delay(cfg, ordered);
    Town(cfg, hops, longest,
         k => (if k < 0 then 0 else Arrival.Due(k, wait, longest)) + if ordered then 0 else 1,
         (n, k) => !ordered && k >= 0 && n == Arrival.Due(k, wait, longest))
  }

  lemma ShownLate(cfg: Config, hops: nat, longest: nat, ordered: bool, k: nat, n: nat)
    requires Sane(cfg) && longest >= 1
    requires Arrival.Due(k, Delay(cfg, ordered), longest) <= n
    requires n <= Arrival.Due(k, Delay(cfg, ordered), longest) + Delay(cfg, ordered)
    ensures ShownPhase(LateTown(cfg, hops, longest, ordered), k, n) == GreenNS <==>
      n == Arrival.Due(k, Delay(cfg, ordered), longest) + Delay(cfg, ordered)
  {
    var t := LateTown(cfg, hops, longest, ordered);
    var due := Arrival.Due(k, Delay(cfg, ordered), longest);
    ClockAfter(cfg, t.start(k), if ordered then n - due else if n == due then 0 else n - due - 1);
  }

  lemma LateStop(t: Town, w: World, ordered: bool, k: nat)
    requires Fit(t) && t == LateTown(t.cfg, t.hops, t.longest, ordered) && Morning(t, w, 0) && Dusk(t, w) && k < t.hops
    ensures Arrival.LateGreen(TripOf(Net(t), RunFrom(t, w), 0).seen(k), k, Delay(t.cfg, ordered), t.longest)
  {
    var wait := Delay(t.cfg, ordered);
    var due := Arrival.Due(k, wait, t.longest);
    var seen := TripOf(Net(t), RunFrom(t, w), 0).seen(k);
    forall n: nat | due <= n <= due + wait ensures PhaseAllows(seen(n), NS) <==> n == due + wait {
      TravellerSees(t, w, k, n);
      ShownLate(t.cfg, t.hops, t.longest, ordered, k, n);
    }
  }

  // The tick before the bound.
  function Last(cfg: Config, hops: nat, longest: nat, ordered: bool): nat
    requires Sane(cfg)
  {
    Arrival.Due(hops, Delay(cfg, ordered), longest)
  }

  // In such a run the traveller has not arrived by then.
  lemma LateRun(t: Town, w: World, ordered: bool)
    requires Fit(t) && t == LateTown(t.cfg, t.hops, t.longest, ordered) && Morning(t, w, 0) && Dusk(t, w)
    ensures !VehicleAt(RunFrom(t, w), 0, Last(t.cfg, t.hops, t.longest, ordered)).state.Arrived?
  {
    var r := RunFrom(t, w);
    var trip := TripOf(Net(t), r, 0);
    TravellerSetsOut(t, w);
    RunMakesTrip(Net(t), r, 0, Arrival.Line(t.hops), t.longest);
    forall n: nat ensures Arrival.SlowAt(trip, t.longest, n) {
      TravellerIsSlow(t, w, n);
    }
    forall k: nat | k < t.hops ensures Arrival.LateGreen(trip.seen(k), k, Delay(t.cfg, ordered), t.longest) {
      LateStop(t, w, ordered, k);
    }
    Arrival.LateTrip(trip, t.hops, Dawn(r, 0).signals.Keys, t.longest, Delay(t.cfg, ordered));
  }

  // With a minimum green of one tick: the traveller steps after the signal of stop 0 in
  // the one tick of each green, and before it otherwise.
  function StuckTown(cfg: Config, hops: nat, longest: nat): Town
    requires Sane(cfg)
  {
    Town(cfg, hops, longest, k => 0, (n, k) => n >= 0 && ClockAt(cfg, 0, n).phase.GreenNS?)
  }

  lemma NeverShown(cfg: Config, hops: nat, longest: nat, n: nat)
    requires Sane(cfg) && longest >= 1 && cfg.minGreen == 1
    ensures ShownPhase(StuckTown(cfg, hops, longest), 0, n) != GreenNS
  {
    ClockForward(cfg, 0, n);
  }

  lemma StuckRun(t: Town, w: World, n: nat)
    requires Fit(t) && t == StuckTown(t.cfg, t.hops, t.longest) && t.cfg.minGreen == 1 && t.hops >= 1
    requires Morning(t, w, 0) && Dusk(t, w)
    ensures !VehicleAt(RunFrom(t, w), 0, n).state.Arrived?
  {
    var r, path := RunFrom(t, w), Arrival.Line(t.hops);
    var trip := TripOf(Net(t), r, 0);
    TravellerSetsOut(t, w);
    RunMakesTrip(Net(t), r, 0, path, t.longest);
    forall m: nat ensures !PhaseAllows(trip.seen(0)(m), NS) {
      TravellerSees(t, w, 0, m);
      NeverShown(t.cfg, t.hops, t.longest, m);
    }
    Arrival.Waits(trip, path, Dawn(r, 0).signals.Keys, t.longest, 0, 0, n);
  }

  // The bounds -----------------------------------------------------------------------------------

  // A vehicle sets out to make so many hops, in a run from a reachable world in which all
  // that is there steps once a tick, at each stop in a fixed order if `ordered`.
  ghost predicate UnderWay(net: Network, r: Journeys.Run, i: nat, path: seq<int>, longest: nat, ordered: bool) {
    && LockStep(net, r) && Reachable(net, Dawn(r, 0)) && SetsOut(net, r, i, path, longest)
    && (ordered ==> exists late: int -> bool :: FixedOrder(r, i, path, late))
  }

  // Every such vehicle has arrived after so many ticks.
  ghost predicate AllArrive(cfg: Config, hops: nat, longest: nat, ordered: bool, limit: nat) {
    forall net: Network, r: Journeys.Run, i: nat, path: seq<int> ::
      UnderWay(net, r, i, path, longest, ordered) && net.cfg == cfg && |path| == hops + 1 ==>
        VehicleAt(r, i, limit).state.Arrived?
  }

  lemma TravellerIsUnderWay(t: Town, w: World, ordered: bool)
    requires Fit(t) && Morning(t, w, 0) && Dusk(t, w)
    requires ordered ==> forall n: nat, k :: !t.late(n, k)
    ensures UnderWay(Net(t), RunFrom(t, w), 0, Arrival.Line(t.hops), t.longest, ordered)
  {
    var r, path := RunFrom(t, w), Arrival.Line(t.hops);
    TravellerSetsOut(t, w);
    RunTicks(t, w, 0);
    if ordered {
      var late := (k: int) => false;
      forall n: nat, k: nat | k < |path|
        ensures Place(r.ms(n), Change(path[k])) < Place(r.ms(n), Drive(0)) <==> late(path[k])
      {
        Places(t, w, n, k);
      }
      assert FixedOrder(r, 0, path, late);
    }
  }

  // Once arrived, it stays so.
  lemma ArrivedStays(net: Network, r: Journeys.Run, i: nat, path: seq<int>, longest: nat, n: nat, m: nat)
    requires StepsOnce(net, r, i) && SetsOut(net, r, i, path, longest) && n <= m && VehicleAt(r, i, n).state.Arrived?
    ensures VehicleAt(r, i, m).state.Arrived?
  {
    RunMakesTrip(net, r, i, path, longest);
    Arrival.StaysArrived(TripOf(net, r, i), path, Dawn(r, 0).signals.Keys, longest, n, m);
  }

  // A run in which the vehicle has not arrived refutes the limit.
  lemma Refutes(t: Town, w: World, ordered: bool, end: nat, limit: nat)
    requires Fit(t) && Morning(t, w, 0) && Dusk(t, w) && limit <= end
    requires UnderWay(Net(t), RunFrom(t, w), 0, Arrival.Line(t.hops), t.longest, ordered)
    requires !VehicleAt(RunFrom(t, w), 0, end).state.Arrived?
    ensures !AllArrive(t.cfg, t.hops, t.longest, ordered, limit)
  {
    var net, r, path := Net(t), RunFrom(t, w), Arrival.Line(t.hops);
    TravellerSetsOut(t, w);
    if VehicleAt(r, 0, limit).state.Arrived? {
      ArrivedStays(net, r, 0, path, t.longest, limit, end);
    }
    assert UnderWay(net, r, 0, path, t.longest, ordered) && net.cfg == t.cfg && |path| == t.hops + 1;
  }

  lemma TooEarly(cfg: Config, hops: nat, longest: nat, ordered: bool, limit: nat)
    requires Sane(cfg) && longest >= 1 && limit <= Last(cfg, hops, longest, ordered)
    ensures !AllArrive(cfg, hops, longest, ordered, limit)
  {
    var t := LateTown(cfg, hops, longest, ordered);
    var w := FirstMorning(t);
    TravellerIsUnderWay(t, w, ordered);
    LateRun(t, w, ordered);
    Refutes(t, w, ordered, Last(cfg, hops, longest, ordered), limit);
  }

  // In a fixed order: all vehicles have arrived at a limit if and only if it is at least
  // hops * (maxGreen + 2 * yellow + longest) + 1.
  lemma InOrderBoundIsLeast(cfg: Config, hops: nat, longest: nat, limit: nat)
    requires Sane(cfg) && longest >= 1
    ensures AllArrive(cfg, hops, longest, true, limit) <==> limit >= hops * (Arrival.Cycle(cfg) + longest) + 1
  {
    if limit >= hops * (Arrival.Cycle(cfg) + longest) + 1 {
      forall net: Network, r: Journeys.Run, i: nat, path: seq<int>
        | UnderWay(net, r, i, path, longest, true) && net.cfg == cfg && |path| == hops + 1
        ensures VehicleAt(r, i, limit).state.Arrived?
      {
        var late: int -> bool :| FixedOrder(r, i, path, late);
        LockStepStepsOnce(net, r, i);
        VehicleArrivesInOrder(net, r, i, path, longest, late, limit);
      }
    } else {
      Arrival.DueIsProduct(hops, Delay(cfg, true), longest);
      TooEarly(cfg, hops, longest, true, limit);
    }
  }

  // In any order: if and only if the minimum green is at least two ticks (or there is no
  // hop to make) and the limit allows another tick for each hop.
  lemma AnyOrderBoundIsLeast(cfg: Config, hops: nat, longest: nat, limit: nat)
    requires Sane(cfg) && longest >= 1
    ensures AllArrive(cfg, hops, longest, false, limit) <==>
      (hops == 0 || cfg.minGreen >= 2) && limit >= hops * (Arrival.Cycle(cfg) + 1 + longest) + 1
  {
    if hops > 0 && cfg.minGreen == 1 {
      var net, r := NeverArrives(cfg, hops, longest);
      assert UnderWay(net, r, 0, Arrival.Line(hops), longest, false);
    } else if limit >= hops * (Arrival.Cycle(cfg) + 1 + longest) + 1 {
      forall net: Network, r: Journeys.Run, i: nat, path: seq<int>
        | UnderWay(net, r, i, path, longest, false) && net.cfg == cfg && |path| == hops + 1
        ensures VehicleAt(r, i, limit).state.Arrived?
      {
        LockStepStepsOnce(net, r, i);
        if hops == 0 {
          ArrivesAtOnce(net, r, i, path, longest, limit);
        } else {
          VehicleArrivesInAnyOrder(net, r, i, path, longest, limit);
        }
      }
    } else {
      Arrival.DueIsProduct(hops, Delay(cfg, false), longest);
      TooEarly(cfg, hops, longest, false, limit);
    }
  }

  lemma ArrivesAtOnce(net: Network, r: Journeys.Run, i: nat, path: seq<int>, longest: nat, n: nat)
    requires StepsOnce(net, r, i) && SetsOut(net, r, i, path, longest) && |path| == 1 && n >= 1
    ensures VehicleAt(r, i, n).state.Arrived?
  {
    RunMakesTrip(net, r, i, path, longest);
    assert Arrival.StepsAt(TripOf(net, r, i), Dawn(r, 0).signals.Keys, longest, 0);
    ArrivedStays(net, r, i, path, longest, 1, n);
  }

  // With a minimum green of one tick, for any number of hops, there is a run in which the
  // vehicle steps every tick and never arrives.
  lemma NeverArrives(cfg: Config, hops: nat, longest: nat) returns (net: Network, r: Journeys.Run)
    requires Sane(cfg) && cfg.minGreen == 1 && hops >= 1 && longest >= 1
    ensures net.cfg == cfg && UnderWay(net, r, 0, Arrival.Line(hops), longest, false)
    ensures forall n: nat :: !VehicleAt(r, 0, n).state.Arrived?
  {
    var t := StuckTown(cfg, hops, longest);
    var w := FirstMorning(t);
    net, r := Net(t), RunFrom(t, w);
    TravellerIsUnderWay(t, w, false);
    forall n: nat ensures !VehicleAt(r, 0, n).state.Arrived? {
      StuckRun(t, w, n);
    }
  }
}
