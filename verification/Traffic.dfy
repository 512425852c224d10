// Vehicles on the road network. A vehicle's step takes several locks one after
// the other; each locked section is one action here, and the actions of all
// vehicles, signals and the congestion updater interleave freely.
module Traffic {
  import opened Options
  import opened Signals
  import Dijkstra

  datatype VehicleState = AtIntersection | WaitingSignal | OnRoad | Arrived

  // Where a vehicle's step stands between two locked sections.
  datatype Pc = Idle | Leaving | Looking | Dequeuing | Routing | Entering(road: int, ticks: int) | Enqueuing

  datatype Vehicle = Vehicle(to: int, state: VehicleState, at: int, path: seq<int>, idx: nat,
                             onRoad: int, remainingRoad: int, queued: bool, group: Group, pc: Pc)

  datatype RoadState = RoadState(road: Dijkstra.Road, congestion: int, occupancy: int)

  datatype World = World(vehicles: seq<Vehicle>, signals: map<int, Signal>, roads: map<int, RoadState>)

  datatype Link = Link(to: int, road: Option<int>)

  datatype Network = Network(cfg: Config, adj: map<int, seq<Link>>)

  // Roads -------------------------------------------------------------------------

  function FirstLink(links: seq<Link>, to: int): Option<int> {
    if links == [] then None
    else if links[0].to == to && links[0].road.Some? then links[0].road
    else FirstLink(links[1..], to)
  }

  function Ceil(x: real): int {
    -((-x).Floor)
  }

  function TravelTicks(r: RoadState): int {
    var ticks := Ceil(Dijkstra.WeightMinutes(r.road.(congestion := r.congestion)));
    if ticks < 1 then 1 else ticks
  }

  // The whole ticks of a road: its minutes rounded up, at least one.
  predicate RoundsUp(minutes: real, ticks: int) {
    ticks >= 1 && minutes <= ticks as real && (minutes > 0.0 ==> (ticks as real) < minutes + 1.0)
                                           && (minutes <= 0.0 ==> ticks == 1)
  }

  lemma TicksRoundUp(r: RoadState)
    ensures RoundsUp(Dijkstra.WeightMinutes(r.road.(congestion := r.congestion)), TravelTicks(r))
  {
  }

  // The k-th link is the first one with a road to that node.
  ghost predicate FirstTo(links: seq<Link>, to: int, k: int) {
    && 0 <= k < |links| && links[k].to == to && links[k].road.Some?
    && forall j :: 0 <= j < k ==> links[j].to != to || links[j].road.None?
  }

  // The road for a hop and its current travel time.
  function RoadForHop(net: Network, roads: map<int, RoadState>, from: int, to: int): Option<(int, int)> {
    var link := FirstLink(if from in net.adj then net.adj[from] else [], to);
    if link.None? || link.value !in roads then None
    else Some((link.value, TravelTicks(roads[link.value])))
  }

  function ClampCongestion(v: int): int {
    if v < 1 then 1 else if v > 10 then 10 else v
  }

  // What the vehicles on a road make of its congestion.
  function Estimate(occupancy: int): int {
    ClampCongestion(2 + occupancy / 5)
  }

  // Two, one more for every five vehicles, ten at most.
  lemma EstimateMeans(occupancy: nat)
    ensures occupancy < 5 ==> Estimate(occupancy) == 2
    ensures Estimate(occupancy + 5) == if Estimate(occupancy) == 10 then 10 else Estimate(occupancy) + 1
    ensures 2 <= Estimate(occupancy) <= 10 && (Estimate(occupancy) == 10 <==> occupancy >= 40)
  {
  }

  function Congest(roads: map<int, RoadState>): map<int, RoadState> {
    map r | r in roads :: roads[r].(congestion := Estimate(roads[r].occupancy))
  }

  // One vehicle -------------------------------------------------------------------

  function HopGroup(v: Vehicle): Group
    requires v.idx + 1 < |v.path|
  {
    MovementDirection(v.path[v.idx], v.path[v.idx + 1])
  }

  // The checks before a vehicle looks at its signal.
  function Decide(v: Vehicle, signals: map<int, Signal>): Vehicle
    requires v.idx < |v.path|
  {
    if v.at == v.to then v.(state := Arrived, pc := Idle)
    else if v.idx >= |v.path| - 1 || v.path[v.idx] !in signals then v.(pc := Idle)
    else v.(pc := Looking)
  }

  function Begin(v: Vehicle, signals: map<int, Signal>): Vehicle
    requires v.idx < |v.path|
  {
    if v.state.Arrived? then v
    else if v.state.OnRoad? then
      var u := v.(remainingRoad := v.remainingRoad - 1);
      if u.remainingRoad > 0 then u else u.(pc := Leaving)
    else Decide(v, signals)
  }

  function OffRoad(v: Vehicle): Vehicle
    requires v.idx < |v.path|
  {
    v.(onRoad := 0, at := v.path[v.idx], state := AtIntersection, queued := false)
  }

  function Look(v: Vehicle, p: Phase): Vehicle
    requires v.idx + 1 < |v.path|
  {
    if PhaseAllows(p, HopGroup(v)) then v.(pc := if v.queued then Dequeuing else Routing)
    else if v.queued then v.(state := WaitingSignal, pc := Idle)
    else v.(pc := Enqueuing)
  }

  function Enter(v: Vehicle): Vehicle
    requires v.pc.Entering?
  {
    v.(onRoad := v.pc.road, remainingRoad := v.pc.ticks, state := OnRoad, idx := v.idx + 1, pc := Idle)
  }

  function Occupy(roads: map<int, RoadState>, r: int, delta: int): map<int, RoadState> {
    if r in roads && (delta > 0 || roads[r].occupancy > 0)
    then roads[r := roads[r].(occupancy := roads[r].occupancy + delta)]
    else roads
  }

  // The vehicle's place in the world ------------------------------------------------

  // The facts every vehicle keeps about itself.
  ghost predicate Sound(net: Network, w: World, v: Vehicle) {
    && v.idx < |v.path|
    && (!v.state.OnRoad? ==> v.at == v.path[v.idx])
    && (v.state.OnRoad? ==> !v.queued && (v.pc.Idle? || v.pc.Leaving?) && v.onRoad in w.roads && v.idx > 0)
    && (v.state.OnRoad? ==>
          FirstLink(if v.path[v.idx - 1] in net.adj then net.adj[v.path[v.idx - 1]] else [], v.path[v.idx])
            == Some(v.onRoad))
    && (v.state.Arrived? ==> v.pc.Idle? && !v.queued && v.at == v.to)
    && (v.queued ==> InQueue(w, v))
    && (v.pc.Leaving? ==> v.state.OnRoad?)
    && (v.pc.Dequeuing? ==> v.queued)
    && (!v.pc.Idle? && !v.pc.Leaving? ==> v.idx + 1 < |v.path| && v.path[v.idx] in w.signals && v.at != v.to)
    && (v.pc.Entering? ==> v.pc.road in w.roads)
    && (v.pc.Entering? ==>
          FirstLink(if v.path[v.idx] in net.adj then net.adj[v.path[v.idx]] else [], v.path[v.idx + 1])
            == Some(v.pc.road))
  }

  ghost predicate InQueue(w: World, v: Vehicle) {
    && v.state.WaitingSignal? && v.idx + 1 < |v.path| && v.path[v.idx] in w.signals && v.at != v.to
    && v.group == HopGroup(v) && (v.pc.Idle? || v.pc.Looking? || v.pc.Dequeuing?)
  }

  // What a counter counts: the vehicles on a road, or waiting at a signal.
  datatype Spot = Road(id: int) | Queue(at: int, group: Group)

  predicate IsAt(v: Vehicle, s: Spot) {
    match s
    case Road(id) => v.state.OnRoad? && v.onRoad == id
    case Queue(at, g) => v.queued && v.group == g && v.idx < |v.path| && v.path[v.idx] == at
  }

  function Count(vs: seq<Vehicle>, s: Spot): nat {
    if vs == [] then 0 else (if IsAt(vs[0], s) then 1 else 0) + Count(vs[1..], s)
  }

  lemma {:induction false} CountUpdate(vs: seq<Vehicle>, i: nat, v: Vehicle, s: Spot)
    requires i < |vs|
    ensures Count(vs[i := v], s) ==
      Count(vs, s) - (if IsAt(vs[i], s) then 1 else 0) + if IsAt(v, s) then 1 else 0
  {
    if i > 0 {
      assert vs[i := v][1..] == vs[1..][i - 1 := v];
      CountUpdate(vs[1..], i - 1, v, s);
    } else {
      assert vs[0 := v][1..] == vs[1..];
    }
  }

  lemma {:induction false} CountAppend(vs: seq<Vehicle>, v: Vehicle, s: Spot)
    ensures Count(vs + [v], s) == Count(vs, s) + if IsAt(v, s) then 1 else 0
  {
    if vs != [] {
      assert (vs + [v])[1..] == vs[1..] + [v];
      CountAppend(vs[1..], v, s);
    } else {
      assert [v][1..] == [];
      assert vs + [v] == [v];
    }
  }

  lemma {:induction false} CountPositive(vs: seq<Vehicle>, i: nat, s: Spot)
    requires i < |vs| && IsAt(vs[i], s)
    ensures Count(vs, s) >= 1
  {
    if i > 0 {
      CountPositive(vs[1..], i - 1, s);
    }
  }

  // The counter kept for a spot.
  function Counter(w: World, s: Spot): int {
    match s
    case Road(id) => if id in w.roads then w.roads[id].occupancy else 0
    case Queue(at, g) => if at in w.signals then QueueOf(w.signals[at], g) else 0
  }

  // Every counter equals the number of vehicles it stands for.
  ghost predicate Conserved(net: Network, w: World) {
    && (forall i :: 0 <= i < |w.vehicles| ==> Sound(net, w, w.vehicles[i]))
    && (forall s :: Counter(w, s) == Count(w.vehicles, s))
  }

  // Actions -------------------------------------------------------------------------

  datatype Action =
    | Section(vehicle: nat)
    | Signaled(at: int)
    | SetPreempt(at: int, phase: Phase, ticks: int)
    | Congestion
    | Register(to: int, path: seq<int>)

  // The next locked section of vehicle i.
  function NextSection(net: Network, w: World, i: nat): World
    requires i < |w.vehicles| && w.vehicles[i].idx < |w.vehicles[i].path|
    requires !w.vehicles[i].pc.Idle? && !w.vehicles[i].pc.Leaving? ==>
      w.vehicles[i].idx + 1 < |w.vehicles[i].path| && w.vehicles[i].path[w.vehicles[i].idx] in w.signals
  {
    var v := w.vehicles[i];
    var here := v.path[v.idx];
    match v.pc
    case Idle => w.(vehicles := w.vehicles[i := Begin(v, w.signals)])
    case Leaving =>
      w.(roads := Occupy(w.roads, v.onRoad, -1), vehicles := w.vehicles[i := Decide(OffRoad(v), w.signals)])
    case Looking => w.(vehicles := w.vehicles[i := Look(v, w.signals[here].phase)])
    case Dequeuing =>
      w.(signals := w.signals[here := Dequeued(w.signals[here], v.group)],
         vehicles := w.vehicles[i := v.(queued := false, pc := Routing)])
    case Routing =>
      var hop := RoadForHop(net, w.roads, here, v.path[v.idx + 1]);
      w.(vehicles := w.vehicles[i := v.(pc := if hop.None? then Idle else Entering(hop.value.0, hop.value.1))])
    case Entering(r, _) =>
      w.(roads := Occupy(w.roads, r, 1), vehicles := w.vehicles[i := Enter(v)])
    case Enqueuing =>
      w.(signals := w.signals[here := Enqueued(w.signals[here], HopGroup(v))],
         vehicles := w.vehicles[i := v.(queued := true, group := HopGroup(v), state := WaitingSignal, pc := Idle)])
  }

  ghost predicate Enabled(w: World, a: Action) {
    match a
    case Section(i) => i < |w.vehicles|
    case Signaled(at) => at in w.signals
    case SetPreempt(at, _, _) => at in w.signals
    case Congestion => true
    case Register(to, path) => path != [] && path[|path| - 1] == to
  }

  ghost function Act(net: Network, w: World, a: Action): World
    requires Conserved(net, w) && Enabled(w, a)
  {
    match a
    case Section(i) => NextSection(net, w, i)
    case Signaled(at) =>
      assert Counter(w, Queue(at, NS)) == Count(w.vehicles, Queue(at, NS));
      assert Counter(w, Queue(at, EW)) == Count(w.vehicles, Queue(at, EW));
      w.(signals := w.signals[at := StepSignal(net.cfg, w.signals[at])])
    case SetPreempt(at, phase, ticks) => w.(signals := w.signals[at := Preempted(w.signals[at], phase, ticks)])
    case Congestion => w.(roads := Congest(w.roads))
    case Register(to, path) => w.(vehicles := w.vehicles + [NewVehicle(to, path)])
  }

  function NewVehicle(to: int, path: seq<int>): Vehicle
    requires path != []
  {
    Vehicle(to, AtIntersection, path[0], path, 0, 0, 0, false, NS, Idle)
  }

  // Replacing one vehicle and moving one counter with it keeps the accounts.
  lemma MovesCounters(net: Network, w: World, u: World, i: nat, v: Vehicle)
    requires Conserved(net, w) && i < |w.vehicles| && u.vehicles == w.vehicles[i := v]
    requires u.signals.Keys == w.signals.Keys && u.roads.Keys == w.roads.Keys && Sound(net, u, v)
    requires forall s ::
      Counter(u, s) == Counter(w, s) - (if IsAt(w.vehicles[i], s) then 1 else 0) + if IsAt(v, s) then 1 else 0
    ensures Conserved(net, u)
  {
    forall s ensures Counter(u, s) == Count(u.vehicles, s) {
      CountUpdate(w.vehicles, i, v, s);
    }
    forall j | 0 <= j < |u.vehicles| ensures Sound(net, u, u.vehicles[j]) {
      assert j != i ==> Sound(net, w, w.vehicles[j]);
    }
  }

  // A decrement always finds its own vehicle in the counter, so the guards
  // against going below zero never hold one back.
  lemma GuardsNeverSuppress(net: Network, w: World, i: nat)
    requires Conserved(net, w) && i < |w.vehicles|
    ensures w.vehicles[i].pc.Leaving? ==> Counter(w, Road(w.vehicles[i].onRoad)) > 0
    ensures w.vehicles[i].pc.Dequeuing? ==> w.vehicles[i].idx < |w.vehicles[i].path|
    ensures w.vehicles[i].pc.Dequeuing? ==>
      Counter(w, Queue(w.vehicles[i].path[w.vehicles[i].idx], w.vehicles[i].group)) > 0
  {
    var v := w.vehicles[i];
    assert Sound(net, w, v);
    if v.pc.Leaving? {
      CountPositive(w.vehicles, i, Road(v.onRoad));
      assert Counter(w, Road(v.onRoad)) == Count(w.vehicles, Road(v.onRoad));
    } else if v.pc.Dequeuing? {
      CountPositive(w.vehicles, i, Queue(v.path[v.idx], v.group));
      assert Counter(w, Queue(v.path[v.idx], v.group)) == Count(w.vehicles, Queue(v.path[v.idx], v.group));
    }
  }

  lemma SectionSound(net: Network, w: World, i: nat)
    requires Conserved(net, w) && i < |w.vehicles|
    ensures var u := NextSection(net, w, i);
      u.signals.Keys == w.signals.Keys && u.roads.Keys == w.roads.Keys && Sound(net, u, u.vehicles[i])
  {
    assert Sound(net, w, w.vehicles[i]);
  }

  lemma SectionMoves(net: Network, w: World, i: nat, s: Spot)
    requires Conserved(net, w) && i < |w.vehicles|
    ensures var u := NextSection(net, w, i);
      Counter(u, s) == Counter(w, s)
        - (if IsAt(w.vehicles[i], s) then 1 else 0) + if IsAt(u.vehicles[i], s) then 1 else 0
  {
    assert Sound(net, w, w.vehicles[i]);
    GuardsNeverSuppress(net, w, i);
  }

  // Every section of a vehicle's step keeps the accounts.
  lemma SectionConserves(net: Network, w: World, i: nat)
    requires Conserved(net, w) && i < |w.vehicles|
    ensures Conserved(net, NextSection(net, w, i))
  {
    var u := NextSection(net, w, i);
    SectionSound(net, w, i);
    forall s {
      SectionMoves(net, w, i, s);
    }
    MovesCounters(net, w, u, i, u.vehicles[i]);
  }

  lemma ActConserves(net: Network, w: World, a: Action)
    requires Conserved(net, w) && Enabled(w, a)
    ensures Conserved(net, Act(net, w, a))
  {
    var u := Act(net, w, a);
    match a {
      case Section(i) => SectionConserves(net, w, i);
      case Register(to, path) =>
        forall s ensures Counter(u, s) == Count(u.vehicles, s) {
          CountAppend(w.vehicles, NewVehicle(to, path), s);
        }
        forall j | 0 <= j < |u.vehicles| ensures Sound(net, u, u.vehicles[j]) {
          assert j < |w.vehicles| ==> Sound(net, w, w.vehicles[j]);
        }
      case _ =>
        forall s ensures Counter(u, s) == Count(u.vehicles, s) {
          assert Counter(w, s) == Count(w.vehicles, s);
        }
        forall j | 0 <= j < |u.vehicles| ensures Sound(net, u, u.vehicles[j]) {
          assert Sound(net, w, w.vehicles[j]);
        }
    }
  }

  // Any run of actions, the ones not enabled being skipped.
  ghost function Run(net: Network, w: World, acts: seq<Action>): (u: World)
    requires Conserved(net, w)
    ensures Conserved(net, u)
    decreases |acts|
  {
    if acts == [] then w
    else if !Enabled(w, acts[0]) then Run(net, w, acts[1..])
    else
      ActConserves(net, w, acts[0]);
      Run(net, Act(net, w, acts[0]), acts[1..])
  }

  // No vehicles, empty queues, empty roads.
  ghost predicate Initial(net: Network, w: World) {
    && w.vehicles == []
    && (forall i :: i in w.signals ==> w.signals[i] == NewSignal(net.cfg))
    && (forall r :: r in w.roads ==> w.roads[r].occupancy == 0)
  }

  // In every reachable state the counters are exact.
  lemma CountersExact(net: Network, w: World, acts: seq<Action>)
    requires Initial(net, w)
    ensures Conserved(net, w)
    ensures var u := Run(net, w, acts);
      && (forall r :: r in u.roads ==> u.roads[r].occupancy == Count(u.vehicles, Road(r)))
      && (forall i, g :: i in u.signals ==> QueueOf(u.signals[i], g) == Count(u.vehicles, Queue(i, g)))
  {
    forall s ensures Counter(w, s) == Count(w.vehicles, s) {}
    var u := Run(net, w, acts);
    forall r | r in u.roads ensures u.roads[r].occupancy == Count(u.vehicles, Road(r)) {
      assert Counter(u, Road(r)) == Count(u.vehicles, Road(r));
    }
    forall i, g | i in u.signals ensures QueueOf(u.signals[i], g) == Count(u.vehicles, Queue(i, g)) {
      assert Counter(u, Queue(i, g)) == Count(u.vehicles, Queue(i, g));
    }
  }

  // Who crosses ---------------------------------------------------------------------

  // The light is green for the way: north-south between stops numbered in a row.
  predicate Clear(p: Phase, from: int, to: int) {
    p == if to - from == 1 || from - to == 1 then GreenNS else GreenEW
  }

  // Vehicle i stands at the n-th stop of the path, about to look, and its light is green.
  ghost predicate SeesGreen(w: World, i: nat, path: seq<int>, n: nat) {
    && i < |w.vehicles| && w.vehicles[i].pc.Looking? && w.vehicles[i].path == path && w.vehicles[i].idx == n
    && n + 1 < |path| && path[n] in w.signals && Clear(w.signals[path[n]].phase, path[n], path[n + 1])
  }

  // The n-th stop is behind the vehicle, or it is crossing there.
  predicate Crossed(v: Vehicle, n: nat) {
    n < v.idx || (n == v.idx && (v.pc.Dequeuing? || v.pc.Routing? || v.pc.Entering?))
  }

  // In every run, however the sections interleave, a vehicle has looked at a green light of
  // its own direction at every stop it crossed.
  lemma {:induction false} CrossesOnGreen(net: Network, w: World, acts: seq<Action>, i: nat, n: nat) returns (j: nat)
    requires Initial(net, w) && Conserved(net, w)
    requires i < |Run(net, w, acts).vehicles| && Crossed(Run(net, w, acts).vehicles[i], n)
    ensures j < |acts| && acts[j] == Section(i)
    ensures SeesGreen(Run(net, w, acts[..j]), i, Run(net, w, acts).vehicles[i].path, n)
    decreases |acts|
  {
    if acts == [] {
      assert false;
    } else {
      j := |acts| - 1;
      var u := Run(net, w, acts[..j]);
      RunLast(net, w, acts);
      if Enabled(u, acts[j]) {
        ActCrosses(net, u, acts[j], i, n);
      }
      if i < |u.vehicles| && Crossed(u.vehicles[i], n) {
        var m := CrossesOnGreen(net, w, acts[..j], i, n);
        assert acts[..j][..m] == acts[..m];
        j := m;
      }
    }
  }

  // Only a look at a green light brings a vehicle across.
  lemma ActCrosses(net: Network, w: World, a: Action, i: nat, n: nat)
    requires Conserved(net, w) && Enabled(w, a)
    requires i < |Act(net, w, a).vehicles| && Crossed(Act(net, w, a).vehicles[i], n)
    ensures i < |w.vehicles| && Act(net, w, a).vehicles[i].path == w.vehicles[i].path
    ensures Crossed(w.vehicles[i], n) || (a == Section(i) && SeesGreen(w, i, w.vehicles[i].path, n))
  {
    if i < |w.vehicles| {
      assert Sound(net, w, w.vehicles[i]);
    }
  }

  lemma {:induction false} RunLast(net: Network, w: World, acts: seq<Action>)
    requires Conserved(net, w) && acts != []
    ensures var u, a := Run(net, w, acts[..|acts| - 1]), acts[|acts| - 1];
      Run(net, w, acts) == if Enabled(u, a) then Act(net, u, a) else u
    decreases |acts|
  {
    if |acts| > 1 {
      assert acts[..|acts| - 1][1..] == acts[1..][..|acts| - 2];
      if Enabled(w, acts[0]) {
        ActConserves(net, w, acts[0]);
        RunLast(net, Act(net, w, acts[0]), acts[1..]);
      } else {
        RunLast(net, w, acts[1..]);
      }
    }
  }

  // One whole step ------------------------------------------------------------------

  function Rank(pc: Pc): nat {
    match pc
    case Idle => 0
    case Leaving => 5
    case Looking => 4
    case Dequeuing => 3
    case Routing => 2
    case Entering(_, _) => 1
    case Enqueuing => 1
  }

  // The sections of one vehicle to the end of its step, with nothing in between.
  ghost function Finish(net: Network, w: World, i: nat): World
    requires Conserved(net, w) && i < |w.vehicles|
    decreases Rank(w.vehicles[i].pc)
  {
    if w.vehicles[i].pc.Idle? then w
    else
      SectionConserves(net, w, i);
      Finish(net, NextSection(net, w, i), i)
  }

  ghost function WholeStep(net: Network, w: World, i: nat): World
    requires Conserved(net, w) && i < |w.vehicles|
  {
    SectionConserves(net, w, i);
    Finish(net, NextSection(net, w, i), i)
  }

  // What one step makes of a vehicle that sees phase p and is offered a hop.
  function LocalStep(v: Vehicle, signals: set<int>, p: Phase, hop: Option<(int, int)>): Vehicle
    requires v.idx < |v.path|
  {
    if v.state.Arrived? then v
    else if v.state.OnRoad? && v.remainingRoad - 1 > 0 then v.(remainingRoad := v.remainingRoad - 1)
    else
      var u := if v.state.OnRoad? then OffRoad(v.(remainingRoad := v.remainingRoad - 1)) else v;
      if u.at == u.to then u.(state := Arrived)
      else if u.idx >= |u.path| - 1 || u.path[u.idx] !in signals then u
      else if !PhaseAllows(p, HopGroup(u)) then
        u.(queued := true, group := if u.queued then u.group else HopGroup(u), state := WaitingSignal)
      else CrossRoad(u, hop, map[]).0
  }

  function CrossRoad(v: Vehicle, hop: Option<(int, int)>, roads: map<int, RoadState>)
    : (Vehicle, map<int, RoadState>)
  {
    var u := v.(queued := false);
    if hop.None? then (u, roads)
    else (Enter(u.(pc := Entering(hop.value.0, hop.value.1))), Occupy(roads, hop.value.0, 1))
  }

  function PhaseAt(signals: map<int, Signal>, v: Vehicle): Phase
    requires v.idx < |v.path|
  {
    if v.path[v.idx] in signals then signals[v.path[v.idx]].phase else GreenNS
  }

  function HopAt(net: Network, roads: map<int, RoadState>, v: Vehicle): Option<(int, int)>
    requires v.idx < |v.path|
  {
    if v.idx + 1 < |v.path| then RoadForHop(net, roads, v.path[v.idx], v.path[v.idx + 1]) else None
  }

  // What the step does to a queue: leaves the one the vehicle stood in, or joins one.
  function StepSignals(v: Vehicle, signals: map<int, Signal>): map<int, Signal>
    requires v.idx < |v.path|
  {
    if v.state.Arrived? || (v.state.OnRoad? && v.remainingRoad - 1 > 0) then signals
    else
      var u := if v.state.OnRoad? then OffRoad(v) else v;
      var here := u.path[u.idx];
      if u.at == u.to || u.idx >= |u.path| - 1 || here !in signals then signals
      else if PhaseAllows(signals[here].phase, HopGroup(u)) then
        if u.queued then signals[here := Dequeued(signals[here], u.group)] else signals
      else if u.queued then signals
      else signals[here := Enqueued(signals[here], HopGroup(u))]
  }

  // What the step does to the roads: leaves the old one, enters the new one.
  function StepRoads(net: Network, v: Vehicle, u: Vehicle, roads: map<int, RoadState>): map<int, RoadState> {
    var off := if v.state.OnRoad? && v.remainingRoad - 1 <= 0 then Occupy(roads, v.onRoad, -1) else roads;
    if u.idx > v.idx then Occupy(off, u.onRoad, 1) else off
  }

  // The whole step on the shared state of one moment.
  function StepVehicle(net: Network, v: Vehicle, signals: map<int, Signal>, roads: map<int, RoadState>)
    : (Vehicle, map<int, Signal>, map<int, RoadState>)
    requires v.idx < |v.path|
  {
    var u := LocalStep(v, signals.Keys, PhaseAt(signals, v), HopAt(net, roads, v));
    (u, StepSignals(v, signals), StepRoads(net, v, u, roads))
  }

  lemma OccupyKeepsHops(net: Network, roads: map<int, RoadState>, r: int, delta: int, v: Vehicle)
    requires v.idx < |v.path|
    ensures HopAt(net, Occupy(roads, r, delta), v) == HopAt(net, roads, v)
  {
  }

  lemma OffRoadThenStep(net: Network, v: Vehicle, signals: map<int, Signal>, roads: map<int, RoadState>)
    requires v.idx < |v.path| && v.state.OnRoad? && v.remainingRoad - 1 <= 0
    ensures StepVehicle(net, v, signals, roads) ==
      StepVehicle(net, OffRoad(v.(remainingRoad := v.remainingRoad - 1)), signals, Occupy(roads, v.onRoad, -1))
  {
    OccupyKeepsHops(net, roads, v.onRoad, -1, v);
  }

  // Run without interruption, the sections of a step amount to StepVehicle.
  lemma WholeStepIsStepVehicle(net: Network, w: World, i: nat)
    requires Conserved(net, w) && i < |w.vehicles| && w.vehicles[i].pc.Idle?
    ensures w.vehicles[i].idx < |w.vehicles[i].path|
    ensures var (v, signals, roads) := StepVehicle(net, w.vehicles[i], w.signals, w.roads);
      WholeStep(net, w, i) == World(w.vehicles[i := v], signals, roads)
  {
    var v := w.vehicles[i];
    assert Sound(net, w, v);
    if v.state.OnRoad? && v.remainingRoad - 1 <= 0 {
      LastTickIsStepVehicle(net, w, i);
    } else {
      SectionConserves(net, w, i);
      var w1 := NextSection(net, w, i);
      if w1.vehicles[i].pc.Looking? {
        FinishFromSignal(net, w1, i);
      }
    }
  }

  // A step that takes the vehicle off its road.
  lemma LastTickIsStepVehicle(net: Network, w: World, i: nat)
    requires Conserved(net, w) && i < |w.vehicles| && w.vehicles[i].pc.Idle?
    requires w.vehicles[i].state.OnRoad? && w.vehicles[i].remainingRoad - 1 <= 0
    ensures w.vehicles[i].idx < |w.vehicles[i].path|
    ensures var (v, signals, roads) := StepVehicle(net, w.vehicles[i], w.signals, w.roads);
      WholeStep(net, w, i) == World(w.vehicles[i := v], signals, roads)
  {
    var v := w.vehicles[i];
    assert Sound(net, w, v);
    SectionConserves(net, w, i);
    var w1 := NextSection(net, w, i);
    SectionConserves(net, w1, i);
    var w2 := NextSection(net, w1, i);
    assert w2.vehicles[i] == Decide(OffRoad(v.(remainingRoad := v.remainingRoad - 1, pc := Leaving)), w.signals);
    OccupyKeepsHops(net, w.roads, v.onRoad, -1, v);
    FinishFromSignal(net, w2, i);
  }

  // From the look at the signal to the end of the step.
  lemma FinishFromSignal(net: Network, w: World, i: nat)
    requires Conserved(net, w) && i < |w.vehicles| && (w.vehicles[i].pc.Looking? || w.vehicles[i].pc.Idle?)
    ensures w.vehicles[i].pc.Idle? ==> Finish(net, w, i) == w
    ensures w.vehicles[i].pc.Looking? ==> Sound(net, w, w.vehicles[i])
    ensures w.vehicles[i].pc.Looking? ==>
      var v := w.vehicles[i].(pc := Idle);
      var (u, signals, roads) := StepVehicle(net, v, w.signals, w.roads);
      Finish(net, w, i) == World(w.vehicles[i := u], signals, roads)
  {
    if w.vehicles[i].pc.Looking? {
      var v := w.vehicles[i];
      assert Sound(net, w, v);
      if PhaseAllows(w.signals[v.path[v.idx]].phase, HopGroup(v)) {
        FinishFromGreen(net, w, i);
      } else {
        FinishFromRed(net, w, i);
      }
    }
  }

  ghost predicate Steps(net: Network, w: World, i: nat)
    requires Conserved(net, w) && i < |w.vehicles| && w.vehicles[i].idx < |w.vehicles[i].path|
  {
    var (u, signals, roads) := StepVehicle(net, w.vehicles[i].(pc := Idle), w.signals, w.roads);
    Finish(net, w, i) == World(w.vehicles[i := u], signals, roads)
  }

  lemma FinishFromGreen(net: Network, w: World, i: nat)
    requires Conserved(net, w) && i < |w.vehicles| && w.vehicles[i].pc.Looking?
    requires var v := w.vehicles[i];
      Sound(net, w, v) && PhaseAllows(w.signals[v.path[v.idx]].phase, HopGroup(v))
    ensures Steps(net, w, i)
  {
    SectionConserves(net, w, i);
    var w1 := NextSection(net, w, i);
    if w1.vehicles[i].pc.Dequeuing? {
      FinishFromDequeuing(net, w1, i);
    } else {
      FinishFromRouting(net, w1, i);
    }
  }

  lemma FinishFromRed(net: Network, w: World, i: nat)
    requires Conserved(net, w) && i < |w.vehicles| && w.vehicles[i].pc.Looking?
    requires var v := w.vehicles[i];
      Sound(net, w, v) && !PhaseAllows(w.signals[v.path[v.idx]].phase, HopGroup(v))
    ensures Steps(net, w, i)
  {
    SectionConserves(net, w, i);
    var w1 := NextSection(net, w, i);
    if w1.vehicles[i].pc.Enqueuing? {
      LastSection(net, w1, i);
    }
  }

  lemma FinishFromDequeuing(net: Network, w: World, i: nat)
    requires Conserved(net, w) && i < |w.vehicles| && w.vehicles[i].pc.Dequeuing?
    ensures Sound(net, w, w.vehicles[i])
    ensures var v := w.vehicles[i];
      var here := v.path[v.idx];
      var u := v.(queued := false, pc := Routing);
      var hop := HopAt(net, w.roads, v);
      var left := w.(signals := w.signals[here := Dequeued(w.signals[here], v.group)]);
      Finish(net, w, i) ==
        if hop.None? then left.(vehicles := w.vehicles[i := u.(pc := Idle)])
        else left.(vehicles := w.vehicles[i := Enter(u.(pc := Entering(hop.value.0, hop.value.1)))],
                   roads := Occupy(w.roads, hop.value.0, 1))
  {
    assert Sound(net, w, w.vehicles[i]);
    SectionConserves(net, w, i);
    FinishFromRouting(net, NextSection(net, w, i), i);
  }

  lemma FinishFromRouting(net: Network, w: World, i: nat)
    requires Conserved(net, w) && i < |w.vehicles| && w.vehicles[i].pc.Routing?
    ensures Sound(net, w, w.vehicles[i])
    ensures var v := w.vehicles[i];
      var hop := HopAt(net, w.roads, v);
      Finish(net, w, i) ==
        if hop.None? then w.(vehicles := w.vehicles[i := v.(pc := Idle)])
        else w.(vehicles := w.vehicles[i := Enter(v.(pc := Entering(hop.value.0, hop.value.1)))],
                roads := Occupy(w.roads, hop.value.0, 1))
  {
    assert Sound(net, w, w.vehicles[i]);
    SectionConserves(net, w, i);
    var w1 := NextSection(net, w, i);
    if w1.vehicles[i].pc.Entering? {
      LastSection(net, w1, i);
    }
  }

  lemma LastSection(net: Network, w: World, i: nat)
    requires Conserved(net, w) && i < |w.vehicles| && (w.vehicles[i].pc.Entering? || w.vehicles[i].pc.Enqueuing?)
    ensures Sound(net, w, w.vehicles[i])
    ensures Finish(net, w, i) == NextSection(net, w, i)
  {
    assert Sound(net, w, w.vehicles[i]);
    SectionConserves(net, w, i);
    var u := NextSection(net, w, i);
    assert u.vehicles[i].pc.Idle?;
    assert Finish(net, u, i) == u;
  }
}
