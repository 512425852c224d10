// The engine's objects: cars, road records and signal controllers updated in place.
module Engine {
  import opened Options
  import opened Signals
  import opened Traffic
  import opened RingBuffers
  import Dijkstra

  // The keys of todo still have their old values.
  ghost function Partly<V>(todo: set<int>, was: map<int, V>, now: map<int, V>): map<int, V>
    requires was.Keys == now.Keys
  {
    map r | r in was :: if r in todo then was[r] else now[r]
  }

  lemma PartlyNext<V>(todo: set<int>, was: map<int, V>, now: map<int, V>, r: int)
    requires was.Keys == now.Keys && r in todo && r in was
    ensures Partly(todo, was, now)[r] == was[r]
    ensures Partly(todo, was, now)[r := now[r]] == Partly(todo - {r}, was, now)
  {
  }

  lemma PartlyStarts<V>(was: map<int, V>, now: map<int, V>)
    requires was.Keys == now.Keys
    ensures Partly(was.Keys, was, now) == was && Partly({}, was, now) == now
  {
  }

  class RoadRecord {
    const road: Dijkstra.Road
    const history: RingBuffer<int>
    var congestion: int
    var occupancy: int

    ghost function State(): RoadState
      reads this
    {
      RoadState(road, congestion, occupancy)
    }

    constructor (road: Dijkstra.Road, window: nat)
      requires window > 0
      ensures State() == RoadState(road, ClampCongestion(road.congestion), 0) && fresh(history) && fresh(history.buf)
      ensures history.Valid() && history.Contents() == [] && history.buf.Length == window
    {
      this.road := road;
      congestion, occupancy := ClampCongestion(road.congestion), 0;
      history := new RingBuffer(window);
    }
  }

  class City {
    const net: Network
    const signals: map<int, Intersection>
    const roads: map<int, RoadRecord>
    var corridor: set<int>
    var emergencyUntil: int

    constructor (net: Network, signals: map<int, Intersection>, roads: map<int, RoadRecord>)
      ensures this.net == net && this.signals == signals && this.roads == roads
      ensures corridor == {} && emergencyUntil == 0
    {
      this.net, this.signals, this.roads := net, signals, roads;
      corridor, emergencyUntil := {}, 0;
    }

    // No two names share a record.
    ghost predicate Distinct() {
      && (forall i, j :: i in signals && j in signals && signals[i] == signals[j] ==> i == j)
      && (forall r, q :: r in roads && q in roads && roads[r] == roads[q] ==> r == q)
    }

    ghost function SignalStates(): map<int, Signal>
      reads signals.Values
    {
      map i | i in signals :: signals[i].State()
    }

    ghost function RoadStates(): map<int, RoadState>
      reads roads.Values
    {
      map r | r in roads :: roads[r].State()
    }

    // Every road has a history of its own.
    ghost predicate OwnHistories()
      reads set r | r in roads :: roads[r].history
    {
      && (forall r :: r in roads ==> roads[r].history.Valid())
      && (forall r, q :: r in roads && q in roads && r != q ==> roads[r].history != roads[q].history)
      && (forall r, q :: r in roads && q in roads && r != q ==> roads[r].history.buf != roads[q].history.buf)
    }

    // The roads' estimates of late, oldest first.
    ghost function Histories(): map<int, seq<int>>
      requires OwnHistories()
      reads set r | r in roads :: roads[r].history, set r | r in roads :: roads[r].history.buf
    {
      map r | r in roads :: roads[r].history.Contents()
    }

    // The histories with the estimates taken in.
    ghost function Lengthened(h: map<int, seq<int>>, states: map<int, RoadState>): map<int, seq<int>>
      requires h.Keys == states.Keys == roads.Keys
    {
      map r | r in roads :: Latest(h[r] + [states[r].congestion], roads[r].history.buf.Length)
    }

    // The congestion tick: an emergency corridor whose time has passed is cleared, and
    // every road gets a new estimate, which its history takes in.
    method UpdateCongestion(tick: int)
      requires Distinct() && OwnHistories()
      modifies this`corridor, this`emergencyUntil
      modifies roads.Values, set r | r in roads :: roads[r].history, set r | r in roads :: roads[r].history.buf
      ensures OwnHistories() && RoadStates() == Congest(old(RoadStates()))
      ensures Histories() == Lengthened(old(Histories()), RoadStates())
      ensures (corridor, emergencyUntil) ==
        if 0 < old(emergencyUntil) < tick then ({}, 0) else (old(corridor), old(emergencyUntil))
    {
      ghost var was, h := RoadStates(), Histories();
      ExpireCorridor(tick);
      assert RoadStates() == was && Histories() == h;
      UpdateRoads();
    }

    method ExpireCorridor(tick: int)
      modifies this`corridor, this`emergencyUntil
      ensures (corridor, emergencyUntil) ==
        if 0 < old(emergencyUntil) < tick then ({}, 0) else (old(corridor), old(emergencyUntil))
    {
      if emergencyUntil > 0 && tick > emergencyUntil {
        corridor, emergencyUntil := {}, 0;
      }
    }

    method UpdateRoads()
      requires Distinct() && OwnHistories()
      modifies roads.Values, set r | r in roads :: roads[r].history, set r | r in roads :: roads[r].history.buf
      ensures OwnHistories() && RoadStates() == Congest(old(RoadStates()))
      ensures Histories() == Lengthened(old(Histories()), RoadStates())
    {
      ghost var was, now, h := RoadStates(), Congest(RoadStates()), Histories();
      ghost var later := Lengthened(h, now);
      var todo := roads.Keys;
      PartlyStarts(was, now);
      PartlyStarts(h, later);
      while exists r :: r in todo
        invariant todo <= roads.Keys && OwnHistories()
        invariant RoadStates() == Partly(todo, was, now) && Histories() == Partly(todo, h, later)
        decreases |todo|
      {
        var r :| r in todo;
        PartlyNext(todo, was, now, r);
        PartlyNext(todo, h, later, r);
        UpdateRoad(r);
        todo := todo - {r};
      }
      assert todo == {};
    }

    method UpdateRoad(r: int)
      requires Distinct() && OwnHistories() && r in roads
      modifies roads[r], roads[r].history, roads[r].history.buf
      ensures OwnHistories()
      ensures var was := old(RoadStates())[r];
        RoadStates() == old(RoadStates())[r := was.(congestion := Estimate(was.occupancy))]
      ensures Histories() ==
        old(Histories())[r := Latest(old(Histories())[r] + [RoadStates()[r].congestion], roads[r].history.buf.Length)]
    {
      SetEstimate(r);
      AppendEstimate(r, roads[r].congestion);
    }

    method SetEstimate(r: int)
      requires Distinct() && r in roads
      modifies roads[r]
      ensures var was := old(RoadStates())[r];
        RoadStates() == old(RoadStates())[r := was.(congestion := Estimate(was.occupancy))]
    {
      ghost var was := RoadStates();
      var baseline, impact := 2, roads[r].occupancy / 5;
      roads[r].congestion := ClampCongestion(baseline + impact);
      assert forall q :: q in roads && q != r ==> roads[q].State() == was[q];
      assert RoadStates() == was[r := roads[r].State()];
    }

    method AppendEstimate(r: int, v: int)
      requires OwnHistories() && r in roads
      modifies roads[r].history, roads[r].history.buf
      ensures OwnHistories()
      ensures Histories() == old(Histories())[r := Latest(old(Histories())[r] + [v], roads[r].history.buf.Length)]
    {
      ghost var h := Histories();
      roads[r].history.Append(v);
      ghost var own := roads[r].history.Contents();
      forall q | q in roads ensures Histories()[q] == h[r := own][q] {
        assert q != r ==> roads[q].history.Contents() == old(roads[q].history.Contents()) == h[q];
      }
      assert Histories().Keys == h.Keys;
      assert Histories() == h[r := own];
    }

    // The first edge with a road decides, even when the road has no record. The time is its
    // minutes at the present congestion, rounded up, and at least a tick.
    method HopRoad(from: int, to: int) returns (hop: Option<(int, int)>)
      ensures hop == RoadForHop(net, RoadStates(), from, to)
      ensures hop.Some? ==> hop.value.0 in roads
      ensures hop.Some? ==> exists k :: FirstTo(Links(from), to, k) && Links(from)[k].road == Some(hop.value.0)
      ensures hop.Some? ==> RoundsUp(Minutes(hop.value.0), hop.value.1)
      ensures hop.None? ==> forall k :: FirstTo(Links(from), to, k) ==> Links(from)[k].road.value !in roads
    {
      var links := if from in net.adj then net.adj[from] else [];
      assert links[0..] == links;
      for k := 0 to |links|
        invariant FirstLink(links, to) == FirstLink(links[k..], to)
        invariant forall j :: 0 <= j < k ==> links[j].to != to || links[j].road.None?
      {
        assert links[k..][1..] == links[k + 1..];
        if links[k].to == to && links[k].road.Some? {
          assert FirstTo(Links(from), to, k);
          var id := links[k].road.value;
          if id !in roads {
            return None;
          }
          var minutes := Dijkstra.WeightMinutes(roads[id].road.(congestion := roads[id].congestion));
          var ticks := Ceil(minutes);
          if ticks < 1 {
            ticks := 1;
          }
          TicksRoundUp(roads[id].State());
          return Some((id, ticks));
        }
      }
      return None;
    }

    ghost function Links(from: int): seq<Link> {
      if from in net.adj then net.adj[from] else []
    }

    // The travel time of a road as it is.
    ghost function Minutes(r: int): real
      reads roads.Values
    {
      if r in roads then Dijkstra.WeightMinutes(roads[r].road.(congestion := roads[r].congestion)) else 0.0
    }

    method ChangeOccupancy(id: int, delta: int)
      requires Distinct()
      modifies roads.Values
      ensures RoadStates() == Occupy(old(RoadStates()), id, delta)
      ensures SignalStates() == old(SignalStates())
    {
      ghost var was := RoadStates();
      if id in roads && (delta > 0 || roads[id].occupancy > 0) {
        roads[id].occupancy := roads[id].occupancy + delta;
        assert forall r :: r in roads && r != id ==> roads[r].State() == was[r];
      } else {
        assert forall r :: r in roads ==> roads[r].State() == was[r];
      }
      assert RoadStates() == Occupy(was, id, delta);
    }

    method Dequeue(at: int, g: Group)
      requires Distinct() && at in signals
      modifies signals.Values
      ensures SignalStates() == old(SignalStates())[at := Dequeued(old(SignalStates())[at], g)]
      ensures RoadStates() == old(RoadStates())
    {
      ghost var was := SignalStates();
      signals[at].Dequeue(g);
      assert forall i :: i in signals && i != at ==> signals[i].State() == was[i];
      assert SignalStates() == was[at := Dequeued(was[at], g)];
    }

    method Enqueue(at: int, g: Group)
      requires Distinct() && at in signals
      modifies signals.Values
      ensures SignalStates() == old(SignalStates())[at := Enqueued(old(SignalStates())[at], g)]
      ensures RoadStates() == old(RoadStates())
    {
      ghost var was := SignalStates();
      signals[at].Enqueue(g);
      assert forall i :: i in signals && i != at ==> signals[i].State() == was[i];
      assert SignalStates() == was[at := Enqueued(was[at], g)];
    }
  }

  class Car {
    const to: int
    var state: VehicleState
    var at: int
    const path: seq<int>
    var idx: nat
    var onRoad: int
    var remainingRoad: int
    var queued: bool
    var group: Group

    constructor (to: int, path: seq<int>)
      requires path != []
      ensures State() == NewVehicle(to, path)
    {
      this.to, this.path := to, path;
      state, at, idx := AtIntersection, path[0], 0;
      onRoad, remainingRoad, queued, group := 0, 0, false, NS;
    }

    ghost function State(): Vehicle
      reads this
    {
      Vehicle(to, state, at, path, idx, onRoad, remainingRoad, queued, group, Idle)
    }

    method Step(city: City)
      requires idx < |path| && city.Distinct()
      modifies this, city.signals.Values, city.roads.Values
      ensures (State(), city.SignalStates(), city.RoadStates()) ==
        StepVehicle(city.net, old(State()), old(city.SignalStates()), old(city.RoadStates()))
    {
      if state == Arrived {
        return;
      }
      if state == OnRoad {
        var off := Drive();
        if !off {
          return;
        }
        OffRoadThenStep(city.net, old(State()), city.SignalStates(), city.RoadStates());
        LeaveRoad(city);
      }
      AtSignal(city);
    }

    // One tick of the road; says whether it was the last.
    method Drive() returns (off: bool)
      modifies this`remainingRoad
      ensures State() == old(State()).(remainingRoad := old(remainingRoad) - 1) && (off <==> remainingRoad <= 0)
    {
      remainingRoad := remainingRoad - 1;
      off := remainingRoad <= 0;
    }

    method LeaveRoad(city: City)
      requires idx < |path| && city.Distinct()
      modifies this, city.roads.Values
      ensures State() == OffRoad(old(State()))
      ensures city.SignalStates() == old(city.SignalStates())
      ensures city.RoadStates() == Occupy(old(city.RoadStates()), old(onRoad), -1)
    {
      city.ChangeOccupancy(onRoad, -1);
      onRoad, at, state, queued := 0, path[idx], AtIntersection, false;
    }

    // The part of a step that a vehicle at an intersection takes.
    method AtSignal(city: City)
      requires idx < |path| && city.Distinct() && !state.OnRoad? && !state.Arrived?
      modifies this, city.signals.Values, city.roads.Values
      ensures (State(), city.SignalStates(), city.RoadStates()) ==
        StepVehicle(city.net, old(State()), old(city.SignalStates()), old(city.RoadStates()))
    {
      if at == to {
        state := Arrived;
        return;
      }
      if idx >= |path| - 1 {
        return;
      }
      var from, next := path[idx], path[idx + 1];
      if from !in city.signals {
        return;
      }
      var direction := MovementDirection(from, next);
      if PhaseAllows(city.signals[from].phase, direction) {
        Cross(city, from, next);
        return;
      }
      Wait(city, from, direction);
    }

    method Wait(city: City, from: int, direction: Group)
      requires city.Distinct() && from in city.signals
      modifies this, city.signals.Values
      ensures State() == old(State()).(queued := true, state := WaitingSignal,
                                       group := if old(queued) then old(group) else direction)
      ensures city.SignalStates() == if old(queued) then old(city.SignalStates())
        else old(city.SignalStates())[from := Enqueued(old(city.SignalStates())[from], direction)]
      ensures city.RoadStates() == old(city.RoadStates())
    {
      if !queued {
        city.Enqueue(from, direction);
        queued, group := true, direction;
      }
      state := WaitingSignal;
    }

    method Cross(city: City, from: int, next: int)
      requires city.Distinct() && from in city.signals
      modifies this, city.signals.Values, city.roads.Values
      ensures city.SignalStates() == if !old(queued) then old(city.SignalStates())
        else old(city.SignalStates())[from := Dequeued(old(city.SignalStates())[from], old(group))]
      ensures (State(), city.RoadStates()) ==
        CrossRoad(old(State()), RoadForHop(city.net, old(city.RoadStates()), from, next), old(city.RoadStates()))
    {
      if queued {
        city.Dequeue(from, group);
        queued := false;
      }
      var hop := city.HopRoad(from, next);
      if hop.None? {
        return;
      }
      Enter(city, hop.value.0, hop.value.1);
    }

    method Enter(city: City, road: int, ticks: int)
      requires city.Distinct()
      modifies this, city.roads.Values
      ensures State() == Traffic.Enter(old(State()).(pc := Entering(road, ticks)))
      ensures city.SignalStates() == old(city.SignalStates())
      ensures city.RoadStates() == Occupy(old(city.RoadStates()), road, 1)
    {
      city.ChangeOccupancy(road, 1);
      onRoad, remainingRoad, state, idx := road, ticks, OnRoad, idx + 1;
    }
  }
}
