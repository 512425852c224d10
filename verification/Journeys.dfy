// From the traffic world to arrival times: a run in which every vehicle and every signal
// steps once a tick gives each vehicle a trip past signals that keep their schedule.
module Journeys {
  import opened Options
  import opened Signals
  import opened Traffic
  import opened Arrival
  import Dijkstra

  // What happens within a tick. Nobody preempts a signal.
  datatype Move = Drive(vehicle: nat) | Change(at: int) | Update | Join(to: int, path: seq<int>)

  // Between two moves every vehicle has finished its step.
  ghost predicate Calm(net: Network, w: World) {
    Conserved(net, w) && forall i :: 0 <= i < |w.vehicles| ==> w.vehicles[i].pc.Idle?
  }

  ghost predicate CanMove(w: World, m: Move) {
    match m
    case Drive(i) => i < |w.vehicles|
    case Change(at) => at in w.signals
    case Update => true
    case Join(to, path) => path != [] && path[|path| - 1] == to
  }

  ghost function Made(net: Network, w: World, m: Move): World
    requires Calm(net, w)
  {
    if !CanMove(w, m) then w
    else match m
      case Drive(i) => WholeStep(net, w, i)
      case Change(at) => Act(net, w, Signaled(at))
      case Update => Act(net, w, Congestion)
      case Join(to, path) => Act(net, w, Register(to, path))
  }

  lemma {:induction false} FinishConserves(net: Network, w: World, i: nat)
    requires Conserved(net, w) && i < |w.vehicles|
    ensures Conserved(net, Finish(net, w, i))
    decreases Rank(w.vehicles[i].pc)
  {
    if !w.vehicles[i].pc.Idle? {
      SectionConserves(net, w, i);
      FinishConserves(net, NextSection(net, w, i), i);
    }
  }

  lemma DriveIsCalm(net: Network, w: World, i: nat)
    requires Calm(net, w) && i < |w.vehicles|
    ensures Calm(net, WholeStep(net, w, i))
    ensures w.vehicles[i].idx < |w.vehicles[i].path|
    ensures var (v, signals, roads) := StepVehicle(net, w.vehicles[i], w.signals, w.roads);
      WholeStep(net, w, i) == World(w.vehicles[i := v], signals, roads)
  {
    WholeStepIsStepVehicle(net, w, i);
    SectionConserves(net, w, i);
    FinishConserves(net, NextSection(net, w, i), i);
  }

  lemma MadeIsCalm(net: Network, w: World, m: Move)
    requires Calm(net, w)
    ensures Calm(net, Made(net, w, m))
  {
    if CanMove(w, m) {
      match m {
        case Drive(i) => DriveIsCalm(net, w, i);
        case Change(at) => ActConserves(net, w, Signaled(at));
        case Update => ActConserves(net, w, Congestion);
        case Join(to, path) => ActConserves(net, w, Register(to, path));
      }
    }
  }

  // What one move does to a vehicle, a signal and the roads -----------------------------

  // The same signal but for its queues.
  ghost predicate SameBut(s: Signal, t: Signal) {
    t == s.(queueNS := t.queueNS, queueEW := t.queueEW)
  }

  // Vehicle i moves only by its own move, which is one local step.
  ghost predicate Drives(net: Network, w: World, m: Move, u: World, i: nat) {
    && i < |w.vehicles| <= |u.vehicles| && w.vehicles[i].idx < |w.vehicles[i].path|
    && u.vehicles[i] ==
         if m != Drive(i) then w.vehicles[i]
         else LocalStep(w.vehicles[i], w.signals.Keys, PhaseAt(w.signals, w.vehicles[i]),
                        HopAt(net, w.roads, w.vehicles[i]))
  }

  // Other moves reach a signal's queues at most; its own is one tick.
  ghost predicate Changes(net: Network, w: World, m: Move, u: World, at: int) {
    && at in w.signals && at in u.signals
    && w.signals[at].queueNS >= 0 && w.signals[at].queueEW >= 0
    && if m == Change(at) then u.signals[at] == StepSignal(net.cfg, w.signals[at])
       else SameBut(w.signals[at], u.signals[at])
  }

  // The roads stay, and so does the range of their congestion.
  ghost predicate Keeps(w: World, u: World) {
    && u.roads.Keys == w.roads.Keys && u.signals.Keys == w.signals.Keys
    && (forall r :: r in w.roads ==> u.roads[r].road == w.roads[r].road)
    && (InRange(w) ==> InRange(u))
  }

  ghost predicate InRange(w: World) {
    forall r :: r in w.roads ==> 1 <= w.roads[r].congestion <= 10
  }

  lemma MadeDrives(net: Network, w: World, m: Move, i: nat)
    requires Calm(net, w) && i < |w.vehicles|
    ensures Drives(net, w, m, Made(net, w, m), i)
  {
    assert Sound(net, w, w.vehicles[i]);
    if m.Drive? && CanMove(w, m) {
      DriveIsCalm(net, w, m.vehicle);
    }
  }

  lemma MadeChanges(net: Network, w: World, m: Move, at: int)
    requires Calm(net, w) && at in w.signals
    ensures Changes(net, w, m, Made(net, w, m), at)
  {
    assert Counter(w, Queue(at, NS)) == Count(w.vehicles, Queue(at, NS));
    assert Counter(w, Queue(at, EW)) == Count(w.vehicles, Queue(at, EW));
    if m.Drive? && CanMove(w, m) {
      DriveIsCalm(net, w, m.vehicle);
    }
  }

  lemma DriveKeeps(net: Network, w: World, i: nat)
    requires Calm(net, w) && i < |w.vehicles|
    ensures Keeps(w, WholeStep(net, w, i))
  {
    DriveIsCalm(net, w, i);
  }

  lemma MadeKeeps(net: Network, w: World, m: Move)
    requires Calm(net, w)
    ensures Keeps(w, Made(net, w, m))
  {
    if m.Drive? && CanMove(w, m) {
      DriveKeeps(net, w, m.vehicle);
    }
  }

  // One tick ---------------------------------------------------------------------------

  // The worlds of a tick, before and after each of its moves.
  ghost predicate Course(net: Network, ws: seq<World>, ms: seq<Move>) {
    && |ws| == |ms| + 1
    && forall k :: 0 <= k < |ms| ==> CourseAt(net, ws, ms, k)
  }

  ghost predicate CourseAt(net: Network, ws: seq<World>, ms: seq<Move>, k: nat)
    requires |ws| == |ms| + 1 && k < |ms|
  {
    Calm(net, ws[k]) && ws[k + 1] == Made(net, ws[k], ms[k])
  }

  // The move is made once in the tick, at place p.
  ghost predicate OnlyAt(ms: seq<Move>, m: Move, p: nat) {
    p < |ms| && ms[p] == m && forall k :: 0 <= k < |ms| && ms[k] == m ==> k == p
  }

  // The three views of a course that the rest needs.
  ghost predicate Driven(net: Network, ws: seq<World>, ms: seq<Move>, i: nat) {
    |ws| == |ms| + 1 && forall k :: 0 <= k < |ms| ==> Drives(net, ws[k], ms[k], ws[k + 1], i)
  }

  ghost predicate Changed(net: Network, ws: seq<World>, ms: seq<Move>, at: int) {
    |ws| == |ms| + 1 && forall k :: 0 <= k < |ms| ==> Changes(net, ws[k], ms[k], ws[k + 1], at)
  }

  ghost predicate Kept(ws: seq<World>) {
    forall k :: 0 <= k < |ws| - 1 ==> Keeps(ws[k], ws[k + 1])
  }

  lemma {:induction false} CourseGrows(net: Network, ws: seq<World>, ms: seq<Move>, i: nat, at: int, k: nat)
    requires Course(net, ws, ms) && k <= |ms| && i < |ws[0].vehicles| && at in ws[0].signals
    ensures i < |ws[k].vehicles| && at in ws[k].signals
  {
    if k > 0 {
      CourseGrows(net, ws, ms, i, at, k - 1);
      assert CourseAt(net, ws, ms, k - 1);
      MadeDrives(net, ws[k - 1], ms[k - 1], i);
      MadeChanges(net, ws[k - 1], ms[k - 1], at);
    }
  }

  lemma CourseViews(net: Network, ws: seq<World>, ms: seq<Move>, i: nat, at: int)
    requires Course(net, ws, ms) && i < |ws[0].vehicles| && at in ws[0].signals
    ensures Driven(net, ws, ms, i) && Changed(net, ws, ms, at) && Kept(ws)
  {
    forall k | 0 <= k < |ms|
      ensures Drives(net, ws[k], ms[k], ws[k + 1], i) && Changes(net, ws[k], ms[k], ws[k + 1], at)
      ensures Keeps(ws[k], ws[k + 1])
    {
      CourseGrows(net, ws, ms, i, at, k);
      assert CourseAt(net, ws, ms, k);
      MadeDrives(net, ws[k], ms[k], i);
      MadeChanges(net, ws[k], ms[k], at);
      MadeKeeps(net, ws[k], ms[k]);
    }
  }

  lemma {:induction false} KeptTo(ws: seq<World>, k: nat)
    requires Kept(ws) && k < |ws|
    ensures Keeps(ws[0], ws[k])
  {
    if k > 0 {
      KeptTo(ws, k - 1);
      assert Keeps(ws[k - 1], ws[k]);
    }
  }

  lemma {:induction false} Undriven(net: Network, ws: seq<World>, ms: seq<Move>, i: nat, p: nat, q: nat)
    requires Driven(net, ws, ms, i) && p <= q <= |ms| && i < |ws[p].vehicles|
    requires forall k :: p <= k < q ==> ms[k] != Drive(i)
    ensures i < |ws[q].vehicles| && ws[q].vehicles[i] == ws[p].vehicles[i]
  {
    if p < q {
      Undriven(net, ws, ms, i, p, q - 1);
      assert Drives(net, ws[q - 1], ms[q - 1], ws[q], i);
    }
  }

  lemma {:induction false} Unchanged(net: Network, ws: seq<World>, ms: seq<Move>, at: int, p: nat, q: nat)
    requires Changed(net, ws, ms, at) && p <= q <= |ms| && at in ws[p].signals
    requires forall k :: p <= k < q ==> ms[k] != Change(at)
    ensures at in ws[q].signals && SameBut(ws[p].signals[at], ws[q].signals[at])
  {
    if p < q {
      Unchanged(net, ws, ms, at, p, q - 1);
      assert Changes(net, ws[q - 1], ms[q - 1], ws[q], at);
    }
  }

  // In a tick the vehicle takes one step, with what its moment shows.
  lemma DriveOnce(net: Network, ws: seq<World>, ms: seq<Move>, i: nat, p: nat)
    requires Driven(net, ws, ms, i) && OnlyAt(ms, Drive(i), p) && i < |ws[0].vehicles|
    ensures i < |ws[|ms|].vehicles| && ws[0].vehicles[i].idx < |ws[0].vehicles[i].path|
    ensures var v := ws[0].vehicles[i];
      ws[|ms|].vehicles[i] == LocalStep(v, ws[p].signals.Keys, PhaseAt(ws[p].signals, v), HopAt(net, ws[p].roads, v))
  {
    Undriven(net, ws, ms, i, 0, p);
    assert Drives(net, ws[p], ms[p], ws[p + 1], i);
    Undriven(net, ws, ms, i, p + 1, |ms|);
  }

  // And the signal takes one tick, whatever its queues are by then. At place p its phase
  // is the one before the tick or the one after it.
  lemma ChangeOnce(net: Network, ws: seq<World>, ms: seq<Move>, at: int, p: nat, q: nat)
    requires Changed(net, ws, ms, at) && OnlyAt(ms, Change(at), q) && p < |ms| && p != q && at in ws[0].signals
    ensures at in ws[p].signals && at in ws[|ms|].signals
    ensures Ticks(net.cfg, ws[0].signals[at], ws[|ms|].signals[at])
    ensures ws[p].signals[at].phase == if p < q then ws[0].signals[at].phase else ws[|ms|].signals[at].phase
  {
    Unchanged(net, ws, ms, at, 0, q);
    assert Changes(net, ws[q], ms[q], ws[q + 1], at);
    Unchanged(net, ws, ms, at, q + 1, |ms|);
    if p < q {
      Unchanged(net, ws, ms, at, 0, p);
    } else {
      Unchanged(net, ws, ms, at, q + 1, p);
      Unchanged(net, ws, ms, at, p, |ms|);
    }
    var s := ws[q].signals[at];
    assert TicksWith(net.cfg, ws[0].signals[at], ws[|ms|].signals[at], s.queueNS, s.queueEW);
  }

  // Travel times ---------------------------------------------------------------------------

  // A road takes longest when it is most congested.
  lemma SlowestCongested(r: RoadState, c: int)
    requires 1 <= c <= 10
    ensures 1 <= TravelTicks(r.(congestion := c)) <= TravelTicks(r.(congestion := 10))
  {
    var a := Dijkstra.WeightMinutes(r.road.(congestion := c));
    var b := Dijkstra.WeightMinutes(r.road.(congestion := 10));
    MoreCongested(r.road, c);
    CeilGrows(a, b);
    TicksOf(r, c);
    TicksOf(r, 10);
  }

  lemma TicksOf(r: RoadState, c: int)
    ensures var x := Ceil(Dijkstra.WeightMinutes(r.road.(congestion := c)));
      TravelTicks(r.(congestion := c)) == if x < 1 then 1 else x
  {
  }

  lemma MoreCongested(r: Dijkstra.Road, c: int)
    requires 1 <= c <= 10
    ensures var a, b := Dijkstra.WeightMinutes(r.(congestion := c)), Dijkstra.WeightMinutes(r.(congestion := 10));
      a <= b || (a <= 0.0 && b <= 0.0)
  {
    if r.speedLimit > 0.0 {
      MinutesOf(r, c);
      MinutesOf(r, 10);
      MinutesGrow(r.distance / r.speedLimit, Factor(c), Factor(10));
    }
  }

  function Factor(c: int): real {
    1.0 + (c - 1) as real / 10.0
  }

  lemma MinutesOf(r: Dijkstra.Road, c: int)
    requires r.speedLimit > 0.0
    ensures Dijkstra.WeightMinutes(r.(congestion := c)) == Minutes(r.distance / r.speedLimit, Factor(c))
  {
  }

  function Minutes(base: real, factor: real): real {
    Scaled(base * factor)
  }

  function Scaled(x: real): real {
    x * 60.0
  }

  lemma MinutesGrow(base: real, x: real, y: real)
    requires 0.0 <= x <= y
    ensures Minutes(base, x) <= Minutes(base, y) || (Minutes(base, x) <= 0.0 && Minutes(base, y) <= 0.0)
  {
    var p, q := base * x, base * y;
    if base >= 0.0 {
      var gap := y - x;
      var more := base * gap;
      assert more == q - p;
      NonNegative(base, gap, more);
    } else {
      var less := -base;
      NonNegative(less, x, less * x);
      NonNegative(less, y, less * y);
      assert less * x == -p && less * y == -q;
    }
  }

  lemma CeilGrows(a: real, b: real)
    ensures a <= b ==> Ceil(a) <= Ceil(b)
    ensures a <= 0.0 ==> Ceil(a) <= 0
  {
  }

  // Runs -------------------------------------------------------------------------------------

  // A run, tick by tick: the moves of each tick and the worlds between them.
  datatype Run = Run(ms: nat -> seq<Move>, ws: nat -> seq<World>)

  ghost predicate TickAt(net: Network, r: Run, n: nat) {
    && Course(net, r.ws(n), r.ms(n)) && |r.ws(n + 1)| > 0
    && r.ws(n + 1)[0] == r.ws(n)[|r.ms(n)|]
  }

  ghost predicate Once(ms: seq<Move>, m: Move) {
    exists p: nat :: OnlyAt(ms, m, p)
  }

  ghost function Place(ms: seq<Move>, m: Move): (p: nat)
    ensures Once(ms, m) ==> OnlyAt(ms, m, p)
  {
    if Once(ms, m) then
      var p: nat :| OnlyAt(ms, m, p);
      p
    else 0
  }

  // The world at the start of tick n + 1.
  ghost function Dawn(r: Run, n: nat): World {
    if |r.ws(n)| > 0 then r.ws(n)[0] else World([], map[], map[])
  }

  // The world in which vehicle i takes its step of tick n + 1.
  ghost function Moment(r: Run, i: nat, n: nat): World {
    var p := Place(r.ms(n), Drive(i));
    if p < |r.ws(n)| then r.ws(n)[p] else World([], map[], map[])
  }

  // In every tick vehicle i steps once.
  ghost predicate StepsOnce(net: Network, r: Run, i: nat) {
    forall n: nat :: DrivesAt(net, r, i, n)
  }

  ghost predicate DrivesAt(net: Network, r: Run, i: nat, n: nat) {
    TickAt(net, r, n) && Once(r.ms(n), Drive(i))
  }

  // In every tick the signal ticks once.
  ghost predicate Beats(r: Run, at: int) {
    forall n: nat :: BeatsAt(r, at, n)
  }

  ghost predicate BeatsAt(r: Run, at: int, n: nat) {
    Once(r.ms(n), Change(at))
  }

  // Vehicle i starts out on the path, over roads that take at most `longest` ticks even
  // at their most congested, past signals that keep their schedule.
  ghost predicate SetsOut(net: Network, r: Run, i: nat, path: seq<int>, longest: nat) {
    var w := Dawn(r, 0);
    && path != [] && i < |w.vehicles| && w.vehicles[i] == NewVehicle(path[|path| - 1], path) && InRange(w)
    && (forall k :: 0 <= k < |path| ==> path[k] in w.signals && Timed(net.cfg, w.signals[path[k]]) && Beats(r, path[k]))
    && (forall k :: 0 <= k < |path| - 1 ==> RoadBetween(net, w, path[k], path[k + 1], longest))
  }

  ghost predicate RoadBetween(net: Network, w: World, from: int, to: int, longest: nat) {
    var link := FirstLink(if from in net.adj then net.adj[from] else [], to);
    link.Some? && link.value in w.roads && TravelTicks(w.roads[link.value].(congestion := 10)) <= longest
  }

  lemma {:induction false} RunKeeps(net: Network, r: Run, i: nat, path: seq<int>, longest: nat, n: nat)
    requires StepsOnce(net, r, i) && SetsOut(net, r, i, path, longest)
    ensures |r.ws(n)| == |r.ms(n)| + 1
    ensures i < |Dawn(r, n).vehicles| && Dawn(r, n).vehicles[i].path == path && InRange(Dawn(r, n))
    ensures Keeps(Dawn(r, 0), Dawn(r, n))
  {
    assert DrivesAt(net, r, i, n);
    if n > 0 {
      assert DrivesAt(net, r, i, n - 1);
      RunKeeps(net, r, i, path, longest, n - 1);
      TickKeeps(net, r.ws(n - 1), r.ms(n - 1), i, path[0], Place(r.ms(n - 1), Drive(i)));
    }
  }

  lemma TickKeeps(net: Network, ws: seq<World>, ms: seq<Move>, i: nat, at: int, p: nat)
    requires Course(net, ws, ms) && OnlyAt(ms, Drive(i), p) && i < |ws[0].vehicles| && at in ws[0].signals
    ensures Keeps(ws[0], ws[|ms|]) && Keeps(ws[0], ws[p])
    ensures i < |ws[|ms|].vehicles| && ws[|ms|].vehicles[i].path == ws[0].vehicles[i].path
    ensures ws[0].vehicles[i].idx < |ws[0].vehicles[i].path|
    ensures var v := ws[0].vehicles[i];
      ws[|ms|].vehicles[i] == LocalStep(v, ws[p].signals.Keys, PhaseAt(ws[p].signals, v), HopAt(net, ws[p].roads, v))
  {
    CourseViews(net, ws, ms, i, at);
    KeptTo(ws, |ms|);
    KeptTo(ws, p);
    DriveOnce(net, ws, ms, i, p);
  }

  // The vehicle's trip ---------------------------------------------------------------------

  ghost function VehicleAt(r: Run, i: nat, n: nat): Vehicle {
    if i < |Dawn(r, n).vehicles| then Dawn(r, n).vehicles[i] else NewVehicle(0, [0])
  }

  ghost function PhaseSeen(r: Run, i: nat, at: int, n: nat): Phase {
    if at in Moment(r, i, n).signals then Moment(r, i, n).signals[at].phase else GreenNS
  }

  ghost function HopOffered(net: Network, r: Run, i: nat, n: nat): Option<(int, int)> {
    var v := VehicleAt(r, i, n);
    if v.idx < |v.path| then HopAt(net, Moment(r, i, n).roads, v) else None
  }

  ghost function SignalAt(r: Run, at: int, n: nat): Signal {
    if at in Dawn(r, n).signals then Dawn(r, n).signals[at] else Signal(GreenNS, 0, 0, 0, false, GreenNS, 0)
  }

  ghost function TripOf(net: Network, r: Run, i: nat): Trip {
    Trip((n: nat) => VehicleAt(r, i, n), (at: int) => (n: nat) => PhaseSeen(r, i, at, n),
         (n: nat) => HopOffered(net, r, i, n))
  }

  ghost function HistoryOf(r: Run): int -> (nat -> Signal) {
    (at: int) => (n: nat) => SignalAt(r, at, n)
  }

  // The hop offered on a road that is there takes at most the longest time.
  lemma HopInTime(net: Network, w: World, u: World, v: Vehicle, longest: nat)
    requires v.idx + 1 < |v.path| && RoadBetween(net, w, v.path[v.idx], v.path[v.idx + 1], longest)
    requires Keeps(w, u) && InRange(u)
    ensures var hop := HopAt(net, u.roads, v);
      hop.Some? && 1 <= hop.value.1 <= longest
  {
    var from, to := v.path[v.idx], v.path[v.idx + 1];
    var id := FirstLink(if from in net.adj then net.adj[from] else [], to).value;
    SlowestCongested(u.roads[id], u.roads[id].congestion);
    assert TravelTicks(u.roads[id].(congestion := 10)) == TravelTicks(w.roads[id].(congestion := 10));
    assert u.roads[id].(congestion := u.roads[id].congestion) == u.roads[id];
  }

  lemma StepInTrip(net: Network, r: Run, i: nat, path: seq<int>, longest: nat, n: nat)
    requires StepsOnce(net, r, i) && SetsOut(net, r, i, path, longest)
    ensures StepsAt(TripOf(net, r, i), Dawn(r, 0).signals.Keys, longest, n)
  {
    RunKeeps(net, r, i, path, longest, n);
    RunKeeps(net, r, i, path, longest, n + 1);
    assert DrivesAt(net, r, i, n) && DrivesAt(net, r, i, n + 1);
    TickKeeps(net, r.ws(n), r.ms(n), i, path[0], Place(r.ms(n), Drive(i)));
    var v := VehicleAt(r, i, n);
    if v.idx + 1 < |path| {
      HopInTime(net, Dawn(r, 0), Moment(r, i, n), v, longest);
    }
  }

  lemma RunMakesTrip(net: Network, r: Run, i: nat, path: seq<int>, longest: nat)
    requires StepsOnce(net, r, i) && SetsOut(net, r, i, path, longest)
    ensures IsTrip(TripOf(net, r, i), path, Dawn(r, 0).signals.Keys, longest)
  {
    forall n: nat ensures StepsAt(TripOf(net, r, i), Dawn(r, 0).signals.Keys, longest, n) {
      StepInTrip(net, r, i, path, longest, n);
    }
  }

  // The signals along it keep their schedule, and are seen before or after their tick.
  lemma SignalInRun(net: Network, r: Run, i: nat, path: seq<int>, longest: nat, k: nat, n: nat)
    requires StepsOnce(net, r, i) && SetsOut(net, r, i, path, longest) && k < |path|
    ensures var at := path[k];
      && Ticks(net.cfg, SignalAt(r, at, n), SignalAt(r, at, n + 1))
      && PhaseSeen(r, i, at, n) ==
           SignalAt(r, at, if Place(r.ms(n), Drive(i)) < Place(r.ms(n), Change(at)) then n else n + 1).phase
  {
    var at := path[k];
    assert Beats(r, at) && BeatsAt(r, at, n);
    RunKeeps(net, r, i, path, longest, n);
    RunKeeps(net, r, i, path, longest, n + 1);
    assert DrivesAt(net, r, i, n);
    CourseViews(net, r.ws(n), r.ms(n), i, at);
    ChangeOnce(net, r.ws(n), r.ms(n), at, Place(r.ms(n), Drive(i)), Place(r.ms(n), Change(at)));
  }

  lemma RunMakesHistories(net: Network, r: Run, i: nat, path: seq<int>, longest: nat)
    requires StepsOnce(net, r, i) && SetsOut(net, r, i, path, longest)
    ensures Histories(net.cfg, path, HistoryOf(r)) && InAnyOrder(TripOf(net, r, i), path, HistoryOf(r))
  {
    forall k | 0 <= k < |path|
      ensures History(net.cfg, HistoryOf(r)(path[k]))
      ensures Sees(HistoryOf(r)(path[k]), TripOf(net, r, i).seen(path[k]))
    {
      forall n: nat ensures TicksAt(net.cfg, HistoryOf(r)(path[k]), n) {
        SignalInRun(net, r, i, path, longest, k, n);
      }
      forall n: nat ensures PhaseSeen(r, i, path[k], n) == SignalAt(r, path[k], n).phase
                         || PhaseSeen(r, i, path[k], n) == SignalAt(r, path[k], n + 1).phase {
        SignalInRun(net, r, i, path, longest, k, n);
      }
    }
  }

  // At each stop the vehicle steps before the signal in every tick, or in every tick
  // after it, where `late`.
  ghost predicate FixedOrder(r: Run, i: nat, path: seq<int>, late: int -> bool) {
    forall n: nat, k: nat :: k < |path| ==>
      (Place(r.ms(n), Change(path[k])) < Place(r.ms(n), Drive(i)) <==> late(path[k]))
  }

  lemma FixedOrderIsInOrder(net: Network, r: Run, i: nat, path: seq<int>, longest: nat, late: int -> bool)
    requires StepsOnce(net, r, i) && SetsOut(net, r, i, path, longest) && FixedOrder(r, i, path, late)
    ensures InOrder(TripOf(net, r, i), path, HistoryOf(r))
  {
    forall k | 0 <= k < |path|
      ensures SeesInOrder(HistoryOf(r)(path[k]), TripOf(net, r, i).seen(path[k]), late(path[k]))
    {
      forall n: nat
        ensures PhaseSeen(r, i, path[k], n) == SignalAt(r, path[k], if late(path[k]) then n + 1 else n).phase
      {
        SignalInRun(net, r, i, path, longest, k, n);
        assert DrivesAt(net, r, i, n) && BeatsAt(r, path[k], n);
      }
    }
  }

  // In every run without preemption in which the vehicle and the signals of its path step
  // once a tick, in a fixed order at each stop, the vehicle has arrived by the bound.
  lemma VehicleArrivesInOrder(net: Network, r: Run, i: nat, path: seq<int>, longest: nat, late: int -> bool, n: nat)
    requires Sane(net.cfg) && StepsOnce(net, r, i) && SetsOut(net, r, i, path, longest) && FixedOrder(r, i, path, late)
    requires n >= (|path| - 1) * (Cycle(net.cfg) + longest) + 1
    ensures VehicleAt(r, i, n).state.Arrived?
  {
    RunMakesTrip(net, r, i, path, longest);
    RunMakesHistories(net, r, i, path, longest);
    FixedOrderIsInOrder(net, r, i, path, longest, late);
    ArrivesInOrder(net.cfg, TripOf(net, r, i), path, Dawn(r, 0).signals.Keys, longest, HistoryOf(r), n);
  }

  // And in any order by the other bound, for a minimum green of two ticks.
  lemma VehicleArrivesInAnyOrder(net: Network, r: Run, i: nat, path: seq<int>, longest: nat, n: nat)
    requires Sane(net.cfg) && net.cfg.minGreen >= 2 && StepsOnce(net, r, i) && SetsOut(net, r, i, path, longest)
    requires n >= (|path| - 1) * (Cycle(net.cfg) + 1 + longest) + 1
    ensures VehicleAt(r, i, n).state.Arrived?
  {
    RunMakesTrip(net, r, i, path, longest);
    RunMakesHistories(net, r, i, path, longest);
    ArrivesInAnyOrder(net.cfg, TripOf(net, r, i), path, Dawn(r, 0).signals.Keys, longest, HistoryOf(r), n);
  }

  // Lock step ------------------------------------------------------------------------------

  // In every tick everything that is there at its beginning steps once: every vehicle,
  // every signal and the congestion of the roads.
  ghost predicate LockStep(net: Network, r: Run) {
    forall n: nat :: LockedAt(net, r, n)
  }

  ghost predicate LockedAt(net: Network, r: Run, n: nat) {
    && TickAt(net, r, n) && Once(r.ms(n), Update)
    && (forall i: nat :: i < |Dawn(r, n).vehicles| ==> Once(r.ms(n), Drive(i)))
    && (forall at :: at in Dawn(r, n).signals ==> BeatsAt(r, at, n))
  }

  lemma {:induction false} StaysInCourse(net: Network, ws: seq<World>, ms: seq<Move>, i: nat, k: nat)
    requires Course(net, ws, ms) && k <= |ms| && i < |ws[0].vehicles|
    ensures i < |ws[k].vehicles|
  {
    if k > 0 {
      StaysInCourse(net, ws, ms, i, k - 1);
      assert CourseAt(net, ws, ms, k - 1);
      MadeDrives(net, ws[k - 1], ms[k - 1], i);
    }
  }

  lemma {:induction false} StaysInRun(net: Network, r: Run, i: nat, n: nat)
    requires LockStep(net, r) && i < |Dawn(r, 0).vehicles|
    ensures i < |Dawn(r, n).vehicles|
  {
    if n > 0 {
      StaysInRun(net, r, i, n - 1);
      assert LockedAt(net, r, n - 1);
      StaysInCourse(net, r.ws(n - 1), r.ms(n - 1), i, |r.ms(n - 1)|);
    }
  }

  lemma LockStepStepsOnce(net: Network, r: Run, i: nat)
    requires LockStep(net, r) && i < |Dawn(r, 0).vehicles|
    ensures StepsOnce(net, r, i)
  {
    forall n: nat ensures DrivesAt(net, r, i, n) {
      StaysInRun(net, r, i, n);
      assert LockedAt(net, r, n);
    }
  }
}
