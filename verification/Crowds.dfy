// A town whose side streets never empty: at every stop of a line of streets, more
// vehicles come from the side each tick than a green can be long. What the signals do
// then, whatever has become of the vehicles that came before.
module Crowds {
  import opened Options
  import opened Signals
  import opened Traffic
  import opened Journeys
  import Dijkstra

  // The schedule ---------------------------------------------------------------------------

  // Where a signal stands: its phase and the ticks left of it.
  datatype Clock = Clock(phase: Phase, remaining: int)

  // With a crowd on the side street, the line gets the least green and the side the most.
  function Limit(cfg: Config, p: Phase): int {
    match p
    case GreenNS => cfg.minGreen
    case GreenEW => cfg.maxGreen
    case _ => cfg.yellow
  }

  function After(p: Phase): Phase {
    match p
    case GreenNS => YellowNS
    case YellowNS => GreenEW
    case GreenEW => YellowEW
    case YellowEW => GreenNS
  }

  function Before(p: Phase): Phase {
    match p
    case GreenNS => YellowEW
    case YellowNS => GreenNS
    case GreenEW => YellowNS
    case YellowEW => GreenEW
  }

  function Forward(cfg: Config, c: Clock): Clock {
    if c.remaining > 1 then c.(remaining := c.remaining - 1)
    else Clock(After(c.phase), Limit(cfg, After(c.phase)))
  }

  function Backward(cfg: Config, c: Clock): Clock {
    if c.remaining < Limit(cfg, c.phase) then c.(remaining := c.remaining + 1)
    else Clock(Before(c.phase), 1)
  }

  ghost predicate InTime(cfg: Config, c: Clock) {
    1 <= c.remaining <= Limit(cfg, c.phase)
  }

  ghost predicate Shows(s: Signal, c: Clock) {
    !s.preempt && s.phase == c.phase && s.remaining == c.remaining
  }

  // The schedule on which NS turns yellow at the beginning of tick `start`.
  function ClockAt(cfg: Config, start: nat, n: nat): (c: Clock)
    requires Sane(cfg)
    ensures InTime(cfg, c)
    decreases if n >= start then n - start else start - n
  {
    if n == start then Clock(YellowNS, cfg.yellow)
    else if n > start then Forward(cfg, ClockAt(cfg, start, n - 1))
    else Backward(cfg, ClockAt(cfg, start, n + 1))
  }

  lemma ClockForward(cfg: Config, start: nat, n: nat)
    requires Sane(cfg)
    ensures ClockAt(cfg, start, n + 1) == Forward(cfg, ClockAt(cfg, start, n))
  {
  }

  // Green times ------------------------------------------------------------------------------

  // At most one vehicle on the line, and a crowd on the side street.
  ghost predicate Crowded(cfg: Config, s: Signal) {
    0 <= s.queueNS <= 1 && s.queueEW >= 2 * cfg.maxGreen
  }

  lemma CrowdedGreen(cfg: Config, s: Signal)
    requires Sane(cfg) && Crowded(cfg, s)
    ensures AdaptiveGreen(cfg, s, NS) == cfg.minGreen && AdaptiveGreen(cfg, s, EW) == cfg.maxGreen
  {
    ShareOfCrowd(cfg, s.queueNS, s.queueNS + s.queueEW);
  }

  lemma ShareOfCrowd(cfg: Config, line: int, total: int)
    requires Sane(cfg) && 0 <= line <= 1 && total - line >= 2 * cfg.maxGreen
    ensures Share(cfg, line, total) == cfg.minGreen && Share(cfg, total - line, total) == cfg.maxGreen
  {
    var ns, ew := line as real / total as real, (total - line) as real / total as real;
    var range := (cfg.maxGreen - cfg.minGreen) as real;
    var x := ns * range;
    SmallShare(ns, total as real, range, ns * total as real, x);
    SharesSum(ns, ew, total as real, line as real, (total - line) as real);
    RestOf(ns, range, x);
    RoundsTo(cfg.minGreen, x);
    RoundsTo(cfg.maxGreen, x);
    assert ew * range == range - x;
  }

  lemma RoundsTo(n: nat, x: real)
    requires 0.0 <= x < 0.5
    ensures Round(n as real + x) == n && (n > 0 ==> Round(n as real - x) == n)
  {
  }

  // A share that comes to one at most, in a total more than twice the range.
  lemma SmallShare(ns: real, total: real, range: real, p: real, x: real)
    requires total > 2.0 * range >= 0.0 && p == ns * total && 0.0 <= p <= 1.0 && x == ns * range && ns >= 0.0
    ensures 0.0 <= x < 0.5
  {
    var gap := total - 2.0 * range;
    var g := ns * gap;
    assert g == p - 2.0 * x;
    if ns > 0.0 {
      assert g > 0.0;
    } else {
      assert x == 0.0;
    }
  }

  lemma SharesSum(ns: real, ew: real, total: real, p: real, q: real)
    requires total > 0.0 && p == ns * total && q == ew * total && p + q == total
    ensures ew == 1.0 - ns
  {
    var d := ns + ew - 1.0;
    assert d * total == p + q - total;
    ZeroFactor(d, total, d * total);
  }

  lemma ZeroFactor(d: real, total: real, z: real)
    requires total > 0.0 && z == d * total
    ensures z == 0.0 ==> d == 0.0
  {
    if d > 0.0 {
      assert z > 0.0;
    } else if d < 0.0 {
      assert z < 0.0;
    }
  }

  lemma RestOf(ns: real, range: real, x: real)
    requires x == ns * range
    ensures (1.0 - ns) * range == range - x
  {
  }

  // A signal over such queues follows the schedule.
  lemma CrowdedTick(cfg: Config, s: Signal, c: Clock)
    requires Sane(cfg) && Shows(s, c) && InTime(cfg, c) && s.queueNS >= 0 && s.queueEW >= 0
    requires c.phase.YellowNS? || c.phase.YellowEW? ==> Crowded(cfg, s)
    ensures Shows(StepSignal(cfg, s), Forward(cfg, c))
  {
    if c.phase.YellowNS? || c.phase.YellowEW? {
      CrowdedGreen(cfg, s);
    }
  }

  // The town ---------------------------------------------------------------------------------

  // Stops 0 to hops in a line, the hops between them of `longest` ticks. Stop k turns NS
  // yellow at the beginning of tick start(k). In tick n, stop k ticks before vehicle 0
  // steps if late(n, k), after it otherwise.
  datatype Town = Town(cfg: Config, hops: nat, longest: nat, start: int -> nat, late: (nat, int) -> bool)

  ghost predicate Fit(t: Town) {
    Sane(t.cfg) && t.longest >= 1
  }

  // Where the side streets lead: from every stop this goes east.
  function Side(t: Town): int {
    t.hops + 2
  }

  // From every stop a road up the line and one to the side.
  function Net(t: Town): Network {
    Network(t.cfg, map k: int | 0 <= k <= t.hops :: LinksFrom(t, k))
  }

  function LinksFrom(t: Town, k: int): seq<Link> {
    [Link(k + 1, Some(k)), Link(Side(t), Some(t.hops + 1 + k))]
  }

  function Roads(t: Town): map<int, RoadState> {
    map r: int | 0 <= r <= 2 * t.hops + 1 :: EmptyRoad(t, r)
  }

  // No speed limit: congestion does not slow these roads.
  function EmptyRoad(t: Town, r: int): RoadState {
    RoadState(Dijkstra.Road(t.longest as real, 0.0, 2), 2, 0)
  }

  // The stops where the vehicles of one crowd begin: m at each.
  function Crowd(stops: nat, m: nat): (ps: seq<int>)
    ensures forall a :: 0 <= a < |ps| ==> 0 <= ps[a] < stops
  {
    if stops == 0 then [] else Crowd(stops - 1, m) + seq(m, _ => stops - 1)
  }

  lemma {:induction false} CrowdHas(stops: nat, m: nat, k: nat)
    requires k < stops
    ensures multiset(Crowd(stops, m))[k] == m
  {
    var last := seq(m, _ => stops - 1);
    Same(last, stops - 1, k);
    if k < stops - 1 {
      CrowdHas(stops - 1, m, k);
    } else {
      NotIn(Crowd(stops - 1, m), k);
    }
  }

  lemma {:induction false} Same(s: seq<int>, x: int, k: int)
    requires forall i :: 0 <= i < |s| ==> s[i] == x
    ensures multiset(s)[k] == if k == x then |s| else 0
  {
    if s != [] {
      assert s == [s[0]] + s[1..];
      Same(s[1..], x, k);
    }
  }

  lemma NotIn(s: seq<int>, k: int)
    requires k !in s
    ensures multiset(s)[k] == 0
  {
    assert k !in multiset(s);
  }

  function Comers(t: Town): seq<int>
    requires Sane(t.cfg)
  {
    Crowd(t.hops + 1, 2 * t.cfg.maxGreen)
  }

  // What the queues read -----------------------------------------------------------------------

  // A vehicle that came from the side at stop s.
  ghost predicate FromSide(t: Town, v: Vehicle) {
    |v.path| == 2 && 0 <= v.path[0] <= t.hops && v.path[1] == Side(t)
  }

  // One that has not left the stop yet.
  ghost predicate Comes(t: Town, v: Vehicle, s: int) {
    v.path == [s, Side(t)] && v.to == Side(t) && v.idx == 0 && !v.state.OnRoad? && !v.state.Arrived?
  }

  // Every vehicle but the first came from the side.
  ghost predicate SideTraffic(t: Town, w: World) {
    w.vehicles != [] && forall i :: 1 <= i < |w.vehicles| ==> FromSide(t, w.vehicles[i])
  }

  lemma {:induction false} CountAtLeast(vs: seq<Vehicle>, ps: seq<int>, k: int)
    requires |vs| >= |ps|
    requires forall a :: 0 <= a < |ps| && ps[a] == k ==> IsAt(vs[|vs| - |ps| + a], Queue(k, EW))
    ensures Count(vs, Queue(k, EW)) >= multiset(ps)[k]
    decreases |vs|
  {
    if |vs| > |ps| {
      CountAtLeast(vs[1..], ps, k);
    } else if ps != [] {
      assert ps == [ps[0]] + ps[1..];
      forall a | 0 <= a < |ps[1..]| && ps[1..][a] == k
        ensures IsAt(vs[1..][|vs[1..]| - |ps[1..]| + a], Queue(k, EW))
      {
        assert ps[a + 1] == k;
      }
      CountAtLeast(vs[1..], ps[1..], k);
    }
  }

  lemma {:induction false} CountNone(vs: seq<Vehicle>, s: Spot)
    requires forall i :: 0 <= i < |vs| ==> !IsAt(vs[i], s)
    ensures Count(vs, s) == 0
  {
    if vs != [] {
      CountNone(vs[1..], s);
    }
  }

  lemma NotNorth(net: Network, t: Town, w: World, v: Vehicle, k: int)
    requires Sound(net, w, v) && FromSide(t, v)
    ensures !IsAt(v, Queue(k, NS))
  {
  }

  // Where a crowd waits, the queues are crowded, whoever else is about.
  lemma CrowdIsRead(t: Town, w: World, k: int)
    requires Fit(t) && Calm(Net(t), w) && SideTraffic(t, w) && 0 <= k <= t.hops && k in w.signals
    requires var ps := Comers(t);
      |w.vehicles| >= |ps| && forall a :: 0 <= a < |ps| && ps[a] == k ==>
        IsAt(w.vehicles[|w.vehicles| - |ps| + a], Queue(k, EW))
    ensures Crowded(t.cfg, w.signals[k])
  {
    var vs := w.vehicles;
    CountAtLeast(vs, Comers(t), k);
    CrowdHas(t.hops + 1, 2 * t.cfg.maxGreen, k);
    forall i | 0 <= i < |vs[1..]| ensures !IsAt(vs[1..][i], Queue(k, NS)) {
      NotNorth(Net(t), t, w, vs[i + 1], k);
    }
    CountNone(vs[1..], Queue(k, NS));
    assert Counter(w, Queue(k, NS)) == Count(vs, Queue(k, NS));
    assert Counter(w, Queue(k, EW)) == Count(vs, Queue(k, EW));
  }

  // The run ----------------------------------------------------------------------------------

  // How a day begins: the signals on schedule, the line's vehicle first, and a crowd that
  // has come since, or is about to move up.
  ghost predicate Morning(t: Town, w: World, n: nat)
    requires Fit(t)
  {
    && Calm(Net(t), w) && SideTraffic(t, w) && |w.vehicles| > |Comers(t)|
    && (forall k :: 0 <= k <= t.hops ==> OnSchedule(t, w, k, n))
    && (forall k :: k in w.signals ==> 0 <= k <= t.hops)
    && forall a :: 0 <= a < |Comers(t)| ==> Comes(t, NthComer(t, w, a), Comers(t)[a])
  }

  ghost predicate OnSchedule(t: Town, w: World, k: int, n: nat)
    requires Fit(t)
  {
    k in w.signals && Shows(w.signals[k], ClockAt(t.cfg, t.start(k), n))
  }

  ghost function NthComer(t: Town, w: World, a: nat): Vehicle
    requires Sane(t.cfg) && |w.vehicles| > |Comers(t)| && a < |Comers(t)|
  {
    w.vehicles[|w.vehicles| - |Comers(t)| + a]
  }

  // Vehicles 1 to n - 1.
  function Others(n: nat): (ms: seq<Move>)
    requires n >= 1
    ensures |ms| == n - 1 && forall i :: 0 <= i < n - 1 ==> ms[i] == Drive(i + 1)
  {
    seq(n - 1, i requires 0 <= i < n - 1 => Drive(i + 1))
  }

  // The stops that tick before, or after, vehicle 0 steps.
  function Turns(t: Town, stops: nat, n: nat, before: bool): (ms: seq<Move>)
    ensures forall i :: 0 <= i < |ms| ==> ms[i].Change? && 0 <= ms[i].at < stops && t.late(n, ms[i].at) == before
  {
    if stops == 0 then []
    else Turns(t, stops - 1, n, before) + if t.late(n, stops - 1) == before then [Change(stops - 1)] else []
  }

  function Arrivals(t: Town): (ms: seq<Move>)
    requires Sane(t.cfg)
    ensures |ms| == |Comers(t)|
    ensures forall a :: 0 <= a < |ms| ==> ms[a] == Join(Side(t), [Comers(t)[a], Side(t)])
  {
    var ps := Comers(t);
    seq(|ps|, a requires 0 <= a < |ps| => Join(Side(t), [ps[a], Side(t)]))
  }

  // The moves of tick n + 1 before anyone arrives.
  function Rounds(t: Town, count: nat, n: nat): seq<Move>
    requires count >= 1
  {
    Others(count) + (Turns(t, t.hops + 1, n, true) + ([Drive(0)] + (Turns(t, t.hops + 1, n, false) + [Update])))
  }

  function Moves(t: Town, count: nat, n: nat): seq<Move>
    requires Sane(t.cfg) && count >= 1
  {
    Rounds(t, count, n) + Arrivals(t)
  }

  // Where in a tick the moves are ---------------------------------------------------------------

  lemma InFirst(a: seq<Move>, b: seq<Move>, m: Move, p: nat)
    requires OnlyAt(a, m, p) && m !in b
    ensures OnlyAt(a + b, m, p)
  {
  }

  lemma InSecond(a: seq<Move>, b: seq<Move>, m: Move, p: nat)
    requires m !in a && OnlyAt(b, m, p)
    ensures OnlyAt(a + b, m, |a| + p)
  {
  }

  lemma {:induction false} TurnOnce(t: Town, stops: nat, n: nat, before: bool, k: nat) returns (p: nat)
    requires k < stops && t.late(n, k) == before
    ensures OnlyAt(Turns(t, stops, n, before), Change(k), p)
  {
    var rest := Turns(t, stops - 1, n, before);
    if k == stops - 1 {
      InSecond(rest, [Change(k)], Change(k), 0);
      p := |rest|;
    } else {
      p := TurnOnce(t, stops - 1, n, before, k);
      InFirst(rest, if t.late(n, stops - 1) == before then [Change(stops - 1)] else [], Change(k), p);
    }
  }

  // When vehicle 0 steps.
  function Middle(t: Town, count: nat, n: nat): nat
    requires count >= 1
  {
    count - 1 + |Turns(t, t.hops + 1, n, true)|
  }

  lemma DrivesOnce(t: Town, count: nat, n: nat, i: nat)
    requires Sane(t.cfg) && i < count
    ensures OnlyAt(Moves(t, count, n), Drive(i), if i == 0 then Middle(t, count, n) else i - 1)
  {
    var first, last := Turns(t, t.hops + 1, n, true), Turns(t, t.hops + 1, n, false) + [Update];
    if i == 0 {
      InFirst([Drive(0)], last, Drive(0), 0);
      InSecond(first, [Drive(0)] + last, Drive(0), 0);
      InSecond(Others(count), first + ([Drive(0)] + last), Drive(0), |first|);
      InFirst(Rounds(t, count, n), Arrivals(t), Drive(0), Middle(t, count, n));
    } else {
      InFirst(Others(count), first + ([Drive(0)] + last), Drive(i), i - 1);
      InFirst(Rounds(t, count, n), Arrivals(t), Drive(i), i - 1);
    }
  }

  lemma ChangesOnce(t: Town, count: nat, n: nat, k: nat) returns (q: nat)
    requires Sane(t.cfg) && count >= 1 && k <= t.hops
    ensures OnlyAt(Moves(t, count, n), Change(k), q) && count - 1 <= q < |Rounds(t, count, n)|
    ensures q < Middle(t, count, n) <==> t.late(n, k)
    ensures q != Middle(t, count, n)
  {
    var first, second := Turns(t, t.hops + 1, n, true), Turns(t, t.hops + 1, n, false);
    var p := TurnOnce(t, t.hops + 1, n, t.late(n, k), k);
    if t.late(n, k) {
      InFirst(first, [Drive(0)] + (second + [Update]), Change(k), p);
      q := count - 1 + p;
    } else {
      InFirst(second, [Update], Change(k), p);
      InSecond([Drive(0)], second + [Update], Change(k), p);
      InSecond(first, [Drive(0)] + (second + [Update]), Change(k), 1 + p);
      q := count - 1 + (|first| + (1 + p));
    }
    InSecond(Others(count), first + ([Drive(0)] + (second + [Update])), Change(k), q - (count - 1));
    InFirst(Rounds(t, count, n), Arrivals(t), Change(k), q);
  }

  lemma UpdatesOnce(t: Town, count: nat, n: nat)
    requires Sane(t.cfg) && count >= 1
    ensures Once(Moves(t, count, n), Update)
  {
    var first, second := Turns(t, t.hops + 1, n, true), Turns(t, t.hops + 1, n, false);
    InSecond(second, [Update], Update, 0);
    InSecond([Drive(0)], second + [Update], Update, |second|);
    InSecond(first, [Drive(0)] + (second + [Update]), Update, 1 + |second|);
    var p := |first| + (1 + |second|);
    InSecond(Others(count), first + ([Drive(0)] + (second + [Update])), Update, p);
    InFirst(Rounds(t, count, n), Arrivals(t), Update, count - 1 + p);
  }

  // One tick -------------------------------------------------------------------------------------

  // The worlds that the moves lead through.
  ghost function Trace(net: Network, w: World, ms: seq<Move>): (ws: seq<World>)
    requires Calm(net, w)
    ensures |ws| == |ms| + 1 && ws[0] == w && Calm(net, ws[|ms|])
    decreases |ms|
  {
    if ms == [] then [w]
    else
      MadeIsCalm(net, w, ms[0]);
      [w] + Trace(net, Made(net, w, ms[0]), ms[1..])
  }

  lemma {:induction false} TraceIsCourse(net: Network, w: World, ms: seq<Move>)
    requires Calm(net, w)
    ensures Course(net, Trace(net, w, ms), ms)
    decreases |ms|
  {
    if ms != [] {
      MadeIsCalm(net, w, ms[0]);
      var u, rest := Made(net, w, ms[0]), ms[1..];
      var ws, us := Trace(net, w, ms), Trace(net, u, rest);
      TraceIsCourse(net, u, rest);
      forall k | 0 <= k < |ms| ensures CourseAt(net, ws, ms, k) {
        if k > 0 {
          assert CourseAt(net, us, rest, k - 1);
        }
      }
    }
  }

  // A tick in the town, from a morning on.
  ghost predicate Tick(t: Town, ws: seq<World>, ms: seq<Move>, n: nat)
    requires Fit(t)
  {
    && ws != [] && Morning(t, ws[0], n) && ms == Moves(t, |ws[0].vehicles|, n)
    && Course(Net(t), ws, ms) && Calm(Net(t), ws[|ms|])
  }

  lemma CalmAlong(t: Town, ws: seq<World>, ms: seq<Move>, n: nat, p: nat)
    requires Fit(t) && Tick(t, ws, ms, n) && p <= |ms|
    ensures Calm(Net(t), ws[p])
  {
    if p < |ms| {
      assert CourseAt(Net(t), ws, ms, p);
    }
  }

  lemma MadeCounts(net: Network, w: World, m: Move)
    requires Calm(net, w)
    ensures m.Join? && CanMove(w, m) ==> Made(net, w, m).vehicles == w.vehicles + [NewVehicle(m.to, m.path)]
    ensures !m.Join? ==> |Made(net, w, m).vehicles| == |w.vehicles|
  {
    if m.Drive? && CanMove(w, m) {
      DriveIsCalm(net, w, m.vehicle);
    }
  }

  // Until the arrivals nobody joins.
  lemma {:induction false} CountStays(t: Town, ws: seq<World>, ms: seq<Move>, n: nat, p: nat)
    requires Fit(t) && Tick(t, ws, ms, n) && p <= |Rounds(t, |ws[0].vehicles|, n)|
    ensures |ws[p].vehicles| == |ws[0].vehicles|
  {
    if p > 0 {
      CountStays(t, ws, ms, n, p - 1);
      assert CourseAt(Net(t), ws, ms, p - 1);
      assert ms[p - 1] == Rounds(t, |ws[0].vehicles|, n)[p - 1];
      MadeCounts(Net(t), ws[p - 1], ms[p - 1]);
    }
  }

  // All that is about, but for the first vehicle, came from the side.
  lemma {:induction false} SideTrafficStays(t: Town, ws: seq<World>, ms: seq<Move>, n: nat, p: nat)
    requires Fit(t) && Tick(t, ws, ms, n) && p <= |ms|
    ensures SideTraffic(t, ws[p])
  {
    if p > 0 {
      SideTrafficStays(t, ws, ms, n, p - 1);
      assert CourseAt(Net(t), ws, ms, p - 1);
      var w, m, u := ws[p - 1], ms[p - 1], ws[p];
      MadeCounts(Net(t), w, m);
      JoinsFromSide(t, |ws[0].vehicles|, n, p - 1);
      forall i | 1 <= i < |u.vehicles| ensures FromSide(t, u.vehicles[i]) {
        if i < |w.vehicles| {
          MadeDrives(Net(t), w, m, i);
        }
      }
    }
  }

  lemma JoinsFromSide(t: Town, count: nat, n: nat, p: nat)
    requires Sane(t.cfg) && count >= 1 && p < |Moves(t, count, n)|
    ensures var m := Moves(t, count, n)[p];
      m.Join? ==> |m.path| == 2 && 0 <= m.path[0] <= t.hops && m.path[1] == m.to == Side(t)
  {
    var first := Rounds(t, count, n);
    if p < |first| {
      assert Moves(t, count, n)[p] == first[p];
    } else {
      assert Moves(t, count, n)[p] == Arrivals(t)[p - |first|];
    }
  }

  // By the time its signal ticks, a vehicle of the crowd that was not shown green stands in
  // the queue.
  lemma ComerWaits(t: Town, ws: seq<World>, ms: seq<Move>, n: nat, a: nat, k: nat, q: nat)
    requires Fit(t) && Tick(t, ws, ms, n) && a < |Comers(t)| && Comers(t)[a] == k <= t.hops
    requires OnlyAt(ms, Change(k), q) && |ws[0].vehicles| - 1 <= q < |Rounds(t, |ws[0].vehicles|, n)|
    requires OnSchedule(t, ws[0], k, n) && !ws[0].signals[k].phase.GreenEW?
    ensures |ws[q].vehicles| == |ws[0].vehicles| && IsAt(NthComer(t, ws[q], a), Queue(k, EW))
  {
    var count := |ws[0].vehicles|;
    var i := count - |Comers(t)| + a;
    var v := ws[0].vehicles[i];
    DrivesOnce(t, count, n, i);
    CountStays(t, ws, ms, n, q);
    CourseViews(Net(t), ws, ms, i, k);
    assert v == NthComer(t, ws[0], a) && Comes(t, v, k);
    Undriven(Net(t), ws, ms, i, 0, i - 1);
    ChangeOnce(Net(t), ws, ms, k, i - 1, q);
    assert Journeys.Drives(Net(t), ws[i - 1], ms[i - 1], ws[i], i);
    Undriven(Net(t), ws, ms, i, i, q);
    assert Sound(Net(t), ws[0], v);
  }

  // A signal's tick keeps it on schedule.
  lemma StopTicks(t: Town, ws: seq<World>, ms: seq<Move>, n: nat, k: nat)
    requires Fit(t) && Tick(t, ws, ms, n) && k <= t.hops
    ensures OnSchedule(t, ws[|ms|], k, n + 1)
  {
    var c := ClockAt(t.cfg, t.start(k), n);
    assert OnSchedule(t, ws[0], k, n);
    var q := ChangesOnce(t, |ws[0].vehicles|, n, k);
    CourseViews(Net(t), ws, ms, 0, k);
    Unchanged(Net(t), ws, ms, k, 0, q);
    assert Changes(Net(t), ws[q], ms[q], ws[q + 1], k);
    Unchanged(Net(t), ws, ms, k, q + 1, |ms|);
    if c.phase.YellowNS? || c.phase.YellowEW? {
      CrowdAtTick(t, ws, ms, n, k, q);
    }
    CrowdedTick(t.cfg, ws[q].signals[k], c);
    ClockForward(t.cfg, t.start(k), n);
  }

  lemma CrowdAtTick(t: Town, ws: seq<World>, ms: seq<Move>, n: nat, k: nat, q: nat)
    requires Fit(t) && Tick(t, ws, ms, n) && k <= t.hops
    requires OnlyAt(ms, Change(k), q) && |ws[0].vehicles| - 1 <= q < |Rounds(t, |ws[0].vehicles|, n)|
    requires k in ws[q].signals
    requires OnSchedule(t, ws[0], k, n) && !ws[0].signals[k].phase.GreenEW?
    ensures Crowded(t.cfg, ws[q].signals[k])
  {
    CountStays(t, ws, ms, n, q);
    forall a | 0 <= a < |Comers(t)| && Comers(t)[a] == k
      ensures IsAt(ws[q].vehicles[|ws[q].vehicles| - |Comers(t)| + a], Queue(k, EW))
    {
      ComerWaits(t, ws, ms, n, a, k, q);
      assert NthComer(t, ws[q], a) == ws[q].vehicles[|ws[q].vehicles| - |Comers(t)| + a];
    }
    SideTrafficStays(t, ws, ms, n, q);
    CalmAlong(t, ws, ms, n, q);
    CrowdIsRead(t, ws[q], k);
  }

  // The crowd that arrives at the end of a tick.
  lemma {:induction false} CrowdArrives(t: Town, ws: seq<World>, ms: seq<Move>, n: nat, a: nat)
    requires Fit(t) && Tick(t, ws, ms, n) && a <= |Comers(t)|
    ensures var p := |Rounds(t, |ws[0].vehicles|, n)| + a;
      && |ws[p].vehicles| == |ws[0].vehicles| + a
      && forall b :: 0 <= b < a ==>
           ws[p].vehicles[|ws[0].vehicles| + b] == NewVehicle(Side(t), [Comers(t)[b], Side(t)])
  {
    var count := |ws[0].vehicles|;
    var first := |Rounds(t, count, n)|;
    if a == 0 {
      CountStays(t, ws, ms, n, first);
    } else {
      CrowdArrives(t, ws, ms, n, a - 1);
      assert CourseAt(Net(t), ws, ms, first + a - 1);
      assert ms[first + a - 1] == Arrivals(t)[a - 1];
      MadeCounts(Net(t), ws[first + a - 1], ms[first + a - 1]);
    }
  }

  lemma NextMorning(t: Town, ws: seq<World>, ms: seq<Move>, n: nat)
    requires Fit(t) && Tick(t, ws, ms, n)
    ensures Morning(t, ws[|ms|], n + 1)
  {
    var u, next := ws[|ms|], n + 1;
    SideTrafficStays(t, ws, ms, n, |ms|);
    CrowdArrives(t, ws, ms, n, |Comers(t)|);
    forall k | 0 <= k <= t.hops ensures OnSchedule(t, u, k, next) {
      StopTicks(t, ws, ms, n, k);
    }
    assert OnSchedule(t, ws[0], 0, n);
    CourseViews(Net(t), ws, ms, 0, 0);
    KeptTo(ws, |ms|);
    forall a | 0 <= a < |Comers(t)| ensures Comes(t, NthComer(t, u, a), Comers(t)[a]) {
      assert NthComer(t, u, a) == u.vehicles[|ws[0].vehicles| + a];
    }
  }
}
