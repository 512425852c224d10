// When a vehicle arrives: the bound on its travel under lock-step ticks.
module Arrival {
  import opened Options
  import opened Signals
  import opened Traffic

  // Longest time, in ticks, between two greens of a direction.
  function Cycle(cfg: Config): int {
    cfg.maxGreen + 2 * cfg.yellow
  }

  // In each tick a vehicle steps before or after the signal it looks at.
  ghost predicate Sees(h: nat -> Signal, seen: nat -> Phase) {
    forall n: nat {:trigger seen(n)} :: seen(n) == h(n).phase || seen(n) == h(n + 1).phase
  }

  // The order is the same in every tick: always before, or always after.
  ghost predicate SeesInOrder(h: nat -> Signal, seen: nat -> Phase, late: bool) {
    forall n: nat {:trigger seen(n)} :: seen(n) == h(if late then n + 1 else n).phase
  }

  // g is seen green in tick m for the first time from tick n on.
  ghost predicate FirstGreen(seen: nat -> Phase, n: nat, m: nat, g: Group) {
    && n <= m && PhaseAllows(seen(m), g)
    && forall j: nat :: n <= j < m ==> !PhaseAllows(seen(j), g)
  }

  ghost predicate GreenWithin(seen: nat -> Phase, n: nat, limit: int, g: Group) {
    exists m: nat :: m <= n + limit && FirstGreen(seen, n, m, g)
  }

  lemma {:induction false} FirstOf(seen: nat -> Phase, n: nat, m: nat, limit: int, g: Group)
    requires n <= m <= n + limit && PhaseAllows(seen(m), g)
    ensures GreenWithin(seen, n, limit, g)
  {
    if j: nat :| n <= j < m && PhaseAllows(seen(j), g) {
      FirstOf(seen, n, j, limit, g);
    } else {
      assert FirstGreen(seen, n, m, g);
    }
  }

  lemma GreenSeenInOrder(cfg: Config, h: nat -> Signal, seen: nat -> Phase, late: bool, n: nat, g: Group)
    requires Sane(cfg) && History(cfg, h) && SeesInOrder(h, seen, late)
    ensures GreenWithin(seen, n, Cycle(cfg), g)
  {
    var k := GreenRecurs(cfg, h, if late then n + 1 else n, g);
    FirstOf(seen, n, n + k, Cycle(cfg), g);
  }

  // A minimum green of two ticks cannot slip by unseen.
  lemma GreenSeen(cfg: Config, h: nat -> Signal, seen: nat -> Phase, n: nat, g: Group)
    requires Sane(cfg) && cfg.minGreen >= 2 && History(cfg, h) && Sees(h, seen)
    ensures GreenWithin(seen, n, Cycle(cfg) + 1, g)
  {
    var start := if PhaseAllows(h(n).phase, g) && !PhaseAllows(h(n + 1).phase, g) then n + 1 else n;
    var k := GreenRecurs(cfg, h, start, g);
    var m := start + k;
    if m > n {
      assert !PhaseAllows(h(m - 1).phase, g);
      FreshGreenLasts(cfg, h, m, g);
    }
    assert PhaseAllows(seen(m), g);
    FirstOf(seen, n, m, Cycle(cfg) + 1, g);
  }

  // Each direction is seen green within the limit, from any tick on.
  ghost predicate Covers(seen: nat -> Phase, limit: int) {
    forall n: nat, g: Group :: GreenWithin(seen, n, limit, g)
  }

  lemma CoversInOrder(cfg: Config, h: nat -> Signal, seen: nat -> Phase, late: bool)
    requires Sane(cfg) && History(cfg, h) && SeesInOrder(h, seen, late)
    ensures Covers(seen, Cycle(cfg))
  {
    var limit := Cycle(cfg);
    forall n: nat, g: Group ensures GreenWithin(seen, n, limit, g) {
      GreenSeenInOrder(cfg, h, seen, late, n, g);
    }
  }

  lemma CoversInAnyOrder(cfg: Config, h: nat -> Signal, seen: nat -> Phase)
    requires Sane(cfg) && cfg.minGreen >= 2 && History(cfg, h) && Sees(h, seen)
    ensures Covers(seen, Cycle(cfg) + 1)
  {
    var limit := Cycle(cfg) + 1;
    forall n: nat, g: Group ensures GreenWithin(seen, n, limit, g) {
      GreenSeen(cfg, h, seen, n, g);
    }
  }

  // One vehicle over time -----------------------------------------------------------

  // A vehicle's states tick by tick, the phase each intersection would show it in a
  // tick, and the hop it is offered.
  datatype Trip = Trip(v: nat -> Vehicle, seen: int -> (nat -> Phase), hop: nat -> Option<(int, int)>)

  ghost predicate StepsAt(t: Trip, signals: set<int>, longest: int, n: nat) {
    var v := t.v(n);
    && v.idx < |v.path|
    && (v.idx + 1 < |v.path| ==> t.hop(n).Some? && 1 <= t.hop(n).value.1 <= longest)
    && t.v(n + 1) == LocalStep(v, signals, t.seen(v.path[v.idx])(n), t.hop(n))
  }

  // A vehicle newly registered on a path to its destination, every stop of which has a
  // signal and every hop of which finds a road of at most `longest` ticks.
  ghost predicate IsTrip(t: Trip, path: seq<int>, signals: set<int>, longest: int) {
    && path != [] && t.v(0) == NewVehicle(path[|path| - 1], path)
    && (forall i :: 0 <= i < |path| ==> path[i] in signals)
    && (forall n: nat :: StepsAt(t, signals, longest, n))
  }

  // Every stop shows each direction green within the limit.
  ghost predicate Greeted(t: Trip, path: seq<int>, limit: int) {
    forall i :: 0 <= i < |path| ==> Covers(t.seen(path[i]), limit)
  }

  // In tick n + 1 the vehicle looks at the signal of its i-th stop.
  ghost predicate Looks(t: Trip, path: seq<int>, n: nat, i: nat) {
    var v := t.v(n);
    && i < |path| && v.path == path && v.to == path[|path| - 1] && v.idx == i
    && !v.state.Arrived?
    && (if v.state.OnRoad? then v.remainingRoad <= 1 else v.at == path[i])
  }

  // It waits at the stop as long as it is shown red.
  lemma {:induction false} Waits(t: Trip, path: seq<int>, signals: set<int>, longest: int, n: nat, i: nat, m: nat)
    requires IsTrip(t, path, signals, longest) && Looks(t, path, n, i) && path[i] != path[|path| - 1]
    requires n <= m
    requires forall j: nat :: n <= j < m ==> !PhaseAllows(t.seen(path[i])(j), MovementDirection(path[i], path[i + 1]))
    ensures Looks(t, path, m, i)
  {
    if n < m {
      Waits(t, path, signals, longest, n, i, m - 1);
      assert StepsAt(t, signals, longest, m - 1);
    }
  }

  // Once on a road it is carried to the next stop.
  lemma {:induction false} Drives(t: Trip, path: seq<int>, signals: set<int>, longest: int, n: nat, i: nat)
    returns (m: nat)
    requires IsTrip(t, path, signals, longest)
    requires var v := t.v(n);
      i < |path| && v.path == path && v.to == path[|path| - 1] && v.idx == i && v.state.OnRoad? && v.remainingRoad >= 1
    ensures m == n + t.v(n).remainingRoad - 1 && Looks(t, path, m, i)
    decreases t.v(n).remainingRoad
  {
    m := n;
    if t.v(n).remainingRoad > 1 {
      assert StepsAt(t, signals, longest, n);
      m := Drives(t, path, signals, longest, n + 1, i);
    }
  }

  // From the look at one stop to the look at the next.
  lemma Hops(t: Trip, path: seq<int>, signals: set<int>, longest: int, limit: nat, n: nat, i: nat) returns (m: nat)
    requires IsTrip(t, path, signals, longest) && Greeted(t, path, limit)
    requires Looks(t, path, n, i) && path[i] != path[|path| - 1]
    ensures m <= n + limit + longest && Looks(t, path, m, i + 1)
  {
    var g := MovementDirection(path[i], path[i + 1]);
    assert Covers(t.seen(path[i]), limit);
    assert GreenWithin(t.seen(path[i]), n, limit, g);
    var k: nat :| k <= n + limit && FirstGreen(t.seen(path[i]), n, k, g);
    Waits(t, path, signals, longest, n, i, k);
    assert StepsAt(t, signals, longest, k);
    m := Drives(t, path, signals, longest, k + 1, i + 1);
  }

  lemma {:induction false} Reaches(t: Trip, path: seq<int>, signals: set<int>, longest: nat, limit: nat, n: nat, i: nat)
    returns (m: nat)
    requires IsTrip(t, path, signals, longest) && Greeted(t, path, limit) && Looks(t, path, n, i)
    ensures m <= n + (|path| - 1 - i) * (limit + longest) + 1 && t.v(m).state.Arrived?
    decreases |path| - i
  {
    if path[i] == path[|path| - 1] {
      assert StepsAt(t, signals, longest, n);
      m := n + 1;
      Product(|path| - 1 - i, limit + longest);
    } else {
      var k := Hops(t, path, signals, longest, limit, n, i);
      m := Reaches(t, path, signals, longest, limit, k, i + 1);
      assert (|path| - 1 - i) * (limit + longest) == (|path| - 1 - (i + 1)) * (limit + longest) + limit + longest;
    }
  }

  lemma Product(a: nat, b: nat)
    ensures a * b >= 0
  {
  }

  // Arrived, the vehicle stays so.
  lemma {:induction false} StaysArrived(t: Trip, path: seq<int>, signals: set<int>, longest: int, n: nat, m: nat)
    requires IsTrip(t, path, signals, longest) && n <= m && t.v(n).state.Arrived?
    ensures t.v(m).state.Arrived?
  {
    if n < m {
      StaysArrived(t, path, signals, longest, n, m - 1);
      assert StepsAt(t, signals, longest, m - 1);
    }
  }

  // The histories of the signals along a path.
  ghost predicate Histories(cfg: Config, path: seq<int>, h: int -> (nat -> Signal)) {
    forall i :: 0 <= i < |path| ==> History(cfg, h(path[i]))
  }

  // At each stop the vehicle steps before the signal in every tick, or after it in
  // every tick.
  ghost predicate InOrder(t: Trip, path: seq<int>, h: int -> (nat -> Signal)) {
    forall i :: 0 <= i < |path| ==>
      SeesInOrder(h(path[i]), t.seen(path[i]), false) || SeesInOrder(h(path[i]), t.seen(path[i]), true)
  }

  // At each stop and in each tick the vehicle steps before the signal or after it.
  ghost predicate InAnyOrder(t: Trip, path: seq<int>, h: int -> (nat -> Signal)) {
    forall i :: 0 <= i < |path| ==> Sees(h(path[i]), t.seen(path[i]))
  }

  // In a fixed order, a vehicle has arrived after hops * (maxGreen + 2 * yellow +
  // longest) + 1 ticks.
  lemma ArrivesInOrder(cfg: Config, t: Trip, path: seq<int>, signals: set<int>, longest: nat,
                       h: int -> (nat -> Signal), n: nat)
    requires Sane(cfg) && IsTrip(t, path, signals, longest) && Histories(cfg, path, h) && InOrder(t, path, h)
    requires n >= (|path| - 1) * (Cycle(cfg) + longest) + 1
    ensures t.v(n).state.Arrived?
  {
    forall i | 0 <= i < |path| ensures Covers(t.seen(path[i]), Cycle(cfg)) {
      if SeesInOrder(h(path[i]), t.seen(path[i]), false) {
        CoversInOrder(cfg, h(path[i]), t.seen(path[i]), false);
      } else {
        CoversInOrder(cfg, h(path[i]), t.seen(path[i]), true);
      }
    }
    var m := Reaches(t, path, signals, longest, Cycle(cfg), 0, 0);
    StaysArrived(t, path, signals, longest, m, n);
  }

  // In any order each hop may cost one tick more, and the minimum green must be two.
  lemma ArrivesInAnyOrder(cfg: Config, t: Trip, path: seq<int>, signals: set<int>, longest: nat,
                          h: int -> (nat -> Signal), n: nat)
    requires Sane(cfg) && cfg.minGreen >= 2 && IsTrip(t, path, signals, longest)
    requires Histories(cfg, path, h) && InAnyOrder(t, path, h)
    requires n >= (|path| - 1) * (Cycle(cfg) + 1 + longest) + 1
    ensures t.v(n).state.Arrived?
  {
    forall i | 0 <= i < |path| ensures Covers(t.seen(path[i]), Cycle(cfg) + 1) {
      CoversInAnyOrder(cfg, h(path[i]), t.seen(path[i]));
    }
    var m := Reaches(t, path, signals, longest, Cycle(cfg) + 1, 0, 0);
    StaysArrived(t, path, signals, longest, m, n);
  }

  // Late trips ---------------------------------------------------------------------------

  // The hop it is offered always takes the longest time.
  ghost predicate SlowAt(t: Trip, longest: int, n: nat) {
    var v := t.v(n);
    v.idx + 1 < |v.path| ==> t.hop(n).Some? && t.hop(n).value.1 == longest
  }

  // Stops 0, 1, 2 and so on: every hop goes north or south.
  function Line(hops: nat): (path: seq<int>)
    ensures |path| == hops + 1 && forall i :: 0 <= i <= hops ==> path[i] == i
  {
    seq(hops + 1, i => i)
  }

  // When a vehicle gets to its i-th stop that waits so long at each.
  function Due(i: nat, wait: nat, longest: nat): nat {
    if i == 0 then 0 else Due(i - 1, wait, longest) + wait + longest
  }

  lemma {:induction false} DueIsProduct(i: nat, wait: nat, longest: nat)
    ensures Due(i, wait, longest) == i * (wait + longest)
  {
    if i > 0 {
      DueIsProduct(i - 1, wait, longest);
      assert i * (wait + longest) == (i - 1) * (wait + longest) + (wait + longest);
    }
  }

  // The k-th stop keeps the vehicle waiting for as long as `wait` ticks.
  ghost predicate LateGreen(seen: nat -> Phase, k: nat, wait: nat, longest: nat) {
    FirstGreen(seen, Due(k, wait, longest), Due(k, wait, longest) + wait, NS)
  }

  // If every stop turns green as late as `wait` ticks after the vehicle gets there, the
  // vehicle looks at its last stop no earlier than after all waits and roads.
  lemma {:induction false} TardyTrip(t: Trip, hops: nat, signals: set<int>, longest: nat, wait: nat, i: nat)
    requires IsTrip(t, Line(hops), signals, longest) && i <= hops && longest >= 1
    requires forall n: nat :: SlowAt(t, longest, n)
    requires forall k: nat :: k < hops ==> LateGreen(t.seen(k), k, wait, longest)
    ensures Looks(t, Line(hops), Due(i, wait, longest), i)
  {
    if i > 0 {
      TardyTrip(t, hops, signals, longest, wait, i - 1);
      assert LateGreen(t.seen(i - 1), i - 1, wait, longest);
      TardyHop(t, Line(hops), signals, longest, Due(i - 1, wait, longest), wait, i - 1);
    }
  }

  lemma TardyHop(t: Trip, path: seq<int>, signals: set<int>, longest: nat, n: nat, wait: nat, i: nat)
    requires IsTrip(t, path, signals, longest) && Looks(t, path, n, i) && longest >= 1
    requires path[i] != path[|path| - 1] && MovementDirection(path[i], path[i + 1]) == NS
    requires SlowAt(t, longest, n + wait) && FirstGreen(t.seen(path[i]), n, n + wait, NS)
    ensures Looks(t, path, n + wait + longest, i + 1)
  {
    Waits(t, path, signals, longest, n, i, n + wait);
    assert StepsAt(t, signals, longest, n + wait);
    var m := Drives(t, path, signals, longest, n + wait + 1, i + 1);
  }

  // So it has not arrived by then.
  lemma LateTrip(t: Trip, hops: nat, signals: set<int>, longest: nat, wait: nat)
    requires IsTrip(t, Line(hops), signals, longest) && longest >= 1
    requires forall n: nat :: SlowAt(t, longest, n)
    requires forall k: nat :: k < hops ==> LateGreen(t.seen(k), k, wait, longest)
    ensures !t.v(Due(hops, wait, longest)).state.Arrived?
  {
    TardyTrip(t, hops, signals, longest, wait, hops);
  }
}
