// Traffic signals: one controller per intersection, stepped once a tick.
module Signals {

  datatype Phase = GreenNS | YellowNS | GreenEW | YellowEW

  datatype Group = NS | EW

  datatype Config = Config(minGreen: int, maxGreen: int, yellow: int, preemption: int)

  datatype Signal = Signal(phase: Phase, remaining: int, queueNS: int, queueEW: int,
                           preempt: bool, preemptPhase: Phase, preemptRemain: int)

  function MovementDirection(from: int, to: int): Group {
    if to - from == 1 || from - to == 1 then NS else EW
  }

  predicate PhaseAllows(p: Phase, g: Group) {
    (p == GreenNS && g == NS) || (p == GreenEW && g == EW)
  }

  // Rounds to the nearest integer, halves away from zero.
  function Round(x: real): int {
    if x >= 0.0 then (x + 0.5).Floor else -((0.5 - x).Floor)
  }

  // The green time for a direction that holds part of the total queue.
  function Share(cfg: Config, part: int, total: int): int
    requires total > 0
  {
    Round(Exact(cfg.minGreen as real, part as real / total as real, (cfg.maxGreen - cfg.minGreen) as real))
  }

  function Exact(low: real, ratio: real, range: real): real {
    low + ratio * range
  }

  function AdaptiveGreen(cfg: Config, s: Signal, g: Group): (ticks: int)
    requires s.queueNS >= 0 && s.queueEW >= 0
    ensures cfg.minGreen <= cfg.maxGreen ==> cfg.minGreen <= ticks <= cfg.maxGreen
  {
    var total := s.queueNS + s.queueEW;
    if total <= 0 then cfg.minGreen
    else
      var out := Share(cfg, if g == NS then s.queueNS else s.queueEW, total);
      var low := if out < cfg.minGreen then cfg.minGreen else out;
      if low > cfg.maxGreen then cfg.maxGreen else low
  }

  function StepSignal(cfg: Config, s: Signal): Signal
    requires s.queueNS >= 0 && s.queueEW >= 0
  {
    if s.preempt then
      s.(phase := s.preemptPhase, preemptRemain := s.preemptRemain - 1, preempt := s.preemptRemain - 1 > 0)
    else if s.remaining - 1 > 0 then s.(remaining := s.remaining - 1)
    else
      match s.phase
      case GreenNS => s.(phase := YellowNS, remaining := cfg.yellow)
      case YellowNS => s.(phase := GreenEW, remaining := AdaptiveGreen(cfg, s, EW))
      case GreenEW => s.(phase := YellowEW, remaining := cfg.yellow)
      case YellowEW => s.(phase := GreenNS, remaining := AdaptiveGreen(cfg, s, NS))
  }

  // Without preemption a phase lasts its ticks; after each green comes its own yellow, and
  // after that the other green, for a time between the two limits.
  lemma PhasesInTurn(cfg: Config, s: Signal)
    requires s.queueNS >= 0 && s.queueEW >= 0 && cfg.minGreen <= cfg.maxGreen && !s.preempt
    ensures var t := StepSignal(cfg, s);
      && (s.remaining > 1 ==> t == s.(remaining := s.remaining - 1))
      && (s.remaining <= 1 ==>
            match s.phase
            case GreenNS => t == s.(phase := YellowNS, remaining := cfg.yellow)
            case YellowNS => t == s.(phase := GreenEW, remaining := t.remaining)
            case GreenEW => t == s.(phase := YellowEW, remaining := cfg.yellow)
            case YellowEW => t == s.(phase := GreenNS, remaining := t.remaining))
      && (s.remaining <= 1 && s.phase.YellowNS? ==> GreenFor(cfg, s.queueEW, s.queueNS + s.queueEW, t.remaining))
      && (s.remaining <= 1 && s.phase.YellowEW? ==> GreenFor(cfg, s.queueNS, s.queueNS + s.queueEW, t.remaining))
  {
    GreenIsShare(cfg, s, NS);
    GreenIsShare(cfg, s, EW);
  }

  // A green for the direction in which `part` of all waiting vehicles wait: the shortest one
  // if nobody waits, else as far between the limits as the share says, to half a tick.
  predicate GreenFor(cfg: Config, part: int, total: int, ticks: int) {
    && cfg.minGreen <= ticks <= cfg.maxGreen
    && (total <= 0 ==> ticks == cfg.minGreen)
    && (total > 0 ==>
          var exact := cfg.minGreen as real + part as real / total as real * (cfg.maxGreen - cfg.minGreen) as real;
          exact - 0.5 <= ticks as real <= exact + 0.5)
  }

  lemma GreenIsShare(cfg: Config, s: Signal, g: Group)
    requires s.queueNS >= 0 && s.queueEW >= 0 && cfg.minGreen <= cfg.maxGreen
    ensures GreenFor(cfg, if g == NS then s.queueNS else s.queueEW, s.queueNS + s.queueEW, AdaptiveGreen(cfg, s, g))
  {
    var part, total := if g == NS then s.queueNS else s.queueEW, s.queueNS + s.queueEW;
    if total > 0 {
      ShareIsNear(cfg, part, total);
    }
  }

  lemma ShareIsNear(cfg: Config, part: int, total: int)
    requires 0 <= part <= total && total > 0 && cfg.minGreen <= cfg.maxGreen
    ensures GreenFor(cfg, part, total, Share(cfg, part, total))
  {
    var ratio, range := part as real / total as real, (cfg.maxGreen - cfg.minGreen) as real;
    var exact := cfg.minGreen as real + ratio * range;
    RatioBetween(part as real, total as real, ratio);
    ShareBetween(ratio, range, ratio * range);
    Nearest(cfg.minGreen, cfg.maxGreen, exact);
    assert Exact(cfg.minGreen as real, ratio, range) == exact;
  }

  lemma RatioBetween(p: real, total: real, ratio: real)
    requires 0.0 <= p <= total && total > 0.0 && ratio == p / total
    ensures 0.0 <= ratio <= 1.0
  {
  }

  lemma ShareBetween(ratio: real, range: real, x: real)
    requires 0.0 <= ratio <= 1.0 && range >= 0.0 && x == ratio * range
    ensures 0.0 <= x <= range
  {
    var other := 1.0 - ratio;
    var rest := other * range;
    assert rest == range - x;
    NonNegative(ratio, range, x);
    NonNegative(other, range, rest);
  }

  lemma NonNegative(a: real, b: real, x: real)
    requires a >= 0.0 && b >= 0.0 && x == a * b
    ensures x >= 0.0
  {
    if a > 0.0 && b > 0.0 {
      assert x > 0.0;
    }
  }

  lemma Nearest(low: int, high: int, x: real)
    requires low as real <= x <= high as real
    ensures x - 0.5 <= Round(x) as real <= x + 0.5 && low <= Round(x) <= high
  {
  }

  function QueueOf(s: Signal, g: Group): int {
    if g == NS then s.queueNS else s.queueEW
  }

  function Enqueued(s: Signal, g: Group): Signal {
    if g == NS then s.(queueNS := s.queueNS + 1) else s.(queueEW := s.queueEW + 1)
  }

  function Dequeued(s: Signal, g: Group): Signal {
    if g == NS then (if s.queueNS > 0 then s.(queueNS := s.queueNS - 1) else s)
    else if s.queueEW > 0 then s.(queueEW := s.queueEW - 1) else s
  }

  function Preempted(s: Signal, phase: Phase, ticks: int): Signal {
    s.(preempt := true, preemptPhase := phase, preemptRemain := ticks)
  }

  function NewSignal(cfg: Config): Signal {
    Signal(GreenNS, cfg.minGreen, 0, 0, false, GreenNS, 0)
  }

  // The controller, with its fields updated in place.
  class Intersection {
    const cfg: Config
    var phase: Phase
    var remaining: int
    var queueNS: int
    var queueEW: int
    var preempt: bool
    var preemptPhase: Phase
    var preemptRemain: int

    ghost function State(): Signal
      reads this
    {
      Signal(phase, remaining, queueNS, queueEW, preempt, preemptPhase, preemptRemain)
    }

    constructor (cfg: Config)
      ensures State() == NewSignal(cfg) && this.cfg == cfg
    {
      this.cfg := cfg;
      phase, remaining, queueNS, queueEW := GreenNS, cfg.minGreen, 0, 0;
      preempt, preemptPhase, preemptRemain := false, GreenNS, 0;
    }

    method Step()
      requires queueNS >= 0 && queueEW >= 0
      modifies this
      ensures State() == StepSignal(cfg, old(State()))
    {
      if preempt {
        phase := preemptPhase;
        preemptRemain := preemptRemain - 1;
        if preemptRemain <= 0 {
          preempt := false;
        }
        return;
      }
      ghost var s := State();
      remaining := remaining - 1;
      if remaining > 0 {
        return;
      }
      match phase {
        case GreenNS =>
          phase, remaining := YellowNS, cfg.yellow;
        case YellowNS =>
          phase := GreenEW;
          remaining := AdaptiveGreenTicks(EW, s);
        case GreenEW =>
          phase, remaining := YellowEW, cfg.yellow;
        case YellowEW =>
          phase := GreenNS;
          remaining := AdaptiveGreenTicks(NS, s);
      }
    }

    method AdaptiveGreenTicks(g: Group, ghost s: Signal) returns (ticks: int)
      requires queueNS >= 0 && queueEW >= 0 && s.queueNS == queueNS && s.queueEW == queueEW
      ensures ticks == AdaptiveGreen(cfg, s, g)
    {
      var total := queueNS + queueEW;
      if total <= 0 {
        return cfg.minGreen;
      }
      var part := queueEW;
      if g == NS {
        part := queueNS;
      }
      ticks := Share(cfg, part, total);
      if ticks < cfg.minGreen {
        ticks := cfg.minGreen;
      }
      if ticks > cfg.maxGreen {
        ticks := cfg.maxGreen;
      }
    }

    method Enqueue(g: Group)
      modifies this
      ensures State() == Enqueued(old(State()), g)
    {
      if g == NS {
        queueNS := queueNS + 1;
        return;
      }
      queueEW := queueEW + 1;
    }

    method Dequeue(g: Group)
      modifies this
      ensures State() == Dequeued(old(State()), g)
    {
      if g == NS {
        if queueNS > 0 {
          queueNS := queueNS - 1;
        }
        return;
      }
      if queueEW > 0 {
        queueEW := queueEW - 1;
      }
    }

    method SetPreempt(phase: Phase, ticks: int)
      modifies this
      ensures State() == Preempted(old(State()), phase, ticks)
    {
      preempt, preemptPhase, preemptRemain := true, phase, ticks;
    }
  }

  // Recurrence of green ---------------------------------------------------------

  ghost predicate Sane(cfg: Config) {
    1 <= cfg.minGreen <= cfg.maxGreen && 1 <= cfg.yellow
  }

  // No phase is scheduled for longer than its configured limit.
  ghost predicate Timed(cfg: Config, s: Signal) {
    !s.preempt && 1 <= s.remaining <= if s.phase.GreenNS? || s.phase.GreenEW? then cfg.maxGreen else cfg.yellow
  }

  // One tick of a signal whose queues read whatever the traffic made of them.
  ghost predicate Ticks(cfg: Config, s: Signal, t: Signal) {
    exists ns: nat, ew: nat :: TicksWith(cfg, s, t, ns, ew)
  }

  ghost predicate TicksWith(cfg: Config, s: Signal, t: Signal, ns: nat, ew: nat) {
    var u := StepSignal(cfg, s.(queueNS := ns, queueEW := ew));
    t.phase == u.phase && t.remaining == u.remaining && t.preempt == u.preempt
  }

  // Ticks left, at most, until the phase turns green for g.
  ghost function Wait(cfg: Config, s: Signal, g: Group): int {
    if PhaseAllows(s.phase, g) then 0
    else match s.phase
      case GreenNS => s.remaining + cfg.yellow
      case GreenEW => s.remaining + cfg.yellow
      case YellowNS => if g == EW then s.remaining else s.remaining + cfg.maxGreen + cfg.yellow
      case YellowEW => if g == NS then s.remaining else s.remaining + cfg.maxGreen + cfg.yellow
  }

  lemma TickShortensWait(cfg: Config, s: Signal, t: Signal, g: Group)
    requires Sane(cfg) && Timed(cfg, s) && Ticks(cfg, s, t)
    ensures Timed(cfg, t) && 0 <= Wait(cfg, s, g) <= cfg.maxGreen + 2 * cfg.yellow
    ensures !PhaseAllows(s.phase, g) ==> Wait(cfg, t, g) < Wait(cfg, s, g)
  {
    var ns: nat, ew: nat :| TicksWith(cfg, s, t, ns, ew);
    var u := s.(queueNS := ns, queueEW := ew);
    assert cfg.minGreen <= AdaptiveGreen(cfg, u, NS) <= cfg.maxGreen;
    assert cfg.minGreen <= AdaptiveGreen(cfg, u, EW) <= cfg.maxGreen;
  }

  // A history of one signal: state n is the state after n ticks.
  ghost predicate History(cfg: Config, h: nat -> Signal) {
    Timed(cfg, h(0)) && forall n: nat :: TicksAt(cfg, h, n)
  }

  ghost predicate TicksAt(cfg: Config, h: nat -> Signal, n: nat) {
    Ticks(cfg, h(n), h(n + 1))
  }

  lemma {:induction false} HistoryTimed(cfg: Config, h: nat -> Signal, n: nat)
    requires Sane(cfg) && History(cfg, h)
    ensures Timed(cfg, h(n))
  {
    if n > 0 {
      HistoryTimed(cfg, h, n - 1);
      assert TicksAt(cfg, h, n - 1);
      TickShortensWait(cfg, h(n - 1), h(n), NS);
    }
  }

  // Each direction is green again within maxGreen + 2 * yellow ticks.
  lemma {:induction false} GreenRecurs(cfg: Config, h: nat -> Signal, n: nat, g: Group) returns (k: nat)
    requires Sane(cfg) && History(cfg, h)
    ensures k <= Wait(cfg, h(n), g) <= cfg.maxGreen + 2 * cfg.yellow
    ensures PhaseAllows(h(n + k).phase, g)
    ensures forall j :: n <= j < n + k ==> !PhaseAllows(h(j).phase, g)
    decreases Wait(cfg, h(n), g)
  {
    HistoryTimed(cfg, h, n);
    assert TicksAt(cfg, h, n) && TicksAt(cfg, h, n + 1);
    TickShortensWait(cfg, h(n), h(n + 1), g);
    if PhaseAllows(h(n).phase, g) {
      k := 0;
    } else {
      HistoryTimed(cfg, h, n + 1);
      TickShortensWait(cfg, h(n + 1), h(n + 2), g);
      k := GreenRecurs(cfg, h, n + 1, g);
      k := k + 1;
    }
  }

  // A green that has just begun lasts minGreen ticks.
  lemma FreshGreenLasts(cfg: Config, h: nat -> Signal, n: nat, g: Group)
    requires Sane(cfg) && cfg.minGreen >= 2 && History(cfg, h)
    requires n > 0 && !PhaseAllows(h(n - 1).phase, g) && PhaseAllows(h(n).phase, g)
    ensures PhaseAllows(h(n + 1).phase, g)
  {
    HistoryTimed(cfg, h, n - 1);
    assert TicksAt(cfg, h, n - 1) && TicksAt(cfg, h, n);
    var ns: nat, ew: nat :| TicksWith(cfg, h(n - 1), h(n), ns, ew);
    assert AdaptiveGreen(cfg, h(n - 1).(queueNS := ns, queueEW := ew), g) >= 2;
  }

  // Preemption --------------------------------------------------------------------

  // The signal after ticks in which its queues read as given.
  function TicksOver(cfg: Config, s: Signal, queues: seq<(nat, nat)>): Signal {
    if queues == [] then s
    else
      var (ns, ew) := queues[|queues| - 1];
      StepSignal(cfg, TicksOver(cfg, s, queues[..|queues| - 1]).(queueNS := ns, queueEW := ew))
  }

  // Preempted for n ticks, the signal shows the phase asked for in each of the next n,
  // its own schedule standing still, and is free after them.
  lemma {:induction false} PreemptionLasts(cfg: Config, s: Signal, phase: Phase, n: int, queues: seq<(nat, nat)>)
    requires |queues| <= n
    ensures var t := TicksOver(cfg, Preempted(s, phase, n), queues);
      && (queues != [] ==> t.phase == phase) && t.remaining == s.remaining
      && (n > 0 ==> (t.preempt <==> |queues| < n)) && t.preemptPhase == phase && t.preemptRemain == n - |queues|
  {
    if queues != [] {
      PreemptionLasts(cfg, s, phase, n, queues[..|queues| - 1]);
    }
  }
}
