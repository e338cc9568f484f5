/** What the mock clock guarantees: advances add up, nothing stays due, and tickers keep
    to their grid in every run. */
module ClockTheorems {
  import opened Wrappers
  import opened MockClocks

  // ----- The catch-up loop

  lemma OneInterval(n: int, interval: int)
    ensures n * interval == (n - 1) * interval + interval
  {
  }

  /** A ticker that has missed `n` ticks keeps the earliest of them, unless its channel was
      full, and its next tick is the first one after `now`. */
  lemma {:induction false} CatchUpInOneStep(now: int, t: TickerState, n: nat)
    requires t.active && t.interval > 0 && n >= 1
    requires t.next + (n - 1) * t.interval <= now < t.next + n * t.interval
    ensures FireTicker(now, t) == t.(next := t.next + n * t.interval, c := Offer(t.c, t.next))
    decreases n
  {
    OneInterval(n, t.interval);
    if n > 1 {
      OneInterval(n - 1, t.interval);
      assert (n - 2) * t.interval >= 0;
      CatchUpInOneStep(now, Tick(t), n - 1);
    } else {
      assert (n - 1) * t.interval == 0;
      assert FireTicker(now, Tick(t)) == Tick(t);
    }
  }

  function Ticks(t: TickerState, n: nat): TickerState {
    if n == 0 then t else Tick(Ticks(t, n - 1))
  }

  /** After `n` rounds the ticker is no longer due. */
  predicate CaughtUp(now: int, t: TickerState, n: nat) {
    !(t.active && Ticks(t, n).next <= now)
  }

  /** With a non-positive interval a ticker that is due stays due for ever: the condition
      under which firing is defined is exactly the one under which its loop ends. */
  lemma LoopEndsExactly(now: int, t: TickerState)
    ensures Terminates(now, t) <==> exists n: nat :: CaughtUp(now, t, n)
  {
    if t.active && t.next <= now {
      if t.interval > 0 {
        var n: nat := now - t.next + 1;
        TicksAt(t, n);
        assert n * t.interval >= n;
        assert CaughtUp(now, t, n);
      } else {
        forall n: nat
          ensures !CaughtUp(now, t, n)
        {
          TicksAt(t, n);
          assert n * t.interval <= 0;
        }
      }
    } else {
      assert CaughtUp(now, t, 0);
    }
  }

  /** A ticker made with interval 0: at the next advance, even by nothing, it is due, and no
      number of rounds changes that. */
  lemma ZeroIntervalNeverEnds(now: int)
    ensures var t := TickerState(0, now, true, None);
            !Terminates(now, t) && forall n: nat :: !CaughtUp(now, t, n)
  {
    var t := TickerState(0, now, true, None);
    forall n: nat
      ensures !CaughtUp(now, t, n)
    {
      TicksAt(t, n);
    }
  }

  lemma {:induction false} TicksAt(t: TickerState, n: nat)
    ensures Ticks(t, n).next == t.next + n * t.interval && Ticks(t, n).interval == t.interval
  {
    if n > 0 {
      OneInterval(n, t.interval);
      TicksAt(t, n - 1);
    }
  }

  // ----- Advances add up

  lemma {:induction false} FireTickerTwice(early: int, late: int, t: TickerState)
    requires early <= late && Terminates(late, t)
    ensures Terminates(late, FireTicker(early, t))
    ensures FireTicker(late, FireTicker(early, t)) == FireTicker(late, t)
    decreases if t.active && t.next <= early then early - t.next + 1 else 0
  {
    if t.active && t.next <= early {
      FireTickerTwice(early, late, Tick(t));
    }
  }

  /** Advancing by `a` and then by `b`, with no receive in between, leaves the clock, the
      timers, the tickers and all channels as advancing by `a + b` does. */
  lemma AdvanceAdds<K, L>(s: ClockState<K, L>, a: int, b: int)
    requires b >= 0 && CanFire(s.current + a + b, s)
    ensures CanFire(s.current + a, s) && CanFire(s.current + a + b, Advanced(s, a))
    ensures Advanced(Advanced(s, a), b) == Advanced(s, a + b)
  {
    var early, late := s.current + a, s.current + a + b;
    assert forall l :: l in s.tickers ==> Terminates(late, s.tickers[l]);
    hide FireTicker;
    forall l | l in s.tickers
      ensures Terminates(early, s.tickers[l])
      ensures Terminates(late, FireTicker(early, s.tickers[l]))
      ensures FireTicker(late, FireTicker(early, s.tickers[l])) == FireTicker(late, s.tickers[l])
    {
      FireTickerTwice(early, late, s.tickers[l]);
    }
    var once, twice := Advanced(s, a + b), Advanced(Advanced(s, a), b);
    assert once.timers == twice.timers;
    assert once.tickers == twice.tickers;
  }

  // ----- Nothing stays due

  ghost predicate NothingDue<K, L>(s: ClockState<K, L>) {
    && (forall k :: k in s.timers && s.timers[k].active ==> s.timers[k].deadline > s.current)
    && (forall l :: l in s.tickers && s.tickers[l].active ==> s.tickers[l].next > s.current)
  }

  lemma {:induction false} FiredTickerIsAhead(now: int, t: TickerState)
    requires Terminates(now, t)
    ensures var u := FireTicker(now, t); u.active == t.active && u.interval == t.interval && (u.active ==> u.next > now)
    decreases if t.active && t.next <= now then now - t.next + 1 else 0
  {
    if t.active && t.next <= now {
      FiredTickerIsAhead(now, Tick(t));
    }
  }

  lemma NothingDueAfterFiring<K, L>(now: int, s: ClockState<K, L>)
    requires CanFire(now, s)
    ensures NothingDue(FiredAt(now, s))
  {
    forall l | l in s.tickers
      ensures FireTicker(now, s.tickers[l]).active ==> FireTicker(now, s.tickers[l]).next > now
    {
      FiredTickerIsAhead(now, s.tickers[l]);
    }
  }

  // ----- Runs

  /** A clock with histories: the time at which each ticker was made, the deadlines each timer was
      armed with, and all the times the clock has shown. */
  datatype Sys = Sys(clock: ClockState<nat, nat>, origins: map<nat, int>, armed: map<nat, seq<int>>, shown: seq<int>)

  datatype Step =
    | NewTimer(k: nat, d: int)
    | NewTicker(l: nat, d: int)
    | Advance(d: int)
    | SetTo(t: int)
    | StopTimer(k: nat)
    | ResetTimer(k: nat, d: int)
    | StopTicker(l: nat)
    | TakeTimer(k: nat)
    | TakeTicker(l: nat)

  predicate Enabled(s: Sys, step: Step) {
    var c := s.clock;
    match step
    case NewTimer(k, _) => k !in c.timers
    case NewTicker(l, _) => l !in c.tickers
    case Advance(d) => CanFire(c.current + d, c)
    case SetTo(t) => CanFire(t, c)
    case StopTimer(k) => k in c.timers
    case ResetTimer(k, _) => k in c.timers && CanFire(c.current, c)
    case StopTicker(l) => l in c.tickers
    case TakeTimer(k) => k in c.timers
    case TakeTicker(l) => l in c.tickers
  }

  function Next(s: Sys, step: Step): Sys
    requires Enabled(s, step)
  {
    var c := s.clock;
    match step
    case NewTimer(k, d) =>
      s.(clock := c.(timers := c.timers[k := TimerState(c.current + d, true, None)]), armed := s.armed[k := [c.current + d]])
    case NewTicker(l, d) =>
      s.(clock := c.(tickers := c.tickers[l := TickerState(d, c.current + d, true, None)]), origins := s.origins[l := c.current])
    case Advance(d) => s.(clock := Advanced(c, d), shown := s.shown + [c.current + d])
    case SetTo(t) => s.(clock := FiredAt(t, c), shown := s.shown + [t])
    case StopTimer(k) => s.(clock := c.(timers := c.timers[k := c.timers[k].(active := false)]))
    case ResetTimer(k, d) =>
      s.(clock := FiredAt(c.current, Armed(c, k, c.current + d)),
         armed := s.armed[k := (if k in s.armed then s.armed[k] else []) + [c.current + d]])
    case StopTicker(l) => s.(clock := c.(tickers := c.tickers[l := c.tickers[l].(active := false)]))
    case TakeTimer(k) => s.(clock := c.(timers := c.timers[k := c.timers[k].(c := None)]))
    case TakeTicker(l) => s.(clock := c.(tickers := c.tickers[l := c.tickers[l].(c := None)]))
  }

  function Init(start: int): Sys {
    Sys(ClockState(start, map[], map[]), map[], map[], [start])
  }

  ghost predicate IsRun(s: Sys, steps: seq<Step>)
    decreases |steps|
  {
    steps == [] || (Enabled(s, steps[0]) && IsRun(Next(s, steps[0]), steps[1..]))
  }

  ghost function RunFrom(s: Sys, steps: seq<Step>): Sys
    requires IsRun(s, steps)
    decreases |steps|
  {
    if steps == [] then s else RunFrom(Next(s, steps[0]), steps[1..])
  }

  function GridPoint(origin: int, interval: int, n: nat): int {
    origin + n * interval
  }

  /** A whole number of intervals, at least one, after the origin. */
  ghost predicate OnGrid(origin: int, interval: int, time: int) {
    exists n: nat :: n >= 1 && GridPoint(origin, interval, n) == time
  }

  /** The next tick and the one in the channel are on the grid; the next tick of an active
      ticker lies ahead, and what is in the channel came before it. */
  ghost predicate TickerOk(now: int, origin: int, t: TickerState) {
    && OnGrid(origin, t.interval, t.next)
    && (t.c.Some? ==> OnGrid(origin, t.interval, t.c.value))
    && (t.interval > 0 && t.active ==> t.next > now)
    && (t.interval > 0 && t.c.Some? ==> t.c.value < t.next)
  }

  ghost predicate Inv(s: Sys) {
    && s.origins.Keys == s.clock.tickers.Keys
    && forall l :: l in s.clock.tickers ==> TickerOk(s.clock.current, s.origins[l], s.clock.tickers[l])
  }

  ghost predicate OnGridTicker(origin: int, t: TickerState) {
    && OnGrid(origin, t.interval, t.next)
    && (t.c.Some? ==> OnGrid(origin, t.interval, t.c.value))
    && (t.interval > 0 && t.c.Some? ==> t.c.value < t.next)
  }

  lemma NextOnGrid(origin: int, interval: int, time: int)
    requires OnGrid(origin, interval, time)
    ensures OnGrid(origin, interval, time + interval)
  {
    var n: nat :| n >= 1 && GridPoint(origin, interval, n) == time;
    assert GridPoint(origin, interval, n + 1) == time + interval;
  }

  lemma {:induction false} FiringKeepsGrid(now: int, origin: int, t: TickerState)
    requires Terminates(now, t) && OnGridTicker(origin, t)
    ensures OnGridTicker(origin, FireTicker(now, t))
    decreases if t.active && t.next <= now then now - t.next + 1 else 0
  {
    if t.active && t.next <= now {
      NextOnGrid(origin, t.interval, t.next);
      FiringKeepsGrid(now, origin, Tick(t));
    }
  }

  lemma FiringKeepsInv(s: Sys, now: int)
    requires Inv(s) && CanFire(now, s.clock)
    ensures Inv(s.(clock := FiredAt(now, s.clock)))
  {
    hide OnGrid, FireTicker;
    forall l | l in s.clock.tickers
      ensures TickerOk(now, s.origins[l], FireTicker(now, s.clock.tickers[l]))
    {
      FiringKeepsGrid(now, s.origins[l], s.clock.tickers[l]);
      FiredTickerIsAhead(now, s.clock.tickers[l]);
    }
  }

  lemma NewTickerOk(now: int, d: int)
    ensures TickerOk(now, now, TickerState(d, now + d, true, None))
  {
    assert GridPoint(now, d, 1) == now + d;
  }

  lemma StepKeepsInv(s: Sys, step: Step)
    requires Inv(s) && Enabled(s, step)
    ensures Inv(Next(s, step))
  {
    hide OnGrid, FireTicker;
    match step
    case NewTicker(l, d) => NewTickerOk(s.clock.current, d);
    case Advance(d) => FiringKeepsInv(s, s.clock.current + d);
    case SetTo(t) => FiringKeepsInv(s, t);
    case ResetTimer(k, d) => FiringKeepsInv(s.(clock := Armed(s.clock, k, s.clock.current + d)), s.clock.current);
    case _ =>
  }

  /** In every state of every run, however the clock was moved, the next tick of an active
      ticker is its creation time plus a whole number of intervals and lies after now. */
  lemma {:induction false} TickersKeepToTheirGrid(s: Sys, steps: seq<Step>)
    requires Inv(s) && IsRun(s, steps)
    ensures Inv(RunFrom(s, steps))
    decreases |steps|
  {
    hide Inv, Next, Enabled;
    if steps != [] {
      StepKeepsInv(s, steps[0]);
      TickersKeepToTheirGrid(Next(s, steps[0]), steps[1..]);
    }
  }

  lemma InitInv(start: int)
    ensures Inv(Init(start))
  {
  }

  /** In every run from a new clock: tickers keep to their grid, and once the clock has just
      been advanced or set, or a timer reset, no timer or ticker is due. */
  lemma EveryRun(start: int, steps: seq<Step>)
    requires IsRun(Init(start), steps)
    ensures var s := RunFrom(Init(start), steps);
            && s.origins.Keys == s.clock.tickers.Keys
            && (forall l :: l in s.clock.tickers ==> TickerOk(s.clock.current, s.origins[l], s.clock.tickers[l]))
            && (steps != [] && Fires(steps[|steps| - 1]) ==> NothingDue(s.clock))
  {
    InitInv(start);
    TickersKeepToTheirGrid(Init(start), steps);
    if steps != [] && Fires(steps[|steps| - 1]) {
      LastStepFires(Init(start), steps);
    }
  }

  predicate Fires(step: Step) {
    step.Advance? || step.SetTo? || step.ResetTimer?
  }

  lemma {:induction false} LastStepFires(s: Sys, steps: seq<Step>)
    requires IsRun(s, steps) && steps != [] && Fires(steps[|steps| - 1])
    ensures NothingDue(RunFrom(s, steps).clock)
    decreases |steps|
  {
    hide NothingDue;
    if |steps| > 1 {
      LastStepFires(Next(s, steps[0]), steps[1..]);
    } else {
      var c := s.clock;
      match steps[0] {
        case Advance(d) => NothingDueAfterFiring(c.current + d, c);
        case SetTo(t) => NothingDueAfterFiring(t, c);
        case ResetTimer(k, d) => NothingDueAfterFiring(c.current, Armed(c, k, c.current + d));
      }
      assert steps[1..] == [];
    }
  }
}
