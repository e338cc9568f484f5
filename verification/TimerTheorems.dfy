/** What the timers and tickers of the mock clock deliver, over whole runs. */
module TimerTheorems {
  import opened Wrappers
  import opened MockClocks
  import opened ClockTheorems

  // ----- Where a timer ends up

  /** The step stops, resets or receives from the timer. */
  predicate TouchesTimer(step: Step, k: nat) {
    step == StopTimer(k) || step == TakeTimer(k) || (step.ResetTimer? && step.k == k)
  }

  ghost predicate LeftAlone(steps: seq<Step>, k: nat) {
    forall i :: 0 <= i < |steps| ==> !TouchesTimer(steps[i], k)
  }

  /** Some step of the run fires what is due at `time` or later. */
  ghost predicate Reaches(s: Sys, steps: seq<Step>, time: int)
    requires IsRun(s, steps)
    decreases |steps|
  {
    steps != [] && ((Fires(steps[0]) && Next(s, steps[0]).clock.current >= time) || Reaches(Next(s, steps[0]), steps[1..], time))
  }

  /** What one step does to a timer that it does not touch. */
  lemma TimerAfterStep(s: Sys, step: Step, k: nat)
    requires Enabled(s, step) && k in s.clock.timers && !TouchesTimer(step, k)
    ensures var t := Next(s, step);
            var before := s.clock.timers[k];
            && k in t.clock.timers
            && t.clock.timers[k] ==
                 if Fires(step) && before.active && before.deadline <= t.clock.current
                 then TimerState(before.deadline, false, if before.c.None? then Some(before.deadline) else before.c)
                 else before
  {
    hide FireTicker;
  }

  /** Over any run that does not touch a timer: if it is active and the run reaches its deadline, it
      is no longer active, and its channel holds the deadline, or the older value with which it
      was full.  Otherwise nothing about it changes. */
  lemma {:induction false} TimerAfterRun(s: Sys, steps: seq<Step>, k: nat)
    requires IsRun(s, steps) && k in s.clock.timers && LeftAlone(steps, k)
    ensures var t := RunFrom(s, steps);
            var before := s.clock.timers[k];
            && k in t.clock.timers
            && t.clock.timers[k] ==
                 if before.active && Reaches(s, steps, before.deadline)
                 then TimerState(before.deadline, false, if before.c.None? then Some(before.deadline) else before.c)
                 else before
    decreases |steps|
  {
    hide Next, Enabled;
    if steps != [] {
      TimerAfterStep(s, steps[0], k);
      TimerAfterRun(Next(s, steps[0]), steps[1..], k);
    }
  }

  /** A reset timer counts from now, whether it was active or not, and fires at once if its new
      deadline is not after now; stopping and receiving do no more than they say. */
  lemma TimerTouched(s: Sys, step: Step, k: nat)
    requires Enabled(s, step) && k in s.clock.timers && TouchesTimer(step, k)
    ensures var before := s.clock.timers[k];
            var after := Next(s, step).clock.timers[k];
            && k in Next(s, step).clock.timers && Next(s, step).clock.current == s.clock.current
            && match step
               case StopTimer(_) => after == before.(active := false)
               case TakeTimer(_) => after == before.(c := None)
               case ResetTimer(_, d) =>
                 if d > 0 then after == TimerState(s.clock.current + d, true, before.c)
                 else after == TimerState(s.clock.current + d, false, if before.c.None? then Some(s.clock.current + d) else before.c)
  {
    hide FireTicker;
  }

  // ----- Where the clock is

  /** The time at the end of a run, read off its steps. */
  function TimeAfter(start: int, steps: seq<Step>): int {
    if steps == [] then start
    else
      match steps[|steps| - 1]
      case Advance(d) => TimeAfter(start, steps[..|steps| - 1]) + d
      case SetTo(t) => t
      case _ => TimeAfter(start, steps[..|steps| - 1])
  }

  lemma {:induction false} TimeAfterFirst(start: int, steps: seq<Step>)
    requires steps != []
    ensures TimeAfter(start, steps)
         == TimeAfter(match steps[0] case Advance(d) => start + d case SetTo(t) => t case _ => start, steps[1..])
    decreases |steps|
  {
    var k := |steps| - 1;
    if k > 0 {
      TimeAfterFirst(start, steps[..k]);
      assert steps[1..][..k - 1] == steps[..k][1..];
    } else {
      assert steps[..k] == [] && steps[1..] == [];
    }
  }

  /** The clock shows where it was last set, plus all advances since then. */
  lemma {:induction false} ClockShows(s: Sys, steps: seq<Step>)
    requires IsRun(s, steps)
    ensures RunFrom(s, steps).clock.current == TimeAfter(s.clock.current, steps)
    decreases |steps|
  {
    if steps != [] {
      TimeAfterFirst(s.clock.current, steps);
      hide FireTicker, TimeAfter;
      ClockShows(Next(s, steps[0]), steps[1..]);
    }
  }

  // ----- What a timer's channel can hold

  /** A deadline the timer was armed with, and the clock has shown that time or a later one. */
  ghost predicate Passed(s: Sys, k: nat, time: int) {
    && k in s.armed && time in s.armed[k]
    && exists now :: now in s.shown && now >= time
  }

  ghost predicate TimerOk(s: Sys, k: nat, t: TimerState) {
    && k in s.armed && s.armed[k] != [] && t.deadline == s.armed[k][|s.armed[k]| - 1]
    && (t.c.Some? ==> Passed(s, k, t.c.value))
  }

  ghost predicate TimersInv(s: Sys) {
    && s.clock.current in s.shown
    && forall k :: k in s.clock.timers ==> TimerOk(s, k, s.clock.timers[k])
  }

  /** Histories only grow. */
  ghost predicate Extends(s: Sys, t: Sys) {
    && (forall now :: now in s.shown ==> now in t.shown)
    && (forall k :: k in s.armed ==> k in t.armed && forall time :: time in s.armed[k] ==> time in t.armed[k])
  }

  lemma PassedStays(s: Sys, t: Sys, k: nat, time: int)
    requires Passed(s, k, time) && Extends(s, t)
    ensures Passed(t, k, time)
  {
    var now :| now in s.shown && now >= time;
    assert now in t.shown;
  }

  lemma StepExtends(s: Sys, step: Step)
    requires Enabled(s, step) && (step.NewTimer? ==> step.k !in s.armed)
    ensures Extends(s, Next(s, step)) && (s.clock.current in s.shown ==> Next(s, step).clock.current in Next(s, step).shown)
  {
    hide FireTicker, FireTimer;
  }

  lemma FiringKeepsTimer(s: Sys, k: nat, t: TimerState)
    requires TimerOk(s, k, t) && s.clock.current in s.shown
    ensures TimerOk(s, k, FireTimer(s.clock.current, t))
  {
    if t.active && t.deadline <= s.clock.current {
      assert Passed(s, k, t.deadline);
    }
  }

  /** The timer after a step, before the step fires what is due. */
  function Unfired(s: Sys, step: Step, k: nat): TimerState
    requires k in s.clock.timers
  {
    var t := s.clock.timers[k];
    if step == StopTimer(k) then t.(active := false)
    else if step == TakeTimer(k) then t.(c := None)
    else if step.ResetTimer? && step.k == k then t.(deadline := s.clock.current + step.d, active := true)
    else t
  }

  lemma UnfiredThenFired(s: Sys, step: Step, k: nat)
    requires Enabled(s, step) && k in s.clock.timers
    ensures var t := Next(s, step);
            && k in t.clock.timers
            && t.clock.timers[k] == if Fires(step) then FireTimer(t.clock.current, Unfired(s, step, k)) else Unfired(s, step, k)
  {
    hide FireTicker, FireTimer;
  }

  lemma ArmedAfterStep(s: Sys, step: Step, k: nat)
    requires Enabled(s, step) && k in s.clock.timers && k in s.armed
    ensures var t := Next(s, step);
            && k in t.armed
            && t.armed[k] == if step.ResetTimer? && step.k == k then s.armed[k] + [s.clock.current + step.d] else s.armed[k]
  {
    hide FireTicker, FireTimer;
  }

  lemma StepKeepsTimer(s: Sys, step: Step, k: nat)
    requires TimersInv(s) && Enabled(s, step) && k in s.clock.timers && Extends(s, Next(s, step))
    requires Next(s, step).clock.current in Next(s, step).shown
    ensures k in Next(s, step).clock.timers && TimerOk(Next(s, step), k, Next(s, step).clock.timers[k])
  {
    var t := Next(s, step);
    var u := Unfired(s, step, k);
    assert TimerOk(s, k, s.clock.timers[k]);
    ArmedAfterStep(s, step, k);
    UnfiredThenFired(s, step, k);
    hide Next, Enabled, FireTimer, Extends;
    if u.c.Some? {
      PassedStays(s, t, k, u.c.value);
    }
    assert TimerOk(t, k, u);
    FiringKeepsTimer(t, k, u);
  }

  ghost predicate ArmedKeys(s: Sys) {
    s.armed.Keys == s.clock.timers.Keys
  }

  lemma StepKeepsTimers(s: Sys, step: Step)
    requires TimersInv(s) && ArmedKeys(s) && Enabled(s, step)
    ensures TimersInv(Next(s, step)) && ArmedKeys(Next(s, step))
  {
    StepExtends(s, step);
    var t := Next(s, step);
    assert ArmedKeys(t) by {
      hide FireTicker, FireTimer;
    }
    NewTimerOk(s, step);
    hide TimerOk, Next, Enabled, Extends;
    forall k | k in t.clock.timers
      ensures TimerOk(t, k, t.clock.timers[k])
    {
      if k in s.clock.timers {
        StepKeepsTimer(s, step, k);
      }
    }
  }

  lemma NewTimerOk(s: Sys, step: Step)
    requires Enabled(s, step)
    ensures forall k :: k in Next(s, step).clock.timers && k !in s.clock.timers ==> TimerOk(Next(s, step), k, Next(s, step).clock.timers[k])
  {
    hide FireTicker, FireTimer;
  }

  lemma {:induction false} RunKeepsTimers(s: Sys, steps: seq<Step>)
    requires TimersInv(s) && ArmedKeys(s) && IsRun(s, steps)
    ensures TimersInv(RunFrom(s, steps))
    decreases |steps|
  {
    hide TimersInv, ArmedKeys, Next, Enabled;
    if steps != [] {
      StepKeepsTimers(s, steps[0]);
      RunKeepsTimers(Next(s, steps[0]), steps[1..]);
    }
  }

  /** In every run from a new clock: the deadline of a timer is the last one it was armed with, and
      whatever its channel holds is a deadline it was armed with, at or before a time that the
      clock has shown. */
  lemma ChannelsHoldPassedDeadlines(start: int, steps: seq<Step>, k: nat)
    requires IsRun(Init(start), steps) && k in RunFrom(Init(start), steps).clock.timers
    ensures var s := RunFrom(Init(start), steps);
            var t := s.clock.timers[k];
            && k in s.armed && s.armed[k] != [] && t.deadline == s.armed[k][|s.armed[k]| - 1]
            && (t.c.Some? ==> t.c.value in s.armed[k] && exists now :: now in s.shown && now >= t.c.value)
  {
    hide IsRun, RunFrom;
    RunKeepsTimers(Init(start), steps);
    var s := RunFrom(Init(start), steps);
    assert TimerOk(s, k, s.clock.timers[k]);
  }

  // ----- Where a ticker ends up

  predicate TouchesTicker(step: Step, l: nat) {
    step == StopTicker(l) || step == TakeTicker(l)
  }

  ghost predicate TickerLeftAlone(steps: seq<Step>, l: nat) {
    forall i :: 0 <= i < |steps| ==> !TouchesTicker(steps[i], l)
  }

  /** A ticker that missed `n` ticks, of which its channel has kept the first if it was empty. */
  function Missed(t: TickerState, n: nat): TickerState {
    t.(next := t.next + n * t.interval, c := if n > 0 && t.c.None? then Some(t.next) else t.c)
  }

  lemma MissedTwice(t: TickerState, n: nat, m: nat)
    ensures Missed(Missed(t, n), m) == Missed(t, n + m)
  {
    assert (n + m) * t.interval == n * t.interval + m * t.interval;
  }

  /** Firing an active ticker makes it miss exactly the ticks up to now. */
  lemma {:induction false} FiringMisses(now: int, t: TickerState) returns (n: nat)
    requires t.interval > 0
    ensures FireTicker(now, t) == Missed(t, n)
    ensures n > 0 ==> t.active && t.next + (n - 1) * t.interval <= now
    ensures t.active ==> now < t.next + n * t.interval
    decreases if t.active && t.next <= now then now - t.next + 1 else 0
  {
    if t.active && t.next <= now {
      var m := FiringMisses(now, Tick(t));
      n := m + 1;
      assert Tick(t) == Missed(t, 1);
      MissedTwice(t, 1, m);
      assert (n - 1) * t.interval == m * t.interval && m > 0 ==> (m - 1) * t.interval == m * t.interval - t.interval;
      assert n * t.interval == m * t.interval + t.interval;
    } else {
      n := 0;
    }
  }

  lemma TickerAfterStep(s: Sys, step: Step, l: nat)
    requires Enabled(s, step) && l in s.clock.tickers && !TouchesTicker(step, l)
    ensures var t := Next(s, step);
            && l in t.clock.tickers
            && (Fires(step) ==> Terminates(t.clock.current, s.clock.tickers[l]))
            && t.clock.tickers[l] == if Fires(step) then FireTicker(t.clock.current, s.clock.tickers[l]) else s.clock.tickers[l]
  {
    hide FireTicker, FireTimer;
  }

  /** Over any run that does not touch a ticker, it misses a number of ticks, of which its channel
      keeps the first unless it was full: every tick that the run reaches while the ticker is
      active, and no other. */
  lemma {:induction false} TickerAfterRun(s: Sys, steps: seq<Step>, l: nat) returns (n: nat)
    requires IsRun(s, steps) && l in s.clock.tickers && s.clock.tickers[l].interval > 0 && TickerLeftAlone(steps, l)
    ensures var t := RunFrom(s, steps);
            var before := s.clock.tickers[l];
            && l in t.clock.tickers && t.clock.tickers[l] == Missed(before, n)
            && (n > 0 ==> before.active && Reaches(s, steps, before.next + (n - 1) * before.interval))
            && (before.active ==> !Reaches(s, steps, before.next + n * before.interval))
    decreases |steps|
  {
    hide Next, Enabled, FireTicker;
    var before := s.clock.tickers[l];
    if steps == [] {
      n := 0;
    } else {
      var t := Next(s, steps[0]);
      TickerAfterStep(s, steps[0], l);
      var m: nat := 0;
      if Fires(steps[0]) {
        m := FiringMisses(t.clock.current, before);
      }
      var rest := TickerAfterRun(t, steps[1..], l);
      n := m + rest;
      MissedTwice(before, m, rest);
      assert n * before.interval == m * before.interval + rest * before.interval;
      assert rest > 0 ==> (n - 1) * before.interval == m * before.interval + (rest - 1) * before.interval;
      ReachesLess(t, steps[1..], before.next + m * before.interval, before.next + n * before.interval);
      assert n * before.interval >= m * before.interval;
    }
  }

  lemma {:induction false} ReachesLess(s: Sys, steps: seq<Step>, early: int, late: int)
    requires IsRun(s, steps) && early <= late
    ensures Reaches(s, steps, late) ==> Reaches(s, steps, early)
    decreases |steps|
  {
    hide Next, Enabled;
    if steps != [] {
      ReachesLess(Next(s, steps[0]), steps[1..], early, late);
    }
  }

  /** A stopped ticker misses nothing more; receiving empties the channel and no more. */
  lemma TickerTouched(s: Sys, step: Step, l: nat)
    requires Enabled(s, step) && l in s.clock.tickers && TouchesTicker(step, l)
    ensures var before := s.clock.tickers[l];
            && l in Next(s, step).clock.tickers && Next(s, step).clock.current == s.clock.current
            && Next(s, step).clock.tickers[l] == if step.StopTicker? then before.(active := false) else before.(c := None)
  {
    hide FireTicker, FireTimer;
  }

  /** A new timer or ticker waits for its full duration with an empty channel. */
  lemma MadeWaiting(s: Sys, step: Step)
    requires Enabled(s, step) && (step.NewTimer? || step.NewTicker?)
    ensures var c := Next(s, step).clock;
            && c.current == s.clock.current
            && (step.NewTimer? ==> step.k in c.timers && c.timers[step.k] == TimerState(s.clock.current + step.d, true, None))
            && (step.NewTicker? ==>
                  && step.l in c.tickers && c.tickers[step.l].active && c.tickers[step.l].c == None
                  && c.tickers[step.l].next == s.clock.current + step.d && c.tickers[step.l].interval == step.d)
  {
    hide FireTicker, FireTimer;
  }
}
