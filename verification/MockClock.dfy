/** A clock that moves only when told to, with timers and tickers on capacity-1 channels. */
module MockClocks {
  import opened Wrappers

  // ----- States

  /** `c` is the channel: it holds at most one value. */
  datatype TimerState = TimerState(deadline: int, active: bool, c: Option<int>)

  datatype TickerState = TickerState(interval: int, next: int, active: bool, c: Option<int>)

  datatype ClockState<!K, !L> = ClockState(current: int, timers: map<K, TimerState>, tickers: map<L, TickerState>)

  // ----- What firing does

  /** A send that is dropped when the channel is full. */
  function Offer(c: Option<int>, v: int): Option<int> {
    if c.None? then Some(v) else c
  }

  function FireTimer(now: int, t: TimerState): TimerState {
    if !t.active || t.deadline > now then t else TimerState(t.deadline, false, Offer(t.c, t.deadline))
  }

  /** The catch-up loop ends: the ticker is not due, or each round moves it forward. */
  predicate Terminates(now: int, t: TickerState) {
    t.active && t.next <= now ==> t.interval > 0
  }

  /** One round of the catch-up loop. */
  function Tick(t: TickerState): TickerState {
    t.(next := t.next + t.interval, c := Offer(t.c, t.next))
  }

  function FireTicker(now: int, t: TickerState): TickerState
    requires Terminates(now, t)
    decreases if t.active && t.next <= now then now - t.next + 1 else 0
  {
    if !t.active || t.next > now then t else FireTicker(now, Tick(t))
  }

  predicate CanFire<K, L>(now: int, s: ClockState<K, L>) {
    forall l :: l in s.tickers ==> Terminates(now, s.tickers[l])
  }

  /** The clock at time `now`, with everything that is due fired. */
  function FiredAt<K, L>(now: int, s: ClockState<K, L>): ClockState<K, L>
    requires CanFire(now, s)
  {
    ClockState(now, map k | k in s.timers :: FireTimer(now, s.timers[k]), map l | l in s.tickers :: FireTicker(now, s.tickers[l]))
  }

  function Advanced<K, L>(s: ClockState<K, L>, d: int): ClockState<K, L>
    requires CanFire(s.current + d, s)
  {
    FiredAt(s.current + d, s)
  }

  // ----- The objects

  class MockTimer {
    const clock: MockClock
    var c: Option<int>
    var deadline: int
    var active: bool

    constructor (clock: MockClock, deadline: int)
      ensures this.clock == clock && State() == TimerState(deadline, true, None)
    {
      this.clock, this.c, this.deadline, this.active := clock, None, deadline, true;
    }

    ghost function State(): TimerState
      reads this
    {
      TimerState(deadline, active, c)
    }

    /** Takes what is in the channel, if anything is. */
    method Receive() returns (v: Option<int>)
      modifies this`c
      ensures v == old(c) && c == None
    {
      v, c := c, None;
    }

    method Stop() returns (wasActive: bool)
      modifies this`active
      ensures wasActive == old(active) && !active
    {
      wasActive := active;
      active := false;
    }

    /** Arms the timer again; this fires whatever is due anywhere on the clock. */
    method Reset(d: int) returns (wasActive: bool)
      requires this in clock.timers && CanFire(clock.current, clock.State())
      modifies clock.timers, clock.tickers
      ensures wasActive == old(active)
      ensures clock.State() == FiredAt(clock.current, Armed(old(clock.State()), this, old(clock.current) + d))
    {
      wasActive := active;
      deadline := clock.current + d;
      active := true;
      assert clock.State() == Armed(old(clock.State()), this, old(clock.current) + d);
      clock.FireDue();
    }
  }

  /** The clock with one timer set to a deadline. */
  function Armed<K, L>(s: ClockState<K, L>, k: K, deadline: int): ClockState<K, L>
    requires k in s.timers
  {
    s.(timers := s.timers[k := s.timers[k].(deadline := deadline, active := true)])
  }

  class MockTicker {
    var c: Option<int>
    var interval: int
    var next: int
    var active: bool

    constructor (interval: int, next: int)
      ensures State() == TickerState(interval, next, true, None)
    {
      this.c, this.interval, this.next, this.active := None, interval, next, true;
    }

    ghost function State(): TickerState
      reads this
    {
      TickerState(interval, next, active, c)
    }

    method Receive() returns (v: Option<int>)
      modifies this`c
      ensures v == old(c) && c == None
    {
      v, c := c, None;
    }

    method Stop()
      modifies this`active
      ensures !active
    {
      active := false;
    }

    /** The catch-up loop. */
    method CatchUp(now: int)
      requires Terminates(now, State()) && active
      modifies this
      ensures State() == FireTicker(now, old(State()))
    {
      while next <= now
        invariant active && Terminates(now, State())
        invariant FireTicker(now, State()) == FireTicker(now, old(State()))
        decreases now - next
      {
        var tick := next;
        next := next + interval;
        if c == None {
          c := Some(tick);
        }
      }
    }
  }

  class MockClock {
    var current: int
    var timers: set<MockTimer>
    var tickers: set<MockTicker>

    constructor (start: int)
      ensures State() == ClockState(start, map[], map[])
    {
      current, timers, tickers := start, {}, {};
    }

    ghost function State(): ClockState<MockTimer, MockTicker>
      reads this, timers, tickers
    {
      ClockState(current, map t | t in timers :: t.State(), map t | t in tickers :: t.State())
    }

    method Now() returns (t: int)
      ensures t == current
    {
      t := current;
    }

    /** A timer is active from the start, even with a deadline that has passed. */
    method NewTimer(d: int) returns (timer: MockTimer)
      modifies this`timers
      ensures fresh(timer) && timer.clock == this && timer in timers
      ensures State() == old(State()).(timers := old(State()).timers[timer := TimerState(current + d, true, None)])
    {
      timer := new MockTimer(this, current + d);
      timers := timers + {timer};
    }

    /** `After`: the channel of a new timer. */
    method After(d: int) returns (timer: MockTimer)
      modifies this`timers
      ensures fresh(timer) && timer.clock == this && timer in timers
      ensures State() == old(State()).(timers := old(State()).timers[timer := TimerState(current + d, true, None)])
    {
      timer := NewTimer(d);
    }

    method NewTicker(d: int) returns (ticker: MockTicker)
      modifies this`tickers
      ensures fresh(ticker) && ticker in tickers
      ensures State() == old(State()).(tickers := old(State()).tickers[ticker := TickerState(d, current + d, true, None)])
    {
      ticker := new MockTicker(d, current + d);
      tickers := tickers + {ticker};
    }

    method Sleep(d: int)
      requires CanFire(current + d, State())
      modifies this`current, timers, tickers
      ensures State() == Advanced(old(State()), d)
    {
      Advance(d);
    }

    method Advance(d: int)
      requires CanFire(current + d, State())
      modifies this`current, timers, tickers
      ensures State() == Advanced(old(State()), d)
    {
      hide FireTimer, FireTicker, Terminates;
      current := current + d;
      FireDue();
    }

    method Set(t: int)
      requires CanFire(t, State())
      modifies this`current, timers, tickers
      ensures State() == FiredAt(t, old(State()))
    {
      hide FireTimer, FireTicker, Terminates;
      current := t;
      FireDue();
    }

    /** Visits the timers and the tickers in any order. */
    method FireDue()
      requires CanFire(current, State())
      modifies timers, tickers
      ensures State() == FiredAt(current, old(State()))
    {
      hide FireTimer, FireTicker, Terminates;
      assert forall t :: t in tickers ==> State().tickers[t] == t.State();
      FireTimers();
      FireTickers();
    }

    method FireTimers()
      modifies timers
      ensures forall t :: t in timers ==> t.State() == FireTimer(current, old(t.State()))
    {
      var todo := timers;
      while todo != {}
        invariant todo <= timers
        invariant forall t :: t in todo ==> t.State() == old(t.State())
        invariant forall t :: t in timers - todo ==> t.State() == FireTimer(current, old(t.State()))
        decreases |todo|
      {
        var timer :| timer in todo;
        todo := todo - {timer};
        if !timer.active || timer.deadline > current {
          continue;
        }
        timer.active := false;
        if timer.c == None {
          timer.c := Some(timer.deadline);
        }
      }
    }

    method FireTickers()
      requires forall t :: t in tickers ==> Terminates(current, t.State())
      modifies tickers
      ensures forall t :: t in tickers ==> t.State() == FireTicker(current, old(t.State()))
    {
      var todo := tickers;
      while todo != {}
        invariant todo <= tickers
        invariant forall t :: t in todo ==> t.State() == old(t.State())
        invariant forall t :: t in tickers - todo ==> t.State() == FireTicker(current, old(t.State()))
        decreases |todo|
      {
        var ticker :| ticker in todo;
        todo := todo - {ticker};
        if !ticker.active {
          continue;
        }
        ticker.CatchUp(current);
      }
    }
  }
}
