/** The queue, its workers and the call groups as one concurrent system.

    A step is what one goroutine does while it holds a mutex, or the return of a callback.
    Steps of different goroutines interleave in any order. */
module InflightSystem {
  import opened Wrappers
  import opened DedupeQueues
  import opened CallGroups

  /** Where a worker is in `Dequeue`: about to take the lock, waiting on the condition
      variable, woken but without the lock yet, in its callback with `finished` operations
      already finished, or returned for good. */
  datatype Worker =
    | Calling
    | Asleep
    | Woken
    | Running(id: Id, ops: seq<Op>, finished: nat)
    | Returned

  /** The state.  The last seven fields are histories: the operations made by `Add`, the answers
      of `Enqueue`, the operations it accepted, those handed to callbacks, those finished and
      with what outcome, and the groups that were used wrongly, with an `Add` after a `Finish`. */
  datatype Sys = Sys(
    queue: Queue,
    alerted: bool,
    workers: seq<Worker>,
    groups: map<nat, Group>,
    added: seq<Op>,
    answers: seq<Answer>,
    accepted: seq<Op>,
    delivered: seq<Op>,
    finished: seq<Op>,
    outcomes: seq<Outcome>,
    late: set<nat>)

  function Init(depth: int, width: int, workers: nat): Sys {
    Sys(NewQueue(depth, width), false, seq(workers, i => Calling), map[], [], [], [], [], [], [], {})
  }

  function GroupOf(s: Sys, g: nat): Group {
    if g in s.groups then s.groups[g] else NEW_GROUP
  }

  /** One step.  `Enqueue` names the sleeper that its signal wakes, if there is one. */
  datatype Step =
    | Add(op: Op)
    | Enqueue(op: Op, sleeper: nat)
    | Acquire(worker: nat)
    | Finish(worker: nat, outcome: Outcome)
    | Return(worker: nat)
    | Close
    | Broadcast

  predicate HasFinished(finished: seq<Op>, g: nat) {
    exists i :: 0 <= i < |finished| && finished[i].group == Some(g)
  }

  /** When a step can be taken.  `Return` also asks for the backup set the callback's worker
      looks up, and `Acquire` only takes a set that is there: in the original a missing one
      would be a panic, and `InflightTheorems.EveryRunKeepsStructure` shows that neither is
      ever missing. */
  predicate Enabled(s: Sys, step: Step) {
    match step
    case Add(op) => op.group.Some?
    case Enqueue(op, sleeper) =>
      && (op.group.Some? ==> op in s.added)
      && (AnswerTo(s.queue, op) == Accepted(true) && (exists w :: 0 <= w < |s.workers| && s.workers[w] == Asleep)
          ==> sleeper < |s.workers| && s.workers[sleeper] == Asleep)
    case Acquire(w) => w < |s.workers| && (s.workers[w] == Calling || s.workers[w] == Woken)
    case Finish(w, _) => w < |s.workers| && s.workers[w].Running? && s.workers[w].finished < |s.workers[w].ops|
    case Return(w) => w < |s.workers| && s.workers[w].Running? && s.workers[w].finished == |s.workers[w].ops|
                      && (s.queue.closed || s.workers[w].id in s.queue.backup)
    case Close => true
    case Broadcast => s.queue.closed
  }

  function Wake(workers: seq<Worker>, w: nat): seq<Worker> {
    if w < |workers| && workers[w] == Asleep then workers[w := Woken] else workers
  }

  function WakeAll(workers: seq<Worker>): (r: seq<Worker>)
    ensures |r| == |workers|
    ensures forall w :: 0 <= w < |workers| ==> r[w] == if workers[w] == Asleep then Woken else workers[w]
  {
    seq(|workers|, w requires 0 <= w < |workers| => if workers[w] == Asleep then Woken else workers[w])
  }

  /** The worker has the lock: it takes a set, goes to sleep, or leaves a closed queue. */
  function AfterAcquire(s: Sys, w: nat): Sys
    requires Enabled(s, Acquire(w))
  {
    if s.queue.closed then s.(workers := s.workers[w := Returned])
    else if CanTake(s.queue) then
      s.(queue := AfterTake(s.queue),
         workers := s.workers[w := Running(TakenId(s.queue), TakenSet(s.queue), 0)],
         delivered := s.delivered + TakenSet(s.queue))
    else s.(workers := s.workers[w := Asleep])
  }

  /** The callback finishes its next operation. */
  function AfterFinishStep(s: Sys, w: nat, outcome: Outcome): Sys
    requires Enabled(s, Finish(w, outcome))
  {
    var worker := s.workers[w];
    var op := worker.ops[worker.finished];
    s.(workers := s.workers[w := worker.(finished := worker.finished + 1)],
       finished := s.finished + [op],
       outcomes := s.outcomes + [outcome],
       groups := if op.group.Some? then s.groups[op.group.value := AfterFinish(GroupOf(s, op.group.value), op, outcome)]
                 else s.groups)
  }

  function Next(s: Sys, step: Step): Sys
    requires Enabled(s, step)
  {
    match step
    case Add(op) =>
      var g := op.group.value;
      s.(groups := s.groups[g := AfterAdd(GroupOf(s, g), op)],
         added := s.added + [op],
         late := if HasFinished(s.finished, g) then s.late + {g} else s.late)
    case Enqueue(op, sleeper) =>
      s.(queue := AfterEnqueue(s.queue, op),
         answers := s.answers + [AnswerTo(s.queue, op)],
         accepted := if AnswerTo(s.queue, op).Accepted? then s.accepted + [op] else s.accepted,
         workers := if AnswerTo(s.queue, op) == Accepted(true) then Wake(s.workers, sleeper) else s.workers)
    case Acquire(w) => AfterAcquire(s, w)
    case Finish(w, outcome) => AfterFinishStep(s, w, outcome)
    case Return(w) =>
      s.(queue := AfterCallback(s.queue, s.workers[w].id),
         workers := s.workers[w := if s.queue.closed then Returned else Calling])
    case Close => s.(queue := AfterClose(s.queue))
    case Broadcast => s.(alerted := true, workers := WakeAll(s.workers))
  }

  /** A run: every step is enabled where it is taken. */
  ghost predicate IsRun(s: Sys, steps: seq<Step>)
    decreases |steps|
  {
    steps == [] || (Enabled(s, steps[0]) && IsRun(Next(s, steps[0]), steps[1..]))
  }

  ghost function RunFrom(s: Sys, steps: seq<Step>): Sys
    requires IsRun(s, steps)
    decreases |steps|
  {
    if steps == [] then s else RunFrom(Next(s, steps[0]), steps[1..])
  }

  /** The operations of a history with a given ID, in order. */
  function For(ops: seq<Op>, id: Id): seq<Op> {
    if ops == [] then []
    else For(ops[..|ops| - 1], id) + if ops[|ops| - 1].id == id then [ops[|ops| - 1]] else []
  }

  function RunningCount(workers: seq<Worker>): nat {
    if workers == [] then 0 else (if workers[0].Running? then 1 else 0) + RunningCount(workers[1..])
  }

  // ----- The invariant

  /** What a callback runs on: a non-empty set of operations with its ID, within the width. */
  ghost predicate BusyInv(workers: seq<Worker>, width: int) {
    forall w :: 0 <= w < |workers| && workers[w].Running? ==>
      && 1 <= |workers[w].ops| <= Max(1, width)
      && AllFor(workers[w].ops, workers[w].id)
      && workers[w].finished <= |workers[w].ops|
  }

  ghost predicate IsRunning(workers: seq<Worker>, w: int, id: Id) {
    0 <= w < |workers| && workers[w].Running? && workers[w].id == id
  }

  /** The running callbacks are for exactly the given IDs, one callback for each. */
  ghost predicate InFlight(workers: seq<Worker>, ids: set<Id>) {
    && (forall w, id :: IsRunning(workers, w, id) ==> id in ids)
    && (forall id :: id in ids ==> exists w :: IsRunning(workers, w, id))
    && (forall v, w, id :: IsRunning(workers, v, id) && IsRunning(workers, w, id) ==> v == w)
    && |ids| == RunningCount(workers)
  }

  /** No worker leaves an open queue; nobody sleeps once the close has been broadcast. */
  ghost predicate LifeInv(s: Sys) {
    && (!s.queue.closed ==> !s.alerted && forall w :: 0 <= w < |s.workers| ==> s.workers[w] != Returned)
    && (s.alerted ==> forall w :: 0 <= w < |s.workers| ==> s.workers[w] != Asleep)
  }

  ghost predicate SomebodyUp(workers: seq<Worker>) {
    exists w :: 0 <= w < |workers| && workers[w] != Asleep
  }

  /** Somebody is up as long as there is something to take. */
  ghost predicate WakeInv(s: Sys) {
    !s.queue.closed && s.queue.order != [] && |s.workers| > 0 ==> SomebodyUp(s.workers)
  }

  ghost predicate BoundInv(s: Sys) {
    !s.queue.closed ==> |s.queue.order| + RunningCount(s.workers) <= Max(0, s.queue.depth) + |s.workers|
  }

  /** For every ID, what was delivered and what is held back is what was accepted, in order. */
  ghost predicate Conserved(q: Queue, accepted: seq<Op>, delivered: seq<Op>) {
    forall id :: For(accepted, id) == For(delivered, id) + Held(q, id)
  }

  ghost predicate HistoryInv(s: Sys) {
    && (!s.queue.closed ==> Conserved(s.queue, s.accepted, s.delivered))
    && (forall op :: op in s.accepted && op.group.Some? ==> op in s.added)
    && (forall op :: op in s.delivered ==> op in s.accepted)
  }

  ghost predicate Inv(s: Sys) {
    && QueueInv(s.queue)
    && BusyInv(s.workers, s.queue.width)
    && (!s.queue.closed ==> InFlight(s.workers, s.queue.backup.Keys))
    && LifeInv(s) && WakeInv(s) && BoundInv(s) && HistoryInv(s)
  }

  // ----- Counting and projecting

  lemma {:induction false} CountUpdate(workers: seq<Worker>, w: nat, r: Worker)
    requires w < |workers|
    ensures RunningCount(workers[w := r]) + (if workers[w].Running? then 1 else 0)
         == RunningCount(workers) + (if r.Running? then 1 else 0)
    decreases |workers|
  {
    var u := workers[w := r];
    if w == 0 {
      assert u[1..] == workers[1..];
    } else {
      assert u[1..] == workers[1..][w - 1 := r];
      CountUpdate(workers[1..], w - 1, r);
    }
  }

  lemma {:induction false} CountSame(a: seq<Worker>, b: seq<Worker>)
    requires |a| == |b| && forall w :: 0 <= w < |a| ==> a[w].Running? == b[w].Running?
    ensures RunningCount(a) == RunningCount(b)
    decreases |a|
  {
    if a != [] {
      forall w | 0 <= w < |a[1..]|
        ensures a[1..][w].Running? == b[1..][w].Running?
      {
        assert a[1..][w] == a[w + 1] && b[1..][w] == b[w + 1];
      }
      CountSame(a[1..], b[1..]);
    }
  }

  lemma {:induction false} CountAtMost(workers: seq<Worker>)
    ensures RunningCount(workers) <= |workers|
    decreases |workers|
  {
    if workers != [] {
      CountAtMost(workers[1..]);
    }
  }

  lemma {:induction false} CountNone(workers: seq<Worker>)
    requires forall w :: 0 <= w < |workers| ==> !workers[w].Running?
    ensures RunningCount(workers) == 0
    decreases |workers|
  {
    if workers != [] {
      forall w | 0 <= w < |workers[1..]|
        ensures !workers[1..][w].Running?
      {
        assert workers[1..][w] == workers[w + 1];
      }
      CountNone(workers[1..]);
    }
  }

  lemma ForOneMore(ops: seq<Op>, op: Op, id: Id)
    ensures For(ops + [op], id) == For(ops, id) + if op.id == id then [op] else []
  {
    assert (ops + [op])[..|ops|] == ops;
  }

  lemma {:induction false} ForAppend(a: seq<Op>, b: seq<Op>, id: Id)
    ensures For(a + b, id) == For(a, id) + For(b, id)
    decreases |b|
  {
    if b == [] {
      assert a + b == a;
    } else {
      var init, last := b[..|b| - 1], b[|b| - 1];
      assert a + b == (a + init) + [last];
      assert b == init + [last];
      ForAppend(a, init, id);
      ForOneMore(a + init, last, id);
    }
  }

  lemma {:induction false} ForOwn(ops: seq<Op>, owner: Id, id: Id)
    requires AllFor(ops, owner)
    ensures For(ops, id) == if id == owner then ops else []
    decreases |ops|
  {
    if ops != [] {
      ForOwn(ops[..|ops| - 1], owner, id);
    }
  }

  lemma {:induction false} ForIsPart(ops: seq<Op>, id: Id, op: Op)
    requires op in For(ops, id)
    ensures op in ops && op.id == id
    decreases |ops|
  {
    if op in For(ops[..|ops| - 1], id) {
      ForIsPart(ops[..|ops| - 1], id, op);
    }
  }

  lemma {:induction false} PartOfFor(ops: seq<Op>, op: Op)
    requires op in ops
    ensures op in For(ops, op.id)
    decreases |ops|
  {
    if op in ops[..|ops| - 1] {
      PartOfFor(ops[..|ops| - 1], op);
    } else {
      assert op == ops[|ops| - 1];
    }
  }

  // ----- Workers

  lemma InFlightSame(a: seq<Worker>, b: seq<Worker>, ids: set<Id>)
    requires InFlight(a, ids) && |a| == |b|
    requires forall w :: 0 <= w < |a| ==> a[w].Running? == b[w].Running? && (a[w].Running? ==> a[w].id == b[w].id)
    ensures InFlight(b, ids)
  {
    CountSame(a, b);
    forall w, id
      ensures IsRunning(a, w, id) <==> IsRunning(b, w, id)
    {
    }
    forall id | id in ids
      ensures exists v :: IsRunning(b, v, id)
    {
      var v :| IsRunning(a, v, id);
      assert IsRunning(b, v, id);
    }
  }

  lemma InFlightStart(workers: seq<Worker>, ids: set<Id>, w: nat, r: Worker)
    requires InFlight(workers, ids) && w < |workers| && !workers[w].Running? && r.Running? && r.id !in ids
    ensures InFlight(workers[w := r], ids + {r.id})
  {
    var t := workers[w := r];
    CountUpdate(workers, w, r);
    forall v, id
      ensures IsRunning(t, v, id) <==> IsRunning(workers, v, id) || (v == w && id == r.id)
    {
    }
    assert IsRunning(t, w, r.id);
    forall id | id in ids
      ensures exists v :: IsRunning(t, v, id)
    {
      var v :| IsRunning(workers, v, id);
      assert IsRunning(t, v, id);
    }
  }

  lemma InFlightStop(workers: seq<Worker>, ids: set<Id>, w: nat, r: Worker)
    requires InFlight(workers, ids) && w < |workers| && workers[w].Running? && !r.Running?
    ensures InFlight(workers[w := r], ids - {workers[w].id})
  {
    var t := workers[w := r];
    CountUpdate(workers, w, r);
    assert IsRunning(workers, w, workers[w].id);
    forall v, id
      ensures IsRunning(t, v, id) <==> IsRunning(workers, v, id) && v != w
    {
    }
    forall id | id in ids && id != workers[w].id
      ensures exists v :: IsRunning(t, v, id)
    {
      var v :| IsRunning(workers, v, id);
      assert IsRunning(t, v, id);
    }
  }

  lemma BusyUpdate(workers: seq<Worker>, width: int, w: nat, r: Worker)
    requires BusyInv(workers, width) && w < |workers|
    requires r.Running? ==> 1 <= |r.ops| <= Max(1, width) && AllFor(r.ops, r.id) && r.finished <= |r.ops|
    ensures BusyInv(workers[w := r], width)
  {
    hide AllFor;
  }

  /** One worker changed to a state in which it is up. */
  lemma StaysUp(s: Sys, t: Sys, w: nat)
    requires LifeInv(s) && w < |s.workers| == |t.workers| && t.workers == s.workers[w := t.workers[w]]
    requires t.queue.closed == s.queue.closed && t.alerted == s.alerted
    requires t.workers[w] != Asleep && (t.workers[w] == Returned ==> s.queue.closed)
    ensures LifeInv(t) && WakeInv(t)
  {
  }

  // ----- Every step keeps the invariant

  lemma AcceptedHeld(q: Queue, op: Op, id: Id)
    requires QueueInv(q) && AnswerTo(q, op).Accepted?
    ensures Held(AfterEnqueue(q, op), id) == Held(q, id) + if id == op.id then [op] else []
  {
    hide Distinct, AllFor;
  }

  lemma AcceptedConserves(q: Queue, op: Op, accepted: seq<Op>, delivered: seq<Op>)
    requires QueueInv(q) && AnswerTo(q, op).Accepted? && Conserved(q, accepted, delivered)
    ensures Conserved(AfterEnqueue(q, op), accepted + [op], delivered)
  {
    hide For, Held, QueueInv, AfterEnqueue, AnswerTo;
    forall id
      ensures For(accepted + [op], id) == For(delivered, id) + Held(AfterEnqueue(q, op), id)
    {
      ForOneMore(accepted, op, id);
      AcceptedHeld(q, op, id);
    }
  }

  lemma EnqueueHistory(s: Sys, op: Op, sleeper: nat)
    requires QueueInv(s.queue) && HistoryInv(s) && Enabled(s, Step.Enqueue(op, sleeper)) && AnswerTo(s.queue, op).Accepted?
    ensures HistoryInv(Next(s, Step.Enqueue(op, sleeper)))
  {
    EnqueueShape(s.queue, op);
    RejectsWhenClosed(s.queue, op);
    hide QueueInv, Conserved, AfterEnqueue, AnswerTo;
    AcceptedConserves(s.queue, op, s.accepted, s.delivered);
  }

  lemma WakeKeepsWorkers(s: Sys, sleeper: nat)
    requires BusyInv(s.workers, s.queue.width) && LifeInv(s)
    ensures BusyInv(Wake(s.workers, sleeper), s.queue.width) && LifeInv(s.(workers := Wake(s.workers, sleeper)))
    ensures RunningCount(Wake(s.workers, sleeper)) == RunningCount(s.workers)
  {
    hide AllFor;
    CountSame(s.workers, Wake(s.workers, sleeper));
  }

  lemma EnqueueStep(s: Sys, op: Op, sleeper: nat)
    requires Inv(s) && Enabled(s, Step.Enqueue(op, sleeper))
    ensures Inv(Next(s, Step.Enqueue(op, sleeper)))
  {
    var t := Next(s, Step.Enqueue(op, sleeper));
    hide QueueInv, InFlight, AfterEnqueue, AnswerTo, HistoryInv, WakeInv, BusyInv;
    RejectsWhenClosed(s.queue, op);
    WakeKeepsWorkers(s, sleeper);
    if AnswerTo(s.queue, op).Accepted? {
      EnqueueShape(s.queue, op);
      EnqueueKeeps(s.queue, op);
      EnqueueHistory(s, op, sleeper);
      EnqueueWakes(s, op, sleeper);
      InFlightSame(s.workers, t.workers, s.queue.backup.Keys);
      CountAtMost(s.workers);
    } else {
      AnswersAreHistory(s, t);
    }
  }

  lemma AnswersAreHistory(s: Sys, t: Sys)
    requires Inv(s) && t == s.(answers := t.answers)
    ensures Inv(t)
  {
    hide QueueInv, InFlight, BusyInv, Conserved;
  }

  lemma RejectsWhenClosed(q: Queue, op: Op)
    ensures AnswerTo(q, op).Accepted? ==> !q.closed
    ensures !AnswerTo(q, op).Accepted? ==> AfterEnqueue(q, op) == q
  {
  }

  lemma EnqueueWakes(s: Sys, op: Op, sleeper: nat)
    requires WakeInv(s) && Enabled(s, Step.Enqueue(op, sleeper)) && AnswerTo(s.queue, op).Accepted?
    ensures WakeInv(Next(s, Step.Enqueue(op, sleeper)))
  {
    var t := Next(s, Step.Enqueue(op, sleeper));
    EnqueueShape(s.queue, op);
    hide AfterEnqueue, AnswerTo;
    if |s.workers| > 0 && AnswerTo(s.queue, op) == Accepted(true) {
      if exists w :: 0 <= w < |s.workers| && s.workers[w] == Asleep {
        assert t.workers[sleeper] == Woken;
      } else {
        assert t.workers[0] != Asleep;
      }
    }
  }

  /** An open, invariant queue with something in its list can be taken from. */
  lemma FrontIsThere(q: Queue)
    requires QueueInv(q) && !q.closed && q.order != []
    ensures CanTake(q)
  {
    assert q.order[0] in q.order;
  }

  lemma TakenIsWithin(q: Queue)
    requires QueueInv(q) && CanTake(q)
    ensures 1 <= |TakenSet(q)| <= Max(1, q.width) && AllFor(TakenSet(q), TakenId(q))
    ensures Held(q, TakenId(q)) == TakenSet(q)
  {
    assert TakenId(q) in q.entries;
  }

  lemma TakenHeld(q: Queue, x: Id)
    requires QueueInv(q) && CanTake(q)
    ensures Held(q, x) == (if x == TakenId(q) then TakenSet(q) else []) + Held(AfterTake(q), x)
  {
    hide Distinct, AllFor;
  }

  lemma TakenWasAccepted(q: Queue, accepted: seq<Op>, delivered: seq<Op>)
    requires QueueInv(q) && CanTake(q) && Conserved(q, accepted, delivered)
    ensures forall op :: op in TakenSet(q) ==> op in accepted
  {
    var id := TakenId(q);
    TakenIsWithin(q);
    hide QueueInv, AllFor, For;
    forall op | op in TakenSet(q)
      ensures op in accepted
    {
      assert op in Held(q, id);
      assert op in For(accepted, id);
      ForIsPart(accepted, id, op);
    }
  }

  lemma Reassociate(a: seq<Op>, b: seq<Op>, c: seq<Op>)
    ensures a + (b + c) == (a + b) + c
  {
  }

  lemma TakeConservesFor(q: Queue, accepted: seq<Op>, delivered: seq<Op>, x: Id)
    requires QueueInv(q) && CanTake(q) && For(accepted, x) == For(delivered, x) + Held(q, x)
    ensures For(accepted, x) == For(delivered + TakenSet(q), x) + Held(AfterTake(q), x)
  {
    TakenIsWithin(q);
    TakenHeld(q, x);
    hide QueueInv, AllFor, For, Held, AfterTake, TakenSet, TakenId;
    ForAppend(delivered, TakenSet(q), x);
    ForOwn(TakenSet(q), TakenId(q), x);
    Reassociate(For(delivered, x), For(TakenSet(q), x), Held(AfterTake(q), x));
  }

  lemma TakeConserves(q: Queue, accepted: seq<Op>, delivered: seq<Op>)
    requires QueueInv(q) && CanTake(q) && Conserved(q, accepted, delivered)
    ensures Conserved(AfterTake(q), accepted, delivered + TakenSet(q))
  {
    hide QueueInv, AllFor, For, Held, AfterTake, TakenSet, TakenId;
    forall x
      ensures For(accepted, x) == For(delivered + TakenSet(q), x) + Held(AfterTake(q), x)
    {
      TakeConservesFor(q, accepted, delivered, x);
    }
  }

  lemma TakeHistory(s: Sys, w: nat)
    requires QueueInv(s.queue) && HistoryInv(s) && Enabled(s, Acquire(w)) && CanTake(s.queue)
    ensures HistoryInv(Next(s, Acquire(w)))
  {
    TakeShape(s.queue);
    TakeConserves(s.queue, s.accepted, s.delivered);
    TakenWasAccepted(s.queue, s.accepted, s.delivered);
    hide QueueInv, Conserved, AfterTake, TakenSet;
  }

  lemma TakeStep(s: Sys, w: nat)
    requires Inv(s) && Enabled(s, Acquire(w)) && CanTake(s.queue)
    ensures Inv(Next(s, Acquire(w)))
  {
    var t := Next(s, Acquire(w));
    assert t.workers[w] == Running(TakenId(s.queue), TakenSet(s.queue), 0);
    hide QueueInv, InFlight, BusyInv, LifeInv, WakeInv, HistoryInv, AfterTake, TakenSet, TakenId, Held, For;
    TakeKeeps(s.queue);
    TakeShape(s.queue);
    TakeHistory(s, w);
    TakenIsWithin(s.queue);
    CountUpdate(s.workers, w, t.workers[w]);
    InFlightStart(s.workers, s.queue.backup.Keys, w, t.workers[w]);
    BusyUpdate(s.workers, s.queue.width, w, t.workers[w]);
    StaysUp(s, t, w);
  }

  lemma AcquireStep(s: Sys, w: nat)
    requires Inv(s) && Enabled(s, Acquire(w))
    ensures Inv(Next(s, Acquire(w)))
  {
    if CanTake(s.queue) {
      TakeStep(s, w);
    } else {
      var t := Next(s, Acquire(w));
      CountUpdate(s.workers, w, t.workers[w]);
      if !s.queue.closed && s.queue.order != [] {
        FrontIsThere(s.queue);
      }
      hide QueueInv, Conserved, InFlight, AllFor;
      if !s.queue.closed {
        InFlightSame(s.workers, t.workers, s.queue.backup.Keys);
      }
    }
  }

  lemma FinishStep(s: Sys, w: nat, outcome: Outcome)
    requires Inv(s) && Enabled(s, Step.Finish(w, outcome))
    ensures Inv(Next(s, Step.Finish(w, outcome)))
  {
    hide QueueInv, Conserved, InFlight, AllFor, AfterFinish;
    var t := Next(s, Step.Finish(w, outcome));
    CountUpdate(s.workers, w, t.workers[w]);
    if !s.queue.closed {
      InFlightSame(s.workers, t.workers, s.queue.backup.Keys);
    }
    assert t.workers[w] != Asleep;
  }

  lemma ReturnConserves(q: Queue, id: Id, accepted: seq<Op>, delivered: seq<Op>)
    requires QueueInv(q) && !q.closed && id in q.backup && Conserved(q, accepted, delivered)
    ensures Conserved(AfterCallback(q, id), accepted, delivered)
  {
    forall x
      ensures Held(AfterCallback(q, id), x) == Held(q, x)
    {
    }
  }

  lemma ReturnHistory(s: Sys, w: nat)
    requires QueueInv(s.queue) && HistoryInv(s) && Enabled(s, Return(w))
    ensures HistoryInv(Next(s, Return(w)))
  {
    if !s.queue.closed {
      CallbackShape(s.queue, s.workers[w].id);
      ReturnConserves(s.queue, s.workers[w].id, s.accepted, s.delivered);
    }
    hide QueueInv, Conserved;
  }

  lemma ReturnStep(s: Sys, w: nat)
    requires Inv(s) && Enabled(s, Return(w))
    ensures Inv(Next(s, Return(w)))
  {
    var t := Next(s, Return(w));
    var id := s.workers[w].id;
    hide QueueInv, InFlight, BusyInv, LifeInv, WakeInv, HistoryInv;
    CallbackKeeps(s.queue, id);
    CountUpdate(s.workers, w, t.workers[w]);
    BusyUpdate(s.workers, s.queue.width, w, t.workers[w]);
    ReturnHistory(s, w);
    if s.queue.closed {
      StaysUp(s, t, w);
    } else {
      CallbackShape(s.queue, id);
      hide AfterCallback;
      StaysUp(s, t, w);
      InFlightStop(s.workers, s.queue.backup.Keys, w, t.workers[w]);
    }
  }

  lemma BroadcastStep(s: Sys)
    requires Inv(s) && Enabled(s, Broadcast)
    ensures Inv(Next(s, Broadcast))
  {
    hide QueueInv, Conserved, InFlight, AllFor;
    CountSame(s.workers, WakeAll(s.workers));
  }

  lemma CloseStep(s: Sys)
    requires Inv(s)
    ensures Inv(Next(s, Close))
  {
    hide Conserved, InFlight, AllFor;
  }

  lemma AddStep(s: Sys, op: Op)
    requires Inv(s) && Enabled(s, Step.Add(op))
    ensures Inv(Next(s, Step.Add(op)))
  {
    hide QueueInv, Conserved, InFlight, AllFor;
  }

  lemma StepKeepsInv(s: Sys, step: Step)
    requires Inv(s) && Enabled(s, step)
    ensures Inv(Next(s, step))
  {
    hide Inv, Next, Enabled;
    match step
    case Add(op) => AddStep(s, op);
    case Enqueue(op, sleeper) => EnqueueStep(s, op, sleeper);
    case Acquire(w) => AcquireStep(s, w);
    case Finish(w, outcome) => FinishStep(s, w, outcome);
    case Return(w) => ReturnStep(s, w);
    case Close => CloseStep(s);
    case Broadcast => BroadcastStep(s);
  }

  lemma InitInv(depth: int, width: int, workers: nat)
    ensures Inv(Init(depth, width, workers))
  {
    var s := Init(depth, width, workers);
    CountNone(s.workers);
    assert forall id :: For([], id) == [] && Held(s.queue, id) == [];
  }

  /** Every reachable state satisfies the invariant. */
  lemma {:induction false} RunKeepsInv(s: Sys, steps: seq<Step>)
    requires Inv(s) && IsRun(s, steps)
    ensures Inv(RunFrom(s, steps))
    decreases |steps|
  {
    if steps != [] {
      StepKeepsInv(s, steps[0]);
      RunKeepsInv(Next(s, steps[0]), steps[1..]);
    }
  }
}
