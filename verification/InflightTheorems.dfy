/** What the dedupe queue, its workers and the call groups guarantee over whole runs. */
module InflightTheorems {
  import opened DedupeQueues
  import opened CallGroups
  import opened InflightSystem

  /** `s` can be reached from a new queue. */
  ghost predicate Reachable(s: Sys) {
    exists depth: int, width: int, workers: nat, steps: seq<Step> ::
      IsRun(Init(depth, width, workers), steps) && RunFrom(Init(depth, width, workers), steps) == s
  }

  lemma ReachableInv(s: Sys)
    requires Reachable(s)
    ensures Inv(s)
  {
    hide Inv, IsRun, RunFrom;
    var depth: int, width: int, workers: nat, steps: seq<Step> :|
      IsRun(Init(depth, width, workers), steps) && RunFrom(Init(depth, width, workers), steps) == s;
    InitInv(depth, width, workers);
    RunKeepsInv(Init(depth, width, workers), steps);
  }

  // ----- Safety

  /** Nothing is lost, duplicated or reordered: in every reachable state of an open queue the
      operations delivered for an ID, followed by those held for it, are exactly the operations
      accepted for it, in the order of acceptance. */
  lemma EveryRunConserves(s: Sys, id: Id)
    requires Reachable(s) && !s.queue.closed
    ensures For(s.accepted, id) == For(s.delivered, id) + Held(s.queue, id)
  {
    ReachableInv(s);
  }

  /** In every reachable state: the list has no duplicates and is exactly the keys of `entries`;
      `entries` and `backup` are disjoint; no two callbacks run for one ID; and neither the panic
      in `dequeue` nor a missing backup set after a callback can happen. */
  lemma EveryRunKeepsStructure(s: Sys)
    requires Reachable(s) && !s.queue.closed
    ensures Distinct(s.queue.order)
    ensures forall id :: id in s.queue.order <==> id in s.queue.entries
    ensures forall id :: id in s.queue.entries ==> id !in s.queue.backup
    ensures forall id :: id in s.queue.backup <==> exists w :: IsRunning(s.workers, w, id)
    ensures forall v, w, id :: IsRunning(s.workers, v, id) && IsRunning(s.workers, w, id) ==> v == w
    ensures s.queue.order != [] ==> s.queue.order[0] in s.queue.entries
    ensures forall w, id :: IsRunning(s.workers, w, id) ==> id in s.queue.backup
  {
    ReachableInv(s);
    assert s.queue.order != [] ==> s.queue.order[0] in s.queue.order;
  }

  /** Queue length plus callbacks in flight never exceeds the depth plus the number of workers,
      and no set grows beyond the width (or one). */
  lemma EveryRunIsBounded(s: Sys)
    requires Reachable(s) && !s.queue.closed
    ensures |s.queue.order| + |s.queue.backup| <= Max(0, s.queue.depth) + |s.workers|
    ensures forall id :: |Held(s.queue, id)| <= Max(1, s.queue.width)
    ensures forall w :: 0 <= w < |s.workers| && s.workers[w].Running? ==> |s.workers[w].ops| <= Max(1, s.queue.width)
  {
    ReachableInv(s);
    hide For, Conserved, AllFor;
    assert |s.queue.backup| == |s.queue.backup.Keys|;
  }

  /** No lost wakeup: as long as there is a worker, an open queue never has something to take
      while everybody sleeps. */
  lemma NoLostWakeup(s: Sys)
    requires Reachable(s) && !s.queue.closed && s.queue.order != [] && |s.workers| > 0
    ensures exists w :: 0 <= w < |s.workers| && s.workers[w] != Asleep
    ensures exists w :: 0 <= w < |s.workers| && (s.workers[w] == Calling || s.workers[w] == Woken || s.workers[w].Running?)
  {
    ReachableInv(s);
    hide For, Conserved, AllFor, QueueInv, InFlight;
    var w :| 0 <= w < |s.workers| && s.workers[w] != Asleep;
    assert s.workers[w] == Calling || s.workers[w] == Woken || s.workers[w].Running?;
  }

  // ----- First in, first out

  /** The IDs taken from the front, and the IDs put at the back, in a run. */
  ghost function TakenIn(s: Sys, steps: seq<Step>): seq<Id>
    requires IsRun(s, steps)
    decreases |steps|
  {
    if steps == [] then []
    else
      (if steps[0].Acquire? && CanTake(s.queue) then [TakenId(s.queue)] else []) + TakenIn(Next(s, steps[0]), steps[1..])
  }

  ghost predicate NoClose(steps: seq<Step>) {
    forall i :: 0 <= i < |steps| ==> steps[i] != Close
  }

  lemma StepOrder(s: Sys, step: Step)
    requires Inv(s) && !s.queue.closed && Enabled(s, step) && step != Close
    ensures !Next(s, step).queue.closed
    ensures var taken := if step.Acquire? && CanTake(s.queue) then [TakenId(s.queue)] else [];
            s.queue.order <= taken + Next(s, step).queue.order
  {
    hide QueueInv, InFlight, BusyInv, LifeInv, WakeInv, HistoryInv, BoundInv, AfterTake, AfterEnqueue,
         AfterCallback, AnswerTo;
    match step
    case Enqueue(op, sleeper) =>
      EnqueueShape(s.queue, op);
    case Acquire(w) =>
      if CanTake(s.queue) {
        TakeShape(s.queue);
        assert s.queue.order == [TakenId(s.queue)] + s.queue.order[1..];
      }
    case Return(w) =>
      CallbackShape(s.queue, s.workers[w].id);
    case _ =>
  }

  lemma PrefixCompose(a: seq<Id>, first: seq<Id>, b: seq<Id>, taken: seq<Id>, c: seq<Id>)
    requires a <= first + b && b <= taken + c
    ensures a <= (first + taken) + c
  {
    assert (first + taken) + c == first + (taken + c);
    assert first + (taken + c) == first + b + (taken + c)[|b|..];
  }

  /** Whatever is enqueued, re-queued or taken meanwhile, the IDs in the list are taken first,
      in the order of the list. */
  lemma {:induction false} FirstInFirstOut(s: Sys, steps: seq<Step>)
    requires Inv(s) && !s.queue.closed && IsRun(s, steps) && NoClose(steps)
    ensures s.queue.order <= TakenIn(s, steps) + RunFrom(s, steps).queue.order
    decreases |steps|
  {
    hide Inv, Enabled, Next, CanTake, TakenId;
    if steps != [] {
      var t := Next(s, steps[0]);
      StepOrder(s, steps[0]);
      StepKeepsInv(s, steps[0]);
      FirstInFirstOut(t, steps[1..]);
      var first := if steps[0].Acquire? && CanTake(s.queue) then [TakenId(s.queue)] else [];
      PrefixCompose(s.queue.order, first, t.queue.order, TakenIn(t, steps[1..]), RunFrom(t, steps[1..]).queue.order);
    }
  }

  lemma PrefixPosition(a: seq<Id>, taken: seq<Id>, c: seq<Id>, p: nat)
    requires a <= taken + c && p < |a|
    ensures if |taken| <= p then p - |taken| < |c| && c[p - |taken|] == a[p] else taken[p] == a[p]
  {
    assert a[p] == (taken + c)[p];
  }

  /** An ID at position `p` of the list is taken after exactly `p` other dequeues. */
  lemma TakenAfterItsPosition(s: Sys, steps: seq<Step>, p: nat)
    requires Reachable(s) && !s.queue.closed && IsRun(s, steps) && NoClose(steps)
    requires p < |s.queue.order|
    ensures var taken := TakenIn(s, steps);
            if |taken| <= p then p - |taken| < |RunFrom(s, steps).queue.order| && RunFrom(s, steps).queue.order[p - |taken|] == s.queue.order[p]
            else taken[p] == s.queue.order[p]
  {
    hide Inv, Reachable, IsRun, RunFrom, TakenIn, NoClose;
    ReachableInv(s);
    FirstInFirstOut(s, steps);
    PrefixPosition(s.queue.order, TakenIn(s, steps), RunFrom(s, steps).queue.order, p);
  }

  // ----- Closing

  lemma ClosedStep(s: Sys, step: Step)
    requires Inv(s) && s.queue.closed && Enabled(s, step)
    ensures Next(s, step).queue.closed && Next(s, step).delivered == s.delivered
    ensures s.alerted ==> Next(s, step).alerted
    ensures s.alerted && (step.Acquire? || step.Return?) ==> Next(s, step).workers[step.worker] == Returned
  {
    hide Conserved, AllFor, InFlight;
  }

  /** After `Close` nothing more is taken from the queue; once the broadcast is out nobody
      sleeps, and the next time a worker gets the lock its `Dequeue` returns false. */
  lemma {:induction false} ClosedForGood(s: Sys, steps: seq<Step>)
    requires Inv(s) && s.queue.closed && IsRun(s, steps)
    ensures var t := RunFrom(s, steps);
            && t.queue.closed && t.delivered == s.delivered
            && (s.alerted ==> t.alerted && forall w :: 0 <= w < |t.workers| ==> t.workers[w] != Asleep)
    ensures forall step :: Enabled(RunFrom(s, steps), step) && (step.Acquire? || step.Return?)
              ==> Next(RunFrom(s, steps), step).workers[step.worker] == Returned
    decreases |steps|
  {
    if steps == [] {
      hide Conserved, AllFor, InFlight, QueueInv;
    } else {
      ClosedStep(s, steps[0]);
      StepKeepsInv(s, steps[0]);
      hide Inv, Enabled, Next;
      ClosedForGood(Next(s, steps[0]), steps[1..]);
    }
  }

  // ----- Draining

  predicate IsWork(step: Step) {
    step.Acquire? || step.Finish? || step.Return?
  }

  function WorkerWeight(r: Worker, backup: map<Id, seq<Op>>): nat {
    match r
    case Calling => 1
    case Woken => 1
    case Running(id, ops, finished) =>
      2 + (if finished <= |ops| then |ops| - finished else 0)
        + (if id in backup && backup[id] != [] then 4 + |backup[id]| else 0)
    case _ => 0
  }

  function WorkersWeight(workers: seq<Worker>, backup: map<Id, seq<Op>>): nat {
    if workers == [] then 0 else WorkerWeight(workers[0], backup) + WorkersWeight(workers[1..], backup)
  }

  function OrderWeight(order: seq<Id>, entries: map<Id, seq<Op>>): nat {
    if order == [] then 0
    else (if order[0] in entries then 4 + |entries[order[0]]| else 0) + OrderWeight(order[1..], entries)
  }

  /** How much work is left if nothing more is enqueued. */
  function Remaining(s: Sys): nat {
    OrderWeight(s.queue.order, s.queue.entries) + WorkersWeight(s.workers, s.queue.backup)
  }

  lemma {:induction false} WeightUpdate(workers: seq<Worker>, w: nat, r: Worker, backup: map<Id, seq<Op>>)
    requires w < |workers|
    ensures WorkersWeight(workers[w := r], backup) + WorkerWeight(workers[w], backup)
         == WorkersWeight(workers, backup) + WorkerWeight(r, backup)
    decreases |workers|
  {
    var u := workers[w := r];
    if w == 0 {
      assert u[1..] == workers[1..];
    } else {
      assert u[1..] == workers[1..][w - 1 := r];
      WeightUpdate(workers[1..], w - 1, r, backup);
    }
  }

  lemma {:induction false} WeightSame(workers: seq<Worker>, a: map<Id, seq<Op>>, b: map<Id, seq<Op>>)
    requires forall w :: 0 <= w < |workers| ==> WorkerWeight(workers[w], a) == WorkerWeight(workers[w], b)
    ensures WorkersWeight(workers, a) == WorkersWeight(workers, b)
    decreases |workers|
  {
    if workers != [] {
      forall w | 0 <= w < |workers[1..]|
        ensures WorkerWeight(workers[1..][w], a) == WorkerWeight(workers[1..][w], b)
      {
        assert workers[1..][w] == workers[w + 1];
      }
      WeightSame(workers[1..], a, b);
    }
  }

  lemma {:induction false} OrderWeightSame(order: seq<Id>, a: map<Id, seq<Op>>, b: map<Id, seq<Op>>)
    requires forall i :: 0 <= i < |order| ==> (order[i] in a <==> order[i] in b) && (order[i] in a ==> |a[order[i]]| == |b[order[i]]|)
    ensures OrderWeight(order, a) == OrderWeight(order, b)
    decreases |order|
  {
    if order != [] {
      forall i | 0 <= i < |order[1..]|
        ensures (order[1..][i] in a <==> order[1..][i] in b) && (order[1..][i] in a ==> |a[order[1..][i]]| == |b[order[1..][i]]|)
      {
        assert order[1..][i] == order[i + 1];
      }
      OrderWeightSame(order[1..], a, b);
    }
  }

  lemma {:induction false} OrderWeightAppend(order: seq<Id>, id: Id, entries: map<Id, seq<Op>>)
    ensures OrderWeight(order + [id], entries) == OrderWeight(order, entries) + if id in entries then 4 + |entries[id]| else 0
    decreases |order|
  {
    if order == [] {
      assert order + [id] == [id];
      assert [id][1..] == [];
    } else {
      assert (order + [id])[1..] == order[1..] + [id];
      OrderWeightAppend(order[1..], id, entries);
    }
  }

  lemma TakeReducesOrder(q: Queue)
    requires QueueInv(q) && CanTake(q)
    ensures OrderWeight(AfterTake(q).order, AfterTake(q).entries) + 4 + |TakenSet(q)| == OrderWeight(q.order, q.entries)
  {
    var id := TakenId(q);
    assert forall i :: 1 <= i < |q.order| ==> q.order[i] != id;
    hide QueueInv;
    OrderWeightSame(q.order[1..], q.entries, AfterTake(q).entries);
  }

  lemma TakeWorkersWeight(workers: seq<Worker>, w: nat, id: Id, ops: seq<Op>, backup: map<Id, seq<Op>>)
    requires InFlight(workers, backup.Keys) && w < |workers| && id !in backup
    requires workers[w] == Calling || workers[w] == Woken
    ensures WorkersWeight(workers[w := Running(id, ops, 0)], backup[id := []]) == WorkersWeight(workers, backup) + 1 + |ops|
  {
    assert forall v :: 0 <= v < |workers| && workers[v].Running? ==> IsRunning(workers, v, workers[v].id);
    hide InFlight, WorkersWeight;
    WeightSame(workers, backup, backup[id := []]);
    WeightUpdate(workers, w, Running(id, ops, 0), backup[id := []]);
  }

  lemma TakeReduces(s: Sys, w: nat)
    requires Inv(s) && Enabled(s, Acquire(w)) && CanTake(s.queue)
    ensures Remaining(Next(s, Acquire(w))) < Remaining(s)
  {
    assert TakenId(s.queue) !in s.queue.backup by {
      TakeKeeps(s.queue);
    }
    hide QueueInv, InFlight, BusyInv, LifeInv, WakeInv, HistoryInv, BoundInv, WorkersWeight, OrderWeight;
    TakeReducesOrder(s.queue);
    TakeWorkersWeight(s.workers, w, TakenId(s.queue), TakenSet(s.queue), s.queue.backup);
  }

  lemma ReturnReducesOrder(q: Queue, id: Id)
    requires QueueInv(q) && !q.closed && id in q.backup
    ensures OrderWeight(AfterCallback(q, id).order, AfterCallback(q, id).entries)
         == OrderWeight(q.order, q.entries) + if q.backup[id] != [] then 4 + |q.backup[id]| else 0
  {
    assert id !in q.entries && id !in q.order;
    hide QueueInv, OrderWeight;
    var t := AfterCallback(q, id);
    OrderWeightSame(q.order, q.entries, t.entries);
    OrderWeightAppend(q.order, id, t.entries);
  }

  lemma ReturnWorkersWeight(workers: seq<Worker>, w: nat, backup: map<Id, seq<Op>>)
    requires InFlight(workers, backup.Keys) && w < |workers|
    requires workers[w].Running? && workers[w].finished == |workers[w].ops| && workers[w].id in backup
    ensures var id := workers[w].id;
            var queued := if backup[id] != [] then 4 + |backup[id]| else 0;
            WorkersWeight(workers[w := Calling], backup - {id}) + 1 + queued == WorkersWeight(workers, backup)
  {
    var id := workers[w].id;
    forall v | 0 <= v < |workers| && v != w && workers[v].Running?
      ensures workers[v].id != id
    {
      assert IsRunning(workers, v, workers[v].id) && IsRunning(workers, w, id);
    }
    hide InFlight, WorkersWeight;
    WeightUpdate(workers, w, Calling, backup);
    WeightSame(workers[w := Calling], backup, backup - {id});
  }

  lemma ReturnReduces(s: Sys, w: nat)
    requires Inv(s) && !s.queue.closed && Enabled(s, Return(w))
    ensures Remaining(Next(s, Return(w))) < Remaining(s)
  {
    hide QueueInv, InFlight, BusyInv, LifeInv, WakeInv, HistoryInv, BoundInv, WorkersWeight, OrderWeight;
    ReturnReducesOrder(s.queue, s.workers[w].id);
    ReturnWorkersWeight(s.workers, w, s.queue.backup);
  }

  lemma WorkReduces(s: Sys, step: Step)
    requires Inv(s) && !s.queue.closed && IsWork(step) && Enabled(s, step)
    ensures Remaining(Next(s, step)) < Remaining(s) && !Next(s, step).queue.closed
  {
    hide QueueInv, InFlight, BusyInv, LifeInv, WakeInv, HistoryInv, BoundInv, WorkersWeight, OrderWeight,
         AfterCallback, AfterTake, AfterFinish;
    match step
    case Acquire(w) =>
      if CanTake(s.queue) {
        TakeReduces(s, w);
        TakeShape(s.queue);
      } else {
        WeightUpdate(s.workers, w, Asleep, s.queue.backup);
      }
    case Finish(w, outcome) =>
      WeightUpdate(s.workers, w, Next(s, step).workers[w], s.queue.backup);
    case Return(w) =>
      ReturnReduces(s, w);
      CallbackShape(s.queue, s.workers[w].id);
    case _ =>
  }

  /** Nothing left anywhere. */
  ghost predicate Drained(s: Sys) {
    && !s.queue.closed && s.queue.order == [] && s.queue.entries == map[] && s.queue.backup == map[]
    && forall w :: 0 <= w < |s.workers| ==> !s.workers[w].Running?
  }

  /** Once nothing more is enqueued the workers stop after boundedly many steps, and where they
      cannot go on everything has been delivered: for every ID, delivered is accepted. */
  lemma {:induction false} WorkersDrain(s: Sys, steps: seq<Step>)
    requires Inv(s) && !s.queue.closed && |s.workers| > 0
    requires IsRun(s, steps) && (forall i :: 0 <= i < |steps| ==> IsWork(steps[i]))
    ensures |steps| <= Remaining(s)
    ensures var t := RunFrom(s, steps);
            (forall step :: IsWork(step) ==> !Enabled(t, step))
            ==> Drained(t) && forall id :: For(t.accepted, id) == For(t.delivered, id)
    decreases |steps|
  {
    if steps == [] {
      if forall step :: IsWork(step) ==> !Enabled(s, step) {
        StuckIsDrained(s);
      }
    } else {
      var t := Next(s, steps[0]);
      WorkReduces(s, steps[0]);
      StepKeepsInv(s, steps[0]);
      assert |t.workers| == |s.workers|;
      hide Inv, Remaining, Enabled, Next, Drained;
      WorkersDrain(t, steps[1..]);
    }
  }

  lemma StuckIsDrained(s: Sys)
    requires Inv(s) && !s.queue.closed && |s.workers| > 0
    requires forall step :: IsWork(step) ==> !Enabled(s, step)
    ensures Drained(s) && forall id :: For(s.accepted, id) == For(s.delivered, id)
  {
    forall w | 0 <= w < |s.workers|
      ensures s.workers[w] == Asleep
    {
      assert !Enabled(s, Acquire(w));
      assert !Enabled(s, Step.Finish(w, Success(0)));
      assert !Enabled(s, Return(w));
      assert s.workers[w].Running? ==> IsRunning(s.workers, w, s.workers[w].id);
    }
    assert s.queue.order == [];
    assert forall id :: id !in s.queue.entries;
    assert forall w, id :: !IsRunning(s.workers, w, id);
    assert forall id :: id !in s.queue.backup;
    assert s.queue.entries == map[] && s.queue.backup == map[];
  }
}
