/** Which operations the queue accepts, in terms of what a caller sees: what was accepted and
    not yet delivered for an ID, the callbacks that run, and the list of IDs. */
module QueueAdmission {
  import opened DedupeQueues
  import opened InflightSystem
  import opened InflightTheorems

  /** The ID is queued, or a callback runs for it. */
  ghost predicate Known(s: Sys, id: Id) {
    id in s.queue.order || exists w :: IsRunning(s.workers, w, id)
  }

  /** How many operations for the ID were accepted and not yet delivered. */
  function Pending(s: Sys, id: Id): int {
    |For(s.accepted, id)| - |For(s.delivered, id)|
  }

  /** What an `Enqueue` should answer. */
  ghost function ProperAnswer(s: Sys, id: Id): Answer {
    if s.queue.closed then QueueClosed
    else if Known(s, id) then
      if Pending(s, id) < s.queue.width then Accepted(false) else SaturatedWidth
    else
      if |s.queue.order| < s.queue.depth then Accepted(true) else SaturatedDepth
  }

  lemma KnownIsHeld(s: Sys, id: Id)
    requires Inv(s) && !s.queue.closed
    ensures Known(s, id) <==> id in s.queue.entries || id in s.queue.backup
    ensures Pending(s, id) == |Held(s.queue, id)|
  {
    hide For, Held, BusyInv, Distinct, AllFor;
    assert For(s.accepted, id) == For(s.delivered, id) + Held(s.queue, id);
  }

  lemma AnswersProperly(s: Sys, op: Op, sleeper: nat)
    requires Inv(s) && Enabled(s, Enqueue(op, sleeper))
    ensures var t := Next(s, Enqueue(op, sleeper));
            var answer := ProperAnswer(s, op.id);
            && t.answers == s.answers + [answer]
            && t.accepted == (if answer.Accepted? then s.accepted + [op] else s.accepted)
            && t.queue.order == (if answer == Accepted(true) then s.queue.order + [op.id] else s.queue.order)
            && (!answer.Accepted? ==> t.queue == s.queue && t.workers == s.workers)
  {
    if !s.queue.closed {
      KnownIsHeld(s, op.id);
    }
    hide Known, Pending, For, Inv, Wake;
  }

  /** In every reachable state an `Enqueue` is answered, and changes the queue, like this: on a
      closed queue it is refused.  For an ID that is queued or in flight it is accepted exactly
      if fewer than `width` operations are held for the ID, and refused for width otherwise.
      For any other ID it is accepted, and the ID listed, exactly if fewer than `depth` IDs are
      listed, and refused for depth otherwise. */
  lemma AdmissionExactly(s: Sys, op: Op, sleeper: nat)
    requires Reachable(s) && Enabled(s, Enqueue(op, sleeper))
    ensures var t := Next(s, Enqueue(op, sleeper));
            var known := op.id in s.queue.order || exists w :: IsRunning(s.workers, w, op.id);
            var pending := |For(s.accepted, op.id)| - |For(s.delivered, op.id)|;
            && |t.answers| == |s.answers| + 1
            && var answer := t.answers[|s.answers|];
            && (answer == QueueClosed <==> s.queue.closed)
            && (answer == Accepted(false) <==> !s.queue.closed && known && pending < s.queue.width)
            && (answer == SaturatedWidth <==> !s.queue.closed && known && pending >= s.queue.width)
            && (answer == Accepted(true) <==> !s.queue.closed && !known && |s.queue.order| < s.queue.depth)
            && (answer == SaturatedDepth <==> !s.queue.closed && !known && |s.queue.order| >= s.queue.depth)
            && t.accepted == (if answer.Accepted? then s.accepted + [op] else s.accepted)
            && t.queue.order == (if answer == Accepted(true) then s.queue.order + [op.id] else s.queue.order)
            && (!answer.Accepted? ==> t.queue == s.queue)
  {
    ReachableInv(s);
    AnswersProperly(s, op, sleeper);
    hide Inv, Reachable, Enabled, Next, For;
  }

  // ----- Runs of enqueues

  ghost predicate Enqueues(steps: seq<Step>) {
    forall i :: 0 <= i < |steps| ==> steps[i].Enqueue?
  }

  function OpsOf(steps: seq<Step>): (r: seq<Op>)
    requires forall i :: 0 <= i < |steps| ==> steps[i].Enqueue?
    ensures |r| == |steps|
    ensures forall i :: 0 <= i < |steps| ==> r[i] == steps[i].op
  {
    seq(|steps|, i requires 0 <= i < |steps| => steps[i].op)
  }

  /** The first `free` of `n` requests get one answer, the others another. */
  function Answers(n: nat, free: nat, accept: Answer, refuse: Answer): seq<Answer> {
    seq(n, i => if i < free then accept else refuse)
  }

  function Least(a: nat, b: nat): nat {
    if a < b then a else b
  }

  /** Of the operations enqueued from `s` to `t` the first `free` were accepted, with the one
      answer, and the others were refused, with the other. */
  ghost predicate TakesFirst(s: Sys, t: Sys, steps: seq<Step>, free: nat, accept: Answer, refuse: Answer)
    requires Enqueues(steps)
  {
    && t.answers == s.answers + Answers(|steps|, free, accept, refuse)
    && t.accepted == s.accepted + OpsOf(steps)[..Least(free, |steps|)]
  }

  lemma AnswersFront(n: nat, free: nat, accept: Answer, refuse: Answer)
    requires n > 0
    ensures Answers(n, free, accept, refuse)
         == [if free > 0 then accept else refuse] + Answers(n - 1, if free > 0 then free - 1 else 0, accept, refuse)
  {
  }

  lemma OpsFront(steps: seq<Step>, m: nat)
    requires Enqueues(steps) && steps != [] && m <= |steps[1..]|
    ensures Enqueues(steps[1..])
    ensures OpsOf(steps)[..m + 1] == [steps[0].op] + OpsOf(steps[1..])[..m]
    ensures OpsOf(steps)[..0] == []
  {
  }

  lemma TakesNothing(s: Sys, free: nat, accept: Answer, refuse: Answer)
    ensures TakesFirst(s, s, [], free, accept, refuse)
  {
    assert s.answers + Answers(0, free, accept, refuse) == s.answers;
    assert s.accepted + OpsOf([])[..0] == s.accepted;
  }

  /** One operation more in front. */
  lemma TakesOneMore(s: Sys, t: Sys, end: Sys, steps: seq<Step>, free: nat, accept: Answer, refuse: Answer)
    requires Enqueues(steps) && steps != [] && Enqueues(steps[1..])
    requires t.answers == s.answers + [if free > 0 then accept else refuse]
    requires t.accepted == s.accepted + (if free > 0 then [steps[0].op] else [])
    requires TakesFirst(t, end, steps[1..], if free > 0 then free - 1 else 0, accept, refuse)
    ensures TakesFirst(s, end, steps, free, accept, refuse)
  {
    hide Answers, OpsOf;
    AnswersFront(|steps|, free, accept, refuse);
    OpsFront(steps, if free > 0 then Least(free - 1, |steps| - 1) else 0);
  }

  lemma StaysKnown(s: Sys, op: Op, sleeper: nat, id: Id)
    requires Enabled(s, Enqueue(op, sleeper)) && Known(s, id)
    requires s.queue.order <= Next(s, Enqueue(op, sleeper)).queue.order
    ensures Known(Next(s, Enqueue(op, sleeper)), id)
  {
    hide AfterEnqueue, AnswerTo;
    var t := Next(s, Enqueue(op, sleeper));
    if id in s.queue.order {
      var i :| 0 <= i < |s.queue.order| && s.queue.order[i] == id;
      assert t.queue.order[i] == id;
    } else {
      var w :| IsRunning(s.workers, w, id);
      assert IsRunning(t.workers, w, id);
    }
  }

  lemma OneMorePending(s: Sys, t: Sys, op: Op, id: Id)
    requires t.accepted == s.accepted + [op] && t.delivered == s.delivered
    ensures Pending(t, id) == Pending(s, id) + if op.id == id then 1 else 0
  {
    ForOneMore(s.accepted, op, id);
  }

  /** Operations for one ID that is queued or in flight, enqueued one after the other: exactly
      as many are accepted as there is room for within the width, and the others refused. */
  lemma {:induction false} KnownIdTakesWidth(s: Sys, steps: seq<Step>, id: Id)
    requires Inv(s) && !s.queue.closed && Known(s, id)
    requires IsRun(s, steps) && Enqueues(steps) && forall i :: 0 <= i < |steps| ==> steps[i].op.id == id
    ensures TakesFirst(s, RunFrom(s, steps), steps, Max(0, s.queue.width - Pending(s, id)), Accepted(false), SaturatedWidth)
    decreases |steps|
  {
    hide Inv, Enabled, Next, Known, Pending, TakesFirst;
    var free := Max(0, s.queue.width - Pending(s, id));
    if steps == [] {
      TakesNothing(s, free, Accepted(false), SaturatedWidth);
    } else {
      var t := Next(s, steps[0]);
      KnownStep(s, steps[0].op, steps[0].sleeper);
      StepKeepsInv(s, steps[0]);
      KnownIdTakesWidth(t, steps[1..], id);
      TakesOneMore(s, t, RunFrom(s, steps), steps, free, Accepted(false), SaturatedWidth);
    }
  }

  lemma KnownStep(s: Sys, op: Op, sleeper: nat)
    requires Inv(s) && !s.queue.closed && Known(s, op.id) && Enabled(s, Enqueue(op, sleeper))
    ensures var t := Next(s, Enqueue(op, sleeper));
            && !t.queue.closed && t.queue.width == s.queue.width && Known(t, op.id)
            && Pending(t, op.id) == Pending(s, op.id) + (if Pending(s, op.id) < s.queue.width then 1 else 0)
            && t.answers == s.answers + [if Pending(s, op.id) < s.queue.width then Accepted(false) else SaturatedWidth]
            && t.accepted == s.accepted + (if Pending(s, op.id) < s.queue.width then [op] else [])
  {
    AnswersProperly(s, op, sleeper);
    EnqueueShape(s.queue, op);
    StaysKnown(s, op, sleeper, op.id);
    var t := Next(s, Enqueue(op, sleeper));
    hide Inv, Known, AfterEnqueue, AnswerTo;
    if Pending(s, op.id) < s.queue.width {
      OneMorePending(s, t, op, op.id);
    }
  }

  /** An ID in flight for which nothing is held takes exactly `width` operations before the first
      refusal. */
  lemma InFlightTakesWidth(s: Sys, steps: seq<Step>, w: nat, id: Id)
    requires Reachable(s) && !s.queue.closed && IsRunning(s.workers, w, id)
    requires For(s.accepted, id) == For(s.delivered, id)
    requires IsRun(s, steps) && Enqueues(steps) && forall i :: 0 <= i < |steps| ==> steps[i].op.id == id
    ensures TakesFirst(s, RunFrom(s, steps), steps, Max(0, s.queue.width), Accepted(false), SaturatedWidth)
  {
    hide *;
    NothingPending(s, w, id);
    KnownIdTakesWidth(s, steps, id);
  }

  lemma NothingPending(s: Sys, w: nat, id: Id)
    requires Reachable(s) && IsRunning(s.workers, w, id) && For(s.accepted, id) == For(s.delivered, id)
    ensures Inv(s) && Known(s, id) && Pending(s, id) == 0
  {
    ReachableInv(s);
    hide For, Inv, Reachable;
  }

  /** None of the operations' IDs is queued or in flight, and no two have the same ID. */
  ghost predicate AllNew(s: Sys, steps: seq<Step>) {
    && Enqueues(steps)
    && (forall i :: 0 <= i < |steps| ==> !Known(s, steps[i].op.id))
    && forall i, j :: 0 <= i < j < |steps| ==> steps[i].op.id != steps[j].op.id
  }

  lemma StaysUnknown(s: Sys, op: Op, sleeper: nat, id: Id)
    requires Enabled(s, Enqueue(op, sleeper)) && !Known(s, id) && id != op.id
    requires Next(s, Enqueue(op, sleeper)).queue.order <= s.queue.order + [op.id]
    ensures !Known(Next(s, Enqueue(op, sleeper)), id)
  {
    hide AfterEnqueue, AnswerTo;
    var t := Next(s, Enqueue(op, sleeper));
    assert forall w :: IsRunning(t.workers, w, id) ==> IsRunning(s.workers, w, id);
    assert id !in s.queue.order + [op.id];
  }

  lemma RestIsNew(s: Sys, steps: seq<Step>)
    requires steps != [] && AllNew(s, steps) && Enabled(s, steps[0])
    requires Next(s, steps[0]).queue.order <= s.queue.order + [steps[0].op.id]
    ensures AllNew(Next(s, steps[0]), steps[1..])
  {
    hide Known, Next, Enabled;
    forall i | 0 <= i < |steps[1..]|
      ensures !Known(Next(s, steps[0]), steps[1..][i].op.id)
    {
      assert steps[1..][i] == steps[i + 1];
      StaysUnknown(s, steps[0].op, steps[0].sleeper, steps[i + 1].op.id);
    }
  }

  /** Operations with new, different IDs, enqueued one after the other: exactly as many are
      accepted as the list has room for within the depth, and the others refused. */
  lemma {:induction false} NewIdsTakeDepth(s: Sys, steps: seq<Step>)
    requires Inv(s) && !s.queue.closed && IsRun(s, steps) && AllNew(s, steps)
    ensures TakesFirst(s, RunFrom(s, steps), steps, Max(0, s.queue.depth - |s.queue.order|), Accepted(true), SaturatedDepth)
    decreases |steps|
  {
    hide Inv, Enabled, Next, Known, TakesFirst;
    var free := Max(0, s.queue.depth - |s.queue.order|);
    if steps == [] {
      TakesNothing(s, free, Accepted(true), SaturatedDepth);
    } else {
      var t := Next(s, steps[0]);
      NewIdStep(s, steps[0].op, steps[0].sleeper);
      StepKeepsInv(s, steps[0]);
      RestIsNew(s, steps);
      hide AllNew;
      NewIdsTakeDepth(t, steps[1..]);
      TakesOneMore(s, t, RunFrom(s, steps), steps, free, Accepted(true), SaturatedDepth);
    }
  }

  lemma NewIdStep(s: Sys, op: Op, sleeper: nat)
    requires Inv(s) && !s.queue.closed && !Known(s, op.id) && Enabled(s, Enqueue(op, sleeper))
    ensures var t := Next(s, Enqueue(op, sleeper));
            && !t.queue.closed && t.queue.depth == s.queue.depth
            && t.answers == s.answers + [if |s.queue.order| < s.queue.depth then Accepted(true) else SaturatedDepth]
            && t.accepted == s.accepted + (if |s.queue.order| < s.queue.depth then [op] else [])
            && t.queue.order == s.queue.order + (if |s.queue.order| < s.queue.depth then [op.id] else [])
  {
    AnswersProperly(s, op, sleeper);
    EnqueueShape(s.queue, op);
    hide Inv, Known, AfterEnqueue, AnswerTo;
    assert s.accepted + [] == s.accepted && s.queue.order + [] == s.queue.order;
  }

  /** A queue with an empty list takes exactly `depth` operations with new, different IDs. */
  lemma EmptyListTakesDepth(s: Sys, steps: seq<Step>)
    requires Reachable(s) && !s.queue.closed && s.queue.order == [] && IsRun(s, steps) && AllNew(s, steps)
    ensures TakesFirst(s, RunFrom(s, steps), steps, Max(0, s.queue.depth), Accepted(true), SaturatedDepth)
  {
    hide *;
    ReachableInv(s);
    AllNewEnqueues(s, steps);
    NewIdsTakeDepth(s, steps);
  }

  lemma AllNewEnqueues(s: Sys, steps: seq<Step>)
    requires AllNew(s, steps)
    ensures Enqueues(steps)
  {
  }
}
