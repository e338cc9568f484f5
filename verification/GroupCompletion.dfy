/** What a completed call group says about its operations.  The group keeps its books by ID:
    two operations added under one ID share one entry. */
module GroupCompletion {
  import opened Wrappers
  import opened DedupeQueues
  import opened CallGroups
  import opened InflightSystem
  import opened InflightTheorems
  import opened GroupTheorems

  /** The operations added to the group are those of the list. */
  ghost predicate AddedAre(s: Sys, g: nat, ops: seq<Op>) {
    forall op :: op in s.added && op.group == Some(g) <==> op in ops
  }

  ghost predicate DistinctIds(ops: seq<Op>) {
    forall a, b :: a in ops && b in ops && a.id == b.id ==> a == b
  }

  /** Whatever happens, once the group has completed all its operations have finished. */
  ghost predicate CompletionCoversAll(g: nat, ops: seq<Op>) {
    forall s: Sys :: Reachable(s) && g !in s.late && AddedAre(s, g, ops) && GroupOf(s, g).completions != [] ==>
      forall op :: op in ops ==> op in s.finished
  }

  // ----- Distinct IDs are enough

  lemma FinishedIsAdded(s: Sys, g: nat, id: Id) returns (op: Op)
    requires FullInv(s) && id in IdsOf(s.finished, g)
    ensures op in s.finished && op in s.added && op.group == Some(g) && op.id == id
  {
    var i :| 0 <= i < |s.finished| && s.finished[i].group == Some(g) && s.finished[i].id == id;
    op := s.finished[i];
    FinishedWasAdded(s, op, g);
  }

  lemma CompletedMeansFinished(s: Sys, g: nat, ops: seq<Op>, op: Op)
    requires Reachable(s) && g !in s.late && AddedAre(s, g, ops) && GroupOf(s, g).completions != []
    requires DistinctIds(ops) && op in ops
    ensures op in s.finished
  {
    ReachableFullInv(s);
    CompletionExactly(s, g);
    MemberOfIds(s.added, op, g);
    hide FullInv, Reachable, IdsOf, GroupOf;
    var other := FinishedIsAdded(s, g, op.id);
  }

  // ----- A run that serves all operations but one

  lemma {:induction false} OneMoreStep(s: Sys, steps: seq<Step>, step: Step)
    requires IsRun(s, steps) && Enabled(RunFrom(s, steps), step)
    ensures IsRun(s, steps + [step]) && RunFrom(s, steps + [step]) == Next(RunFrom(s, steps), step)
    decreases |steps|
  {
    hide Enabled, Next;
    var all := steps + [step];
    if steps == [] {
      assert all == [step] && all[1..] == [];
    } else {
      assert all[1..] == steps[1..] + [step];
      OneMoreStep(Next(s, steps[0]), steps[1..], step);
    }
  }

  lemma ReachesNext(s: Sys, step: Step)
    requires Reachable(s) && Enabled(s, step)
    ensures Reachable(Next(s, step))
  {
    hide Enabled, Next, IsRun, RunFrom, Init;
    var depth: int, width: int, workers: nat, steps: seq<Step> :|
      IsRun(Init(depth, width, workers), steps) && RunFrom(Init(depth, width, workers), steps) == s;
    OneMoreStep(Init(depth, width, workers), steps, step);
  }

  /** One worker, about to take the lock of an empty queue. */
  ghost predicate Idling(s: Sys) {
    s.queue == NewQueue(1, 1) && s.workers == [Calling]
  }

  lemma {:induction false} AddAll(ops: seq<Op>) returns (s: Sys)
    requires forall op :: op in ops ==> op.group.Some?
    ensures Reachable(s) && Idling(s) && s.added == ops && s.finished == [] && s.late == {}
    decreases |ops|
  {
    if ops == [] {
      s := Init(1, 1, 1);
      var steps: seq<Step> := [];
      assert IsRun(Init(1, 1, 1), steps) && RunFrom(Init(1, 1, 1), steps) == s;
    } else {
      var k := |ops| - 1;
      var before := AddAll(ops[..k]);
      ReachesNext(before, Add(ops[k]));
      s := Next(before, Add(ops[k]));
      assert ops == ops[..k] + [ops[k]];
      hide Reachable;
    }
  }

  /** The worker is in its callback with one operation. */
  ghost predicate Serving(s: Sys, op: Op) {
    s.queue == Queue(1, 1, [], map[], map[op.id := []], false) && s.workers == [Running(op.id, [op], 0)]
  }

  lemma StartServing(s: Sys, op: Op) returns (t: Sys)
    requires Reachable(s) && Idling(s) && op in s.added
    ensures Reachable(t) && Serving(t, op) && t.added == s.added && t.late == s.late && t.finished == s.finished
  {
    hide Reachable;
    var u := Next(s, Enqueue(op, 0));
    ReachesNext(s, Enqueue(op, 0));
    assert u.queue == Queue(1, 1, [op.id], map[op.id := [op]], map[], false) && u.workers == [Calling];
    t := Next(u, Acquire(0));
    ReachesNext(u, Acquire(0));
    assert t.queue == Queue(1, 1, [], map[], map[op.id := []], false);
  }

  lemma EndServing(s: Sys, op: Op) returns (t: Sys)
    requires Reachable(s) && Serving(s, op)
    ensures Reachable(t) && Idling(t) && t.added == s.added && t.late == s.late && t.finished == s.finished + [op]
  {
    hide Reachable;
    var u := Next(s, Step.Finish(0, Success(0)));
    ReachesNext(s, Step.Finish(0, Success(0)));
    assert u.queue == s.queue && u.workers == [Running(op.id, [op], 1)];
    t := Next(u, Return(0));
    ReachesNext(u, Return(0));
    assert t.queue == NewQueue(1, 1);
  }

  /** Enqueue, dequeue, finish, return: the queue is empty again. */
  lemma Serve(s: Sys, op: Op) returns (t: Sys)
    requires Reachable(s) && Idling(s) && op in s.added
    ensures Reachable(t) && Idling(t) && t.added == s.added && t.late == s.late && t.finished == s.finished + [op]
  {
    hide *;
    var u := StartServing(s, op);
    t := EndServing(u, op);
  }

  lemma {:induction false} ServeAllBut(s: Sys, ops: seq<Op>, left: Op) returns (t: Sys)
    requires Reachable(s) && Idling(s) && left !in s.finished
    requires forall op :: op in ops ==> op in s.added && op.group.Some?
    ensures Reachable(t) && t.added == s.added && t.late == s.late
    ensures forall op :: op in t.finished <==> op in s.finished || (op in ops && op != left)
    decreases |ops|
  {
    hide Reachable, Idling;
    if ops == [] {
      t := s;
    } else {
      assert ops == [ops[0]] + ops[1..];
      if ops[0] == left {
        t := ServeAllBut(s, ops[1..], left);
      } else {
        var u := Serve(s, ops[0]);
        t := ServeAllBut(u, ops[1..], left);
      }
    }
  }

  /** A run in which the group completes while an operation with another's ID is unfinished. */
  lemma UnfinishedRun(g: nat, ops: seq<Op>, kept: Op, left: Op) returns (s: Sys)
    requires forall op :: op in ops ==> op.group == Some(g)
    requires kept in ops && left in ops && kept != left && kept.id == left.id
    ensures Reachable(s) && g !in s.late && AddedAre(s, g, ops) && GroupOf(s, g).completions != [] && left !in s.finished
  {
    var start := AddAll(ops);
    s := ServeAllBut(start, ops, left);
    hide Reachable, GroupOf;
    forall id
      ensures id in IdsOf(s.added, g) <==> id in IdsOf(s.finished, g)
    {
      if id in IdsOf(s.added, g) {
        var i :| 0 <= i < |s.added| && s.added[i].group == Some(g) && s.added[i].id == id;
        MemberOfIds(s.finished, if s.added[i] == left then kept else s.added[i], g);
      }
      if id in IdsOf(s.finished, g) {
        var i :| 0 <= i < |s.finished| && s.finished[i].group == Some(g) && s.finished[i].id == id;
        MemberOfIds(s.added, s.finished[i], g);
      }
    }
    MemberOfIds(s.added, left, g);
    CompletionExactly(s, g);
  }

  /** "Once the group has completed, every operation added to it has finished" holds, over all
      runs whose Adds precede the group's first Finish, exactly if the operations have
      different IDs. */
  lemma CompletionCoversAllExactly(g: nat, ops: seq<Op>)
    requires forall op :: op in ops ==> op.group == Some(g)
    ensures CompletionCoversAll(g, ops) <==> DistinctIds(ops)
  {
    hide Reachable, GroupOf, AddedAre;
    if DistinctIds(ops) {
      forall s: Sys, op | Reachable(s) && g !in s.late && AddedAre(s, g, ops) && GroupOf(s, g).completions != [] && op in ops
        ensures op in s.finished
      {
        CompletedMeansFinished(s, g, ops, op);
      }
    } else {
      var a, b :| a in ops && b in ops && a.id == b.id && a != b;
      var s := UnfinishedRun(g, ops, a, b);
    }
  }
}
