/** Call groups driven by the queue's workers: when a group's completion runs, and with what. */
module GroupTheorems {
  import opened Wrappers
  import opened DedupeQueues
  import opened CallGroups
  import opened InflightSystem
  import opened InflightTheorems

  /** The IDs of a group's operations in a history. */
  function IdsOf(ops: seq<Op>, g: nat): set<Id> {
    set i | 0 <= i < |ops| && ops[i].group == Some(g) :: ops[i].id
  }

  lemma IdsOfOneMore(ops: seq<Op>, op: Op, g: nat)
    ensures IdsOf(ops + [op], g) == IdsOf(ops, g) + if op.group == Some(g) then {op.id} else {}
  {
    var all := ops + [op];
    forall id
      ensures id in IdsOf(all, g) <==> id in IdsOf(ops, g) || (op.group == Some(g) && id == op.id)
    {
      if id in IdsOf(ops, g) {
        var i :| 0 <= i < |ops| && ops[i].group == Some(g) && ops[i].id == id;
        assert all[i] == ops[i];
      }
      if op.group == Some(g) {
        assert all[|ops|] == op;
      }
    }
  }

  lemma MemberOfIds(ops: seq<Op>, op: Op, g: nat)
    requires op in ops && op.group == Some(g)
    ensures op.id in IdsOf(ops, g)
  {
  }

  /** What the maps of one group say about the histories. */
  ghost predicate GroupInv(group: Group, added: set<Id>, finished: set<Id>, late: bool) {
    && group.final.Keys == finished && finished <= added
    && (group.once <==> |group.completions| == 1) && |group.completions| <= 1
    && (finished == {} ==> !group.once)
    && (!late ==>
          && group.outstanding.Keys == added - finished
          && (group.once <==> finished == added && added != {})
          && (group.once ==> group.completions[0].Keys == added))
  }

  /** Every delivered operation is finished, or still ahead of its callback. */
  ghost predicate Accounted(s: Sys, op: Op) {
    op in s.finished || exists w, i :: 0 <= w < |s.workers| && s.workers[w].Running? && s.workers[w].finished <= i < |s.workers[w].ops| && s.workers[w].ops[i] == op
  }

  ghost predicate AccountInv(s: Sys) {
    && (forall op :: op in s.delivered ==> Accounted(s, op))
    && (forall op :: op in s.finished ==> op in s.delivered)
    && (forall w, i :: 0 <= w < |s.workers| && s.workers[w].Running? && 0 <= i < |s.workers[w].ops| ==> s.workers[w].ops[i] in s.delivered)
  }

  ghost predicate AllGroupsInv(s: Sys) {
    forall g: nat :: GroupInv(GroupOf(s, g), IdsOf(s.added, g), IdsOf(s.finished, g), g in s.late)
  }

  ghost predicate FullInv(s: Sys) {
    Inv(s) && AccountInv(s) && AllGroupsInv(s)
  }

  // ----- One group

  lemma AddKeepsGroup(group: Group, op: Op, added: set<Id>, finished: set<Id>, late: bool)
    requires GroupInv(group, added, finished, late)
    ensures GroupInv(AfterAdd(group, op), added + {op.id}, finished, late || finished != {})
  {
    assert AfterAdd(group, op).outstanding.Keys == group.outstanding.Keys + {op.id};
  }

  lemma DoneKeepsGroup(group: Group, added: set<Id>, finished: set<Id>, late: bool)
    requires group.final.Keys == finished && finished <= added && finished != {}
    requires (group.once <==> |group.completions| == 1) && |group.completions| <= 1
    requires !late ==> group.outstanding.Keys == added - finished
    requires !late && group.once ==> finished == added && group.completions[0].Keys == added
    ensures GroupInv(AfterDone(group), added, finished, late)
  {
    assert |group.outstanding| == |group.outstanding.Keys|;
    assert |group.outstanding| > 0 <==> group.outstanding.Keys != {};
    if added - finished == {} {
      forall id | id in added
        ensures id in finished
      {
        assert id !in finished ==> id in added - finished;
      }
    }
  }

  lemma FinishKeepsGroup(group: Group, op: Op, outcome: Outcome, added: set<Id>, finished: set<Id>, late: bool)
    requires GroupInv(group, added, finished, late) && op.id in added
    ensures GroupInv(AfterFinish(group, op, outcome), added, finished + {op.id}, late)
  {
    var final := group.final[op.id := Response(op, outcome)];
    var outstanding := group.outstanding - {op.id};
    assert final.Keys == finished + {op.id};
    assert outstanding.Keys == group.outstanding.Keys - {op.id};
    hide AfterDone;
    DoneKeepsGroup(group.(final := final, outstanding := outstanding), added, finished + {op.id}, late);
  }

  // ----- Steps

  lemma FinishedWasAdded(s: Sys, op: Op, g: nat)
    requires HistoryInv(s) && op in s.delivered && op.group == Some(g)
    ensures op.id in IdsOf(s.added, g)
  {
    MemberOfIds(s.added, op, g);
  }

  lemma HasFinishedIffIds(finished: seq<Op>, g: nat)
    ensures HasFinished(finished, g) <==> IdsOf(finished, g) != {}
  {
    if HasFinished(finished, g) {
      var i :| 0 <= i < |finished| && finished[i].group == Some(g);
      MemberOfIds(finished, finished[i], g);
    } else {
      assert forall id :: id !in IdsOf(finished, g);
    }
  }

  lemma AddGroups(s: Sys, op: Op)
    requires AllGroupsInv(s) && Enabled(s, Step.Add(op))
    ensures AllGroupsInv(Next(s, Step.Add(op)))
  {
    hide GroupInv, AfterAdd, IdsOf, HasFinished;
    var t := Next(s, Step.Add(op));
    forall g: nat
      ensures GroupInv(GroupOf(t, g), IdsOf(t.added, g), IdsOf(t.finished, g), g in t.late)
    {
      IdsOfOneMore(s.added, op, g);
      HasFinishedIffIds(s.finished, g);
      if op.group == Some(g) {
        AddKeepsGroup(GroupOf(s, g), op, IdsOf(s.added, g), IdsOf(s.finished, g), g in s.late);
      } else {
        assert GroupOf(t, g) == GroupOf(s, g);
        assert IdsOf(s.added, g) + {} == IdsOf(s.added, g);
      }
    }
  }

  lemma FinishGroups(s: Sys, w: nat, outcome: Outcome)
    requires AllGroupsInv(s) && AccountInv(s) && HistoryInv(s) && Enabled(s, Step.Finish(w, outcome))
    ensures AllGroupsInv(Next(s, Step.Finish(w, outcome)))
  {
    var op := s.workers[w].ops[s.workers[w].finished];
    assert op in s.delivered;
    hide GroupInv, AfterFinish, IdsOf, AccountInv, HistoryInv;
    var t := Next(s, Step.Finish(w, outcome));
    forall g: nat
      ensures GroupInv(GroupOf(t, g), IdsOf(t.added, g), IdsOf(t.finished, g), g in t.late)
    {
      IdsOfOneMore(s.finished, op, g);
      if op.group == Some(g) {
        FinishedWasAdded(s, op, g);
        FinishKeepsGroup(GroupOf(s, g), op, outcome, IdsOf(s.added, g), IdsOf(s.finished, g), g in s.late);
      } else {
        assert GroupOf(t, g) == GroupOf(s, g);
      }
    }
  }

  /** A step that leaves the operations of every running callback where they are. */
  lemma AccountedStays(s: Sys, t: Sys)
    requires AccountInv(s) && t.finished == s.finished && t.delivered == s.delivered && |t.workers| == |s.workers|
    requires forall w :: 0 <= w < |s.workers| && s.workers[w].Running? && s.workers[w].finished < |s.workers[w].ops| ==> t.workers[w] == s.workers[w]
    requires forall w :: 0 <= w < |s.workers| && t.workers[w].Running? ==> t.workers[w] == s.workers[w]
    ensures AccountInv(t)
  {
    forall op | op in t.delivered
      ensures Accounted(t, op)
    {
      assert Accounted(s, op);
      if op !in s.finished {
        var w, i :| 0 <= w < |s.workers| && s.workers[w].Running? && s.workers[w].finished <= i < |s.workers[w].ops| && s.workers[w].ops[i] == op;
        assert t.workers[w].ops[i] == op;
      }
    }
  }

  lemma TakeAccounts(s: Sys, w: nat)
    requires AccountInv(s) && Enabled(s, Acquire(w)) && CanTake(s.queue)
    ensures AccountInv(Next(s, Acquire(w)))
  {
    var t := Next(s, Acquire(w));
    var ops := TakenSet(s.queue);
    assert t.workers[w] == Running(TakenId(s.queue), ops, 0);
    hide TakenSet, TakenId, AfterTake;
    forall op | op in t.delivered
      ensures Accounted(t, op)
    {
      if op in s.delivered {
        assert Accounted(s, op);
        if op !in s.finished {
          var v, i :| 0 <= v < |s.workers| && s.workers[v].Running? && s.workers[v].finished <= i < |s.workers[v].ops| && s.workers[v].ops[i] == op;
          assert t.workers[v].ops[i] == op;
        }
      } else {
        var i :| 0 <= i < |ops| && ops[i] == op;
        assert t.workers[w].ops[i] == op;
      }
    }
  }

  lemma FinishAccounts(s: Sys, w: nat, outcome: Outcome)
    requires AccountInv(s) && Enabled(s, Step.Finish(w, outcome))
    ensures AccountInv(Next(s, Step.Finish(w, outcome)))
  {
    var t := Next(s, Step.Finish(w, outcome));
    var done := s.workers[w].finished;
    assert t.finished == s.finished + [s.workers[w].ops[done]];
    hide AfterFinish, GroupOf;
    forall op | op in t.delivered
      ensures Accounted(t, op)
    {
      assert Accounted(s, op);
      if op !in s.finished {
        var v, i :| 0 <= v < |s.workers| && s.workers[v].Running? && s.workers[v].finished <= i < |s.workers[v].ops| && s.workers[v].ops[i] == op;
        if v == w && i == done {
          assert t.finished[|s.finished|] == op;
        } else {
          assert t.workers[v].ops[i] == op;
        }
      }
    }
  }

  lemma StepKeepsAccounts(s: Sys, step: Step)
    requires AccountInv(s) && Enabled(s, step)
    ensures AccountInv(Next(s, step))
  {
    hide AccountInv, AfterTake, AfterEnqueue, AfterCallback, AnswerTo, GroupOf, HasFinished;
    match step
    case Acquire(w) =>
      if CanTake(s.queue) {
        TakeAccounts(s, w);
      } else {
        AccountedStays(s, Next(s, step));
      }
    case Finish(w, outcome) => FinishAccounts(s, w, outcome);
    case _ => AccountedStays(s, Next(s, step));
  }

  lemma StepKeepsGroups(s: Sys, step: Step)
    requires AllGroupsInv(s) && AccountInv(s) && HistoryInv(s) && Enabled(s, step)
    ensures AllGroupsInv(Next(s, step))
  {
    match step
    case Add(op) => AddGroups(s, op);
    case Finish(w, outcome) => FinishGroups(s, w, outcome);
    case _ =>
      hide GroupInv, IdsOf, AccountInv, HistoryInv, AfterTake, AfterEnqueue, AfterCallback, AnswerTo;
      assert forall g: nat :: GroupOf(Next(s, step), g) == GroupOf(s, g);
  }

  lemma {:induction false} RunKeepsFullInv(s: Sys, steps: seq<Step>)
    requires FullInv(s) && IsRun(s, steps)
    ensures FullInv(RunFrom(s, steps))
    decreases |steps|
  {
    hide AccountInv, AllGroupsInv, Next, Enabled;
    if steps != [] {
      assert HistoryInv(s);
      hide Inv, HistoryInv;
      StepKeepsInv(s, steps[0]);
      StepKeepsAccounts(s, steps[0]);
      StepKeepsGroups(s, steps[0]);
      RunKeepsFullInv(Next(s, steps[0]), steps[1..]);
    }
  }

  lemma ReachableFullInv(s: Sys)
    requires Reachable(s)
    ensures FullInv(s)
  {
    hide Inv, IsRun, RunFrom;
    var depth: int, width: int, workers: nat, steps: seq<Step> :|
      IsRun(Init(depth, width, workers), steps) && RunFrom(Init(depth, width, workers), steps) == s;
    InitInv(depth, width, workers);
    var s0 := Init(depth, width, workers);
    assert forall g: nat :: IdsOf(s0.added, g) == {} && IdsOf(s0.finished, g) == {};
    RunKeepsFullInv(s0, steps);
  }

  // ----- Completion

  /** The group's operations, as far as they were added, were all accepted by the queue. */
  ghost predicate AllAccepted(s: Sys, g: nat) {
    forall op :: op in s.added && op.group == Some(g) ==> op in s.accepted
  }

  /** For a group whose Adds all come before its first Finish, in every reachable state: the
      completion has run at most once, and it has run exactly if the group has operations and
      every added ID has been finished; it then got a map whose keys are exactly the added IDs. */
  lemma CompletionExactly(s: Sys, g: nat)
    requires Reachable(s) && g !in s.late
    ensures var group := GroupOf(s, g);
            && |group.completions| <= 1
            && (|group.completions| == 1 <==> IdsOf(s.added, g) != {} && IdsOf(s.added, g) == IdsOf(s.finished, g))
            && (|group.completions| == 1 ==> group.completions[0].Keys == IdsOf(s.added, g))
  {
    ReachableFullInv(s);
    hide Inv, AccountInv, IdsOf;
    assert GroupInv(GroupOf(s, g), IdsOf(s.added, g), IdsOf(s.finished, g), g in s.late);
  }

  lemma DrainedIsFinished(s: Sys, g: nat)
    requires Inv(s) && AccountInv(s) && Drained(s) && AllAccepted(s, g)
    ensures IdsOf(s.added, g) <= IdsOf(s.finished, g)
  {
    forall id | id in IdsOf(s.added, g)
      ensures id in IdsOf(s.finished, g)
    {
      var i :| 0 <= i < |s.added| && s.added[i].group == Some(g) && s.added[i].id == id;
      var op := s.added[i];
      assert op in s.accepted;
      PartOfFor(s.accepted, op);
      assert For(s.accepted, id) == For(s.delivered, id) + Held(s.queue, id);
      ForIsPart(s.delivered, id, op);
      assert Accounted(s, op);
      MemberOfIds(s.finished, op, g);
    }
  }

  /** Whenever the queue is drained, every group that was used properly and whose operations
      were all accepted has run its completion exactly once, with exactly its own IDs. */
  lemma DrainedGroupsCompleted(s: Sys, g: nat)
    requires Reachable(s) && Drained(s) && g !in s.late
    requires IdsOf(s.added, g) != {} && AllAccepted(s, g)
    ensures var group := GroupOf(s, g);
            |group.completions| == 1 && group.completions[0].Keys == IdsOf(s.added, g)
  {
    ReachableFullInv(s);
    assert GroupInv(GroupOf(s, g), IdsOf(s.added, g), IdsOf(s.finished, g), g in s.late);
    hide IdsOf, Reachable;
    DrainedIsFinished(s, g);
    CompletionExactly(s, g);
  }
}
