/** What a completion gets: for every ID the operation and the outcome of its last Finish. */
module GroupResults {
  import opened Wrappers
  import opened DedupeQueues
  import opened CallGroups
  import opened InflightSystem
  import opened InflightTheorems
  import opened GroupTheorems
  import opened GroupCompletion

  /** Position `k` of the history is the last Finish of the group under this ID. */
  ghost predicate IsLast(finished: seq<Op>, g: nat, id: Id, k: nat) {
    && k < |finished| && finished[k].group == Some(g) && finished[k].id == id
    && forall j :: k < j < |finished| ==> !(finished[j].group == Some(g) && finished[j].id == id)
  }

  /** The map holds, for exactly the finished IDs of the group, what their last Finish said. */
  ghost predicate Records(m: FinalState, finished: seq<Op>, outcomes: seq<Outcome>, g: nat)
    requires |finished| == |outcomes|
  {
    && m.Keys == IdsOf(finished, g)
    && forall id :: id in m ==> exists k: nat :: IsLast(finished, g, id, k) && m[id] == Response(finished[k], outcomes[k])
  }

  /** The Finish number `n`, counted from 1, is the first one for its ID in the group. */
  predicate NewlyFinished(finished: seq<Op>, g: nat, n: nat) {
    0 < n <= |finished| && finished[n - 1].group == Some(g) && finished[n - 1].id !in IdsOf(finished[..n - 1], g)
  }

  /** The map was made up after `n` Finishes. */
  ghost predicate RecordsFirst(m: FinalState, finished: seq<Op>, outcomes: seq<Outcome>, g: nat, n: nat)
    requires |finished| == |outcomes|
  {
    n <= |finished| && Records(m, finished[..n], outcomes[..n], g)
  }

  /** What was passed to the completion: the records of the Finishes so far.  If all Adds came
      before, it ran with the very Finish that brought in the last missing ID. */
  ghost predicate CompletedWith(m: FinalState, finished: seq<Op>, outcomes: seq<Outcome>, g: nat, added: set<Id>, late: bool)
    requires |finished| == |outcomes|
  {
    exists n: nat :: RecordsFirst(m, finished, outcomes, g, n) && (late || (NewlyFinished(finished, g, n) && IdsOf(finished[..n], g) == added))
  }

  ghost predicate ResultInv(group: Group, finished: seq<Op>, outcomes: seq<Outcome>, g: nat, added: set<Id>, late: bool)
    requires |finished| == |outcomes|
  {
    && Records(group.final, finished, outcomes, g)
    && (group.completions != [] ==> CompletedWith(group.completions[0], finished, outcomes, g, added, late))
  }

  ghost predicate ResultsInv(s: Sys) {
    && |s.finished| == |s.outcomes|
    && forall g: nat :: ResultInv(GroupOf(s, g), s.finished, s.outcomes, g, IdsOf(s.added, g), g in s.late)
  }

  // ----- One more Finish

  lemma OtherFinishStays(m: FinalState, finished: seq<Op>, outcomes: seq<Outcome>, op: Op, outcome: Outcome, g: nat)
    requires |finished| == |outcomes| && Records(m, finished, outcomes, g) && op.group != Some(g)
    ensures Records(m, finished + [op], outcomes + [outcome], g)
  {
    IdsOfOneMore(finished, op, g);
    hide IdsOf;
    forall id | id in m
      ensures exists k: nat :: IsLast(finished + [op], g, id, k) && m[id] == Response((finished + [op])[k], (outcomes + [outcome])[k])
    {
      var k: nat :| IsLast(finished, g, id, k) && m[id] == Response(finished[k], outcomes[k]);
      assert IsLast(finished + [op], g, id, k);
    }
  }

  lemma OwnFinishRecords(m: FinalState, finished: seq<Op>, outcomes: seq<Outcome>, op: Op, outcome: Outcome, g: nat)
    requires |finished| == |outcomes| && Records(m, finished, outcomes, g) && op.group == Some(g)
    ensures Records(m[op.id := Response(op, outcome)], finished + [op], outcomes + [outcome], g)
  {
    IdsOfOneMore(finished, op, g);
    hide IdsOf;
    var t := m[op.id := Response(op, outcome)];
    assert t.Keys == m.Keys + {op.id};
    forall id | id in t
      ensures exists k: nat :: IsLast(finished + [op], g, id, k) && t[id] == Response((finished + [op])[k], (outcomes + [outcome])[k])
    {
      if id == op.id {
        assert IsLast(finished + [op], g, id, |finished|);
      } else {
        var k: nat :| IsLast(finished, g, id, k) && m[id] == Response(finished[k], outcomes[k]);
        assert IsLast(finished + [op], g, id, k);
      }
    }
  }

  lemma CompletionStays(m: FinalState, finished: seq<Op>, outcomes: seq<Outcome>, op: Op, outcome: Outcome, g: nat, added: set<Id>, late: bool)
    requires |finished| == |outcomes| && CompletedWith(m, finished, outcomes, g, added, late)
    ensures CompletedWith(m, finished + [op], outcomes + [outcome], g, added, late)
  {
    hide IdsOf, Records;
    var n: nat :| RecordsFirst(m, finished, outcomes, g, n) && (late || (NewlyFinished(finished, g, n) && IdsOf(finished[..n], g) == added));
    assert (finished + [op])[..n] == finished[..n] && (outcomes + [outcome])[..n] == outcomes[..n];
    assert n > 0 ==> (finished + [op])[..n - 1] == finished[..n - 1];
    assert RecordsFirst(m, finished + [op], outcomes + [outcome], g, n);
    assert NewlyFinished(finished, g, n) ==> NewlyFinished(finished + [op], g, n);
  }

  /** The completion that runs now. */
  lemma CompletesNow(m: FinalState, finished: seq<Op>, outcomes: seq<Outcome>, op: Op, outcome: Outcome, g: nat, added: set<Id>, late: bool)
    requires |finished| == |outcomes| && Records(m, finished + [op], outcomes + [outcome], g) && op.group == Some(g)
    requires !late ==> op.id !in IdsOf(finished, g) && IdsOf(finished + [op], g) == added
    ensures CompletedWith(m, finished + [op], outcomes + [outcome], g, added, late)
  {
    hide IdsOf, Records;
    var n := |finished| + 1;
    assert (finished + [op])[..n] == finished + [op] && (outcomes + [outcome])[..n] == outcomes + [outcome];
    assert (finished + [op])[..n - 1] == finished;
    assert RecordsFirst(m, finished + [op], outcomes + [outcome], g, n);
    assert !late ==> NewlyFinished(finished + [op], g, n);
  }

  lemma FinishShape(group: Group, op: Op, outcome: Outcome)
    ensures var t := AfterFinish(group, op, outcome);
            && t.final == group.final[op.id := Response(op, outcome)]
            && t.outstanding == group.outstanding - {op.id}
            && (t.completions == group.completions || t.completions == group.completions + [t.final])
            && (t.once <==> t.completions != group.completions || group.once)
  {
  }

  /** A completion that has just run was waiting for this ID. */
  lemma CompletesOnTheLast(group: Group, t: Group, id: Id, added: set<Id>, finished: set<Id>)
    requires GroupInv(group, added, finished, false) && GroupInv(t, added, finished + {id}, false)
    requires group.completions == [] && t.completions != []
    ensures id !in finished && finished + {id} == added
  {
  }

  lemma FinishKeepsResult(group: Group, op: Op, outcome: Outcome, finished: seq<Op>, outcomes: seq<Outcome>, g: nat, added: set<Id>, late: bool)
    requires |finished| == |outcomes| && ResultInv(group, finished, outcomes, g, added, late)
    requires GroupInv(group, added, IdsOf(finished, g), late) && op.id in added && op.group == Some(g)
    ensures ResultInv(AfterFinish(group, op, outcome), finished + [op], outcomes + [outcome], g, added, late)
  {
    var t := AfterFinish(group, op, outcome);
    FinishShape(group, op, outcome);
    FinishKeepsGroup(group, op, outcome, added, IdsOf(finished, g), late);
    hide IdsOf, Records, AfterFinish, CompletedWith, GroupInv;
    IdsOfOneMore(finished, op, g);
    OwnFinishRecords(group.final, finished, outcomes, op, outcome, g);
    if group.completions != [] {
      CompletionStays(group.completions[0], finished, outcomes, op, outcome, g, added, late);
    } else if t.completions != [] {
      if !late {
        CompletesOnTheLast(group, t, op.id, added, IdsOf(finished, g));
      }
      CompletesNow(t.final, finished, outcomes, op, outcome, g, added, late);
    }
  }

  lemma OtherKeepsResult(group: Group, op: Op, outcome: Outcome, finished: seq<Op>, outcomes: seq<Outcome>, g: nat, added: set<Id>, late: bool)
    requires |finished| == |outcomes| && ResultInv(group, finished, outcomes, g, added, late) && op.group != Some(g)
    ensures ResultInv(group, finished + [op], outcomes + [outcome], g, added, late)
  {
    hide IdsOf, Records, CompletedWith;
    OtherFinishStays(group.final, finished, outcomes, op, outcome, g);
    if group.completions != [] {
      CompletionStays(group.completions[0], finished, outcomes, op, outcome, g, added, late);
    }
  }

  // ----- Steps

  lemma FinishStepResults(s: Sys, w: nat, outcome: Outcome)
    requires ResultsInv(s) && AllGroupsInv(s) && AccountInv(s) && HistoryInv(s) && Enabled(s, Step.Finish(w, outcome))
    ensures ResultsInv(Next(s, Step.Finish(w, outcome)))
  {
    var op := s.workers[w].ops[s.workers[w].finished];
    assert op in s.delivered;
    hide GroupInv, ResultInv, AfterFinish, IdsOf, AccountInv, HistoryInv;
    var t := Next(s, Step.Finish(w, outcome));
    forall g: nat
      ensures ResultInv(GroupOf(t, g), t.finished, t.outcomes, g, IdsOf(t.added, g), g in t.late)
    {
      if op.group == Some(g) {
        FinishedWasAdded(s, op, g);
        FinishKeepsResult(GroupOf(s, g), op, outcome, s.finished, s.outcomes, g, IdsOf(s.added, g), g in s.late);
      } else {
        assert GroupOf(t, g) == GroupOf(s, g);
        OtherKeepsResult(GroupOf(s, g), op, outcome, s.finished, s.outcomes, g, IdsOf(s.added, g), g in s.late);
      }
    }
  }

  lemma LateKeepsResult(group: Group, op: Op, finished: seq<Op>, outcomes: seq<Outcome>, g: nat, added: set<Id>, late: bool)
    requires |finished| == |outcomes| && ResultInv(group, finished, outcomes, g, added, late)
    requires GroupInv(group, added, IdsOf(finished, g), late)
    ensures ResultInv(AfterAdd(group, op), finished, outcomes, g, added + {op.id}, late || IdsOf(finished, g) != {})
  {
    hide IdsOf, Records;
    if group.completions != [] {
      assert IdsOf(finished, g) != {};
      var n: nat :| RecordsFirst(group.completions[0], finished, outcomes, g, n);
    }
  }

  lemma AddStepResults(s: Sys, op: Op)
    requires ResultsInv(s) && AllGroupsInv(s) && Enabled(s, Step.Add(op))
    ensures ResultsInv(Next(s, Step.Add(op)))
  {
    hide GroupInv, ResultInv, AfterAdd, IdsOf, HasFinished;
    var t := Next(s, Step.Add(op));
    forall g: nat
      ensures ResultInv(GroupOf(t, g), t.finished, t.outcomes, g, IdsOf(t.added, g), g in t.late)
    {
      IdsOfOneMore(s.added, op, g);
      HasFinishedIffIds(s.finished, g);
      if op.group == Some(g) {
        LateKeepsResult(GroupOf(s, g), op, s.finished, s.outcomes, g, IdsOf(s.added, g), g in s.late);
      } else {
        assert GroupOf(t, g) == GroupOf(s, g);
        assert IdsOf(s.added, g) + {} == IdsOf(s.added, g);
      }
    }
  }

  lemma GroupsStay(s: Sys, t: Sys)
    requires ResultsInv(s) && t.groups == s.groups && t.finished == s.finished && t.outcomes == s.outcomes
    requires t.added == s.added && t.late == s.late
    ensures ResultsInv(t)
  {
    hide ResultInv, IdsOf;
    assert forall g: nat :: GroupOf(t, g) == GroupOf(s, g);
  }

  lemma StepKeepsResults(s: Sys, step: Step)
    requires ResultsInv(s) && AllGroupsInv(s) && AccountInv(s) && HistoryInv(s) && Enabled(s, step)
    ensures ResultsInv(Next(s, step))
  {
    hide ResultsInv, IdsOf, AccountInv, HistoryInv, AfterTake, AfterEnqueue, AfterCallback, AnswerTo, AllGroupsInv, AfterFinishStep;
    match step
    case Add(op) => AddStepResults(s, op);
    case Finish(w, outcome) => FinishStepResults(s, w, outcome);
    case _ => GroupsStay(s, Next(s, step));
  }

  lemma {:induction false} RunKeepsResults(s: Sys, steps: seq<Step>)
    requires FullInv(s) && ResultsInv(s) && IsRun(s, steps)
    ensures ResultsInv(RunFrom(s, steps))
    decreases |steps|
  {
    hide AccountInv, AllGroupsInv, ResultsInv, Next, Enabled;
    if steps != [] {
      assert HistoryInv(s);
      hide Inv, HistoryInv;
      StepKeepsInv(s, steps[0]);
      StepKeepsAccounts(s, steps[0]);
      StepKeepsGroups(s, steps[0]);
      StepKeepsResults(s, steps[0]);
      RunKeepsResults(Next(s, steps[0]), steps[1..]);
    }
  }

  lemma InitResults(depth: int, width: int, workers: nat)
    ensures FullInv(Init(depth, width, workers)) && ResultsInv(Init(depth, width, workers))
  {
    InitInv(depth, width, workers);
    hide Inv;
    var s := Init(depth, width, workers);
    assert forall g: nat :: IdsOf(s.added, g) == {} && IdsOf(s.finished, g) == {};
  }

  lemma ReachableResults(s: Sys)
    requires Reachable(s)
    ensures ResultsInv(s)
  {
    hide FullInv, ResultsInv, IsRun, RunFrom;
    var depth: int, width: int, workers: nat, steps: seq<Step> :|
      IsRun(Init(depth, width, workers), steps) && RunFrom(Init(depth, width, workers), steps) == s;
    InitResults(depth, width, workers);
    RunKeepsResults(Init(depth, width, workers), steps);
  }

  // ----- Main results

  /** In every reachable state, if the group has completed: after some number `n` of Finishes, and
      its completion got a map with exactly the IDs of the group finished by then, each with the
      operation and the outcome of the last of those Finishes under that ID.  If all Adds came
      before the group's first Finish, number `n` is the Finish that brought in the last of the
      added IDs. */
  lemma CompletionHasLastOutcomes(s: Sys, g: nat) returns (n: nat)
    requires Reachable(s) && GroupOf(s, g).completions != []
    ensures n <= |s.finished| == |s.outcomes|
    ensures var m := GroupOf(s, g).completions[0];
            && m.Keys == IdsOf(s.finished[..n], g)
            && forall id :: id in m ==>
                 exists k: nat :: k < n && IsLast(s.finished[..n], g, id, k) && m[id] == Response(s.finished[k], s.outcomes[k])
    ensures g !in s.late ==> NewlyFinished(s.finished, g, n) && IdsOf(s.finished[..n], g) == IdsOf(s.added, g)
  {
    ReachableResults(s);
    hide Reachable, IdsOf, IsLast;
    var m := GroupOf(s, g).completions[0];
    assert ResultInv(GroupOf(s, g), s.finished, s.outcomes, g, IdsOf(s.added, g), g in s.late);
    n :| RecordsFirst(m, s.finished, s.outcomes, g, n)
      && (g in s.late || (NewlyFinished(s.finished, g, n) && IdsOf(s.finished[..n], g) == IdsOf(s.added, g)));
    forall id | id in m
      ensures exists k: nat :: k < n && IsLast(s.finished[..n], g, id, k) && m[id] == Response(s.finished[k], s.outcomes[k])
    {
      var k: nat :| IsLast(s.finished[..n], g, id, k) && m[id] == Response(s.finished[..n][k], s.outcomes[..n][k]);
      LastIsThere(s.finished[..n], g, id, k);
    }
  }

  lemma LastIsThere(finished: seq<Op>, g: nat, id: Id, k: nat)
    requires IsLast(finished, g, id, k)
    ensures k < |finished|
  {
  }

  /** If the group's operations have different IDs, each of them is in the map under its ID, with
      its own outcome: that of its last Finish up to then. */
  lemma OwnOutcomes(s: Sys, g: nat, ops: seq<Op>, op: Op) returns (n: nat, k: nat)
    requires Reachable(s) && g !in s.late && AddedAre(s, g, ops) && GroupOf(s, g).completions != []
    requires DistinctIds(ops) && op in ops
    ensures k < n <= |s.finished| == |s.outcomes|
    ensures s.finished[k] == op && forall j :: k < j < n ==> s.finished[j] != op
    ensures op.id in GroupOf(s, g).completions[0]
    ensures GroupOf(s, g).completions[0][op.id] == Response(op, s.outcomes[k])
    ensures NewlyFinished(s.finished, g, n)
  {
    n := CompletionHasLastOutcomes(s, g);
    var m := GroupOf(s, g).completions[0];
    assert op.id in m by {
      MemberOfIds(s.added, op, g);
    }
    k :| k < n && IsLast(s.finished[..n], g, op.id, k) && m[op.id] == Response(s.finished[k], s.outcomes[k]);
    ReachableFullInv(s);
    hide *;
    OnlyOneHasId(s, g, ops, op, n, k);
  }

  lemma OnlyOneHasId(s: Sys, g: nat, ops: seq<Op>, op: Op, n: nat, k: nat)
    requires FullInv(s) && AddedAre(s, g, ops) && DistinctIds(ops) && op in ops
    requires k < n <= |s.finished| && IsLast(s.finished[..n], g, op.id, k)
    ensures s.finished[k] == op && forall j :: k < j < n ==> s.finished[j] != op
  {
    var part := s.finished[..n];
    assert part[k] == s.finished[k];
    FinishedWasMade(s, k, g);
    hide FullInv;
    assert s.finished[k] in ops;
    forall j | k < j < n
      ensures s.finished[j] != op
    {
      assert part[j] == s.finished[j];
    }
  }

  lemma FinishedWasMade(s: Sys, k: nat, g: nat)
    requires FullInv(s) && k < |s.finished| && s.finished[k].group == Some(g)
    ensures s.finished[k] in s.added
  {
    assert s.finished[k] in s.finished;
  }

  /** Whenever the queue is drained, every group that was used properly and whose operations were
      all accepted has completed once, and its completion got, for exactly the group's IDs, the
      operation and outcome of the last Finish under the ID up to the one that completed it. */
  lemma DrainedGroupsGotOutcomes(s: Sys, g: nat) returns (n: nat)
    requires Reachable(s) && Drained(s) && g !in s.late
    requires IdsOf(s.added, g) != {} && AllAccepted(s, g)
    ensures |GroupOf(s, g).completions| == 1 && n <= |s.finished| == |s.outcomes|
    ensures var m := GroupOf(s, g).completions[0];
            && m.Keys == IdsOf(s.added, g) == IdsOf(s.finished[..n], g)
            && forall id :: id in m ==>
                 exists k: nat :: k < n && IsLast(s.finished[..n], g, id, k) && m[id] == Response(s.finished[k], s.outcomes[k])
  {
    hide *;
    DrainedGroupsCompleted(s, g);
    n := CompletionHasLastOutcomes(s, g);
  }

  // ----- Finishing a whole set

  /** `FinishAll` on a set with one outcome: of one group it finishes exactly the operations that
      the group made, each with the outcome, and nothing else changes in the group's books. */
  lemma {:induction false} FinishAllFinishesOwn(group: Group, name: nat, ops: seq<Op>, outcome: Outcome)
    ensures var t := AfterFinishAll(group, name, ops, outcome);
            && t.final.Keys == group.final.Keys + IdsOf(ops, name)
            && t.outstanding == group.outstanding - IdsOf(ops, name)
            && (forall id :: id in t.final && id !in IdsOf(ops, name) ==> t.final[id] == group.final[id])
            && (forall id :: id in IdsOf(ops, name) ==>
                  exists k: nat :: IsLast(ops, name, id, k) && id in t.final && t.final[id] == Response(ops[k], outcome))
    decreases |ops|
  {
    hide AfterDone, IdsOf;
    if ops == [] {
      assert IdsOf(ops, name) == {} by {
        NoIds(name);
      }
    } else {
      var last := |ops| - 1;
      var init := ops[..last];
      assert ops == init + [ops[last]];
      FinishAllFinishesOwn(group, name, init, outcome);
      IdsOfOneMore(init, ops[last], name);
      OneMoreOfSet(AfterFinishAll(group, name, init, outcome), group, name, init, ops[last], outcome);
    }
  }

  lemma NoIds(name: nat)
    ensures IdsOf([], name) == {}
  {
  }

  lemma OneMoreOfSet(before: Group, group: Group, name: nat, init: seq<Op>, op: Op, outcome: Outcome)
    requires before.final.Keys == group.final.Keys + IdsOf(init, name)
    requires before.outstanding == group.outstanding - IdsOf(init, name)
    requires forall id :: id in before.final && id !in IdsOf(init, name) ==> before.final[id] == group.final[id]
    requires forall id :: id in IdsOf(init, name) ==>
      exists k: nat :: IsLast(init, name, id, k) && id in before.final && before.final[id] == Response(init[k], outcome)
    ensures var t := if op.group == Some(name) then AfterFinish(before, op, outcome) else before;
            var ids := IdsOf(init, name) + if op.group == Some(name) then {op.id} else {};
            && t.final.Keys == group.final.Keys + ids && t.outstanding == group.outstanding - ids
            && (forall id :: id in t.final && id !in ids ==> t.final[id] == group.final[id])
            && (forall id :: id in ids ==>
                  exists k: nat :: IsLast(init + [op], name, id, k) && id in t.final && t.final[id] == Response((init + [op])[k], outcome))
  {
    FinishShape(before, op, outcome);
    hide IdsOf, AfterFinish;
    var t := if op.group == Some(name) then AfterFinish(before, op, outcome) else before;
    var ids := IdsOf(init, name) + if op.group == Some(name) then {op.id} else {};
    assert t.outstanding == group.outstanding - ids;
    forall id | id in ids
      ensures exists k: nat :: IsLast(init + [op], name, id, k) && id in t.final && t.final[id] == Response((init + [op])[k], outcome)
    {
      if op.group == Some(name) && id == op.id {
        assert IsLast(init + [op], name, id, |init|);
      } else {
        var k: nat :| IsLast(init, name, id, k) && before.final[id] == Response(init[k], outcome);
        assert IsLast(init + [op], name, id, k);
      }
    }
  }
}
