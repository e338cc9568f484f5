/** Call groups: a completion that runs once, when the last outstanding ID of the group has
    been finished. */
module CallGroups {
  import opened Wrappers
  import opened DedupeQueues

  /** The outcome passed to `Finish`: an error or a response. */
  datatype Outcome = Success(value: nat) | Failure(error: nat)

  datatype Response = Response(op: Op, outcome: Outcome)

  type FinalState = map<Id, Response>

  /** `completions` lists the maps the completion function was called with. */
  datatype Group = Group(outstanding: map<Id, Op>, final: FinalState, once: bool, completions: seq<FinalState>)

  const NEW_GROUP := Group(map[], map[], false, [])

  function AfterAdd(g: Group, op: Op): Group {
    g.(outstanding := g.outstanding[op.id := op])
  }

  /** `done`: the completion runs when nothing is outstanding, guarded by a once-flag. */
  function AfterDone(g: Group): Group {
    if |g.outstanding| > 0 then g
    else if g.once then g
    else g.(once := true, completions := g.completions + [g.final])
  }

  function AfterFinish(g: Group, op: Op, outcome: Outcome): Group {
    AfterDone(g.(final := g.final[op.id := Response(op, outcome)], outstanding := g.outstanding - {op.id}))
  }

  class CallGroup {
    var outstandingOps: map<Id, Op>
    var finalState: FinalState
    var once: bool
    var completions: seq<FinalState>

    constructor ()
      ensures State() == NEW_GROUP
    {
      outstandingOps, finalState, once, completions := map[], map[], false, [];
    }

    ghost function State(): Group
      reads this
    {
      Group(outstandingOps, finalState, once, completions)
    }

    /** Makes an operation of this group; `self` is the group's own name. */
    method Add(self: nat, key: Id, serial: nat) returns (op: Op)
      modifies this
      ensures op == Op(key, serial, Some(self))
      ensures State() == AfterAdd(old(State()), op)
    {
      op := Op(key, serial, Some(self));
      outstandingOps := outstandingOps[key := op];
    }

    method Done()
      modifies this
      ensures State() == AfterDone(old(State()))
    {
      if |outstandingOps| > 0 {
        return;
      }
      if !once {
        once := true;
        completions := completions + [finalState];
      }
    }

    method Finish(op: Op, outcome: Outcome)
      modifies this
      ensures State() == AfterFinish(old(State()), op, outcome)
    {
      finalState := finalState[op.id := Response(op, outcome)];
      outstandingOps := outstandingOps - {op.id};
      Done();
    }
  }

  /** What finishing a list of operations does to one group among many. */
  function AfterFinishAll(g: Group, name: nat, ops: seq<Op>, outcome: Outcome): Group
    decreases |ops|
  {
    if ops == [] then g
    else
      var before := AfterFinishAll(g, name, ops[..|ops| - 1], outcome);
      var op := ops[|ops| - 1];
      if op.group == Some(name) then AfterFinish(before, op, outcome) else before
  }

  /** `OpSet.FinishAll`: finishes every operation of the set with the group that made it. */
  method FinishAll(ops: seq<Op>, outcome: Outcome, groups: map<nat, CallGroup>)
    requires forall i :: 0 <= i < |ops| && ops[i].group.Some? ==> ops[i].group.value in groups
    requires forall a, b :: a in groups && b in groups && a != b ==> groups[a] != groups[b]
    modifies groups.Values
    ensures forall a :: a in groups ==> groups[a].State() == AfterFinishAll(old(groups[a].State()), a, ops, outcome)
  {
    for i := 0 to |ops|
      invariant forall a :: a in groups ==> groups[a].State() == AfterFinishAll(old(groups[a].State()), a, ops[..i], outcome)
    {
      assert ops[..i + 1][..i] == ops[..i];
      if ops[i].group.Some? {
        var name := ops[i].group.value;
        assert groups[name] in groups.Values;
        groups[name].Finish(ops[i], outcome);
      }
    }
    assert ops[..|ops|] == ops;
  }
}
