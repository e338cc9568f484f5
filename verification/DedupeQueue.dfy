/** The duplicate-suppressing queue: operations with the same ID are combined into one set,
    and an ID whose set is being processed collects further operations in a backup set. */
module DedupeQueues {
  import opened Wrappers

  type Id = x: nat | x < 0x1_0000_0000_0000_0000

  /** An operation.  `serial` stands for the pointer that identifies it (and for its data),
      `group` for the call group that made it, if any. */
  datatype Op = Op(id: Id, serial: nat, group: Option<nat>)

  datatype Queue = Queue(
    depth: int,
    width: int,
    order: seq<Id>,
    entries: map<Id, seq<Op>>,
    backup: map<Id, seq<Op>>,
    closed: bool)

  /** What `Enqueue` answers; an accepted operation may signal one waiting worker. */
  datatype Answer = Accepted(signal: bool) | QueueClosed | SaturatedWidth | SaturatedDepth

  function NewQueue(depth: int, width: int): Queue {
    Queue(depth, width, [], map[], map[], false)
  }

  function AnswerTo(q: Queue, op: Op): Answer {
    if q.closed then QueueClosed
    else if op.id in q.backup then
      if |q.backup[op.id]| >= q.width then SaturatedWidth else Accepted(false)
    else if op.id !in q.entries then
      if |q.order| >= q.depth then SaturatedDepth else Accepted(true)
    else if |q.entries[op.id]| >= q.width then SaturatedWidth
    else Accepted(false)
  }

  function AfterEnqueue(q: Queue, op: Op): Queue {
    if !AnswerTo(q, op).Accepted? then q
    else if op.id in q.backup then q.(backup := q.backup[op.id := q.backup[op.id] + [op]])
    else if op.id in q.entries then q.(entries := q.entries[op.id := q.entries[op.id] + [op]])
    else q.(entries := q.entries[op.id := [op]], order := q.order + [op.id])
  }

  /** A set can be taken, and the map holds it: otherwise `dequeue` panics. */
  predicate CanTake(q: Queue) {
    !q.closed && q.order != [] && q.order[0] in q.entries
  }

  function TakenId(q: Queue): Id
    requires CanTake(q)
  {
    q.order[0]
  }

  function TakenSet(q: Queue): seq<Op>
    requires CanTake(q)
  {
    q.entries[q.order[0]]
  }

  function AfterTake(q: Queue): Queue
    requires CanTake(q)
  {
    var id := q.order[0];
    q.(order := q.order[1..], entries := q.entries - {id}, backup := q.backup[id := []])
  }

  /** After a callback: what arrived meanwhile goes to the back of the queue. */
  function AfterCallback(q: Queue, id: Id): Queue
    requires !q.closed ==> id in q.backup
  {
    if q.closed then q
    else if |q.backup[id]| > 0 then
      q.(entries := q.entries[id := q.backup[id]], order := q.order + [id], backup := q.backup - {id})
    else q.(backup := q.backup - {id})
  }

  function AfterClose(q: Queue): Queue {
    Queue(q.depth, q.width, [], map[], map[], true)
  }

  /** The operations held back for an ID, in the order they will be delivered. */
  function Held(q: Queue, id: Id): seq<Op> {
    if id in q.entries then q.entries[id] else if id in q.backup then q.backup[id] else []
  }

  /** The queue object.  Each method is one critical section of the original, which holds
      the mutex throughout. */
  class DedupeQueue {
    const depth: int
    const width: int
    var q: seq<Id>
    var entries: map<Id, seq<Op>>
    var backup: map<Id, seq<Op>>
    var closed: bool

    constructor (depth: int, width: int)
      ensures State() == NewQueue(depth, width)
    {
      this.depth, this.width := depth, width;
      q, entries, backup, closed := [], map[], map[], false;
    }

    ghost function State(): Queue
      reads this
    {
      Queue(depth, width, q, entries, backup, closed)
    }

    method Close()
      modifies this
      ensures State() == AfterClose(old(State()))
    {
      closed := true;
      q := [];
      entries := map[];
      backup := map[];
    }

    method Len() returns (n: nat)
      ensures n == if closed then 0 else |State().order|
    {
      if closed {
        return 0;
      }
      return |q|;
    }

    method NewEntry(id: Id, op: Op)
      modifies this`entries, this`q
      ensures entries == old(entries)[id := [op]] && q == old(q) + [id]
    {
      entries := entries[id := [op]];
      q := q + [id];
    }

    method Enqueue(op: Op) returns (answer: Answer)
      modifies this
      ensures answer == AnswerTo(old(State()), op)
      ensures State() == AfterEnqueue(old(State()), op)
    {
      if closed {
        return QueueClosed;
      }
      if op.id in backup {
        var set_ := backup[op.id];
        if |set_| >= width {
          return SaturatedWidth;
        }
        backup := backup[op.id := set_ + [op]];
        return Accepted(false);
      }
      if op.id !in entries {
        if |q| >= depth {
          return SaturatedDepth;
        }
        NewEntry(op.id, op);
        return Accepted(true);
      }
      if |entries[op.id]| >= width {
        return SaturatedWidth;
      }
      entries := entries[op.id := entries[op.id] + [op]];
      return Accepted(false);
    }

    /** Takes the set at the front, if there is one. */
    method Dequeue() returns (taken: Option<(Id, seq<Op>)>)
      requires !closed && q != [] ==> q[0] in entries
      modifies this
      ensures taken.Some? <==> CanTake(old(State()))
      ensures taken.Some? ==> taken.value == (TakenId(old(State())), TakenSet(old(State()))) && State() == AfterTake(old(State()))
      ensures taken.None? ==> State() == old(State())
    {
      if closed {
        return None;
      }
      if q == [] {
        return None;
      }
      var id := q[0];
      q := q[1..];
      var ops := entries[id];
      entries := entries - {id};
      backup := backup[id := []];
      return Some((id, ops));
    }

    /** What `Dequeue` does when its callback has returned; false if the queue was closed. */
    method CallbackReturned(id: Id) returns (open: bool)
      requires !closed ==> id in backup
      modifies this
      ensures open == !old(closed)
      ensures State() == AfterCallback(old(State()), id)
    {
      if closed {
        return false;
      }
      if |backup[id]| > 0 {
        entries := entries[id := backup[id]];
        q := q + [id];
      }
      backup := backup - {id};
      return true;
    }
  }

  // ----- What every operation keeps

  ghost predicate Distinct(s: seq<Id>) {
    forall i, j :: 0 <= i < j < |s| ==> s[i] != s[j]
  }

  ghost predicate AllFor(ops: seq<Op>, id: Id) {
    forall i :: 0 <= i < |ops| ==> ops[i].id == id
  }

  function Max(a: int, b: int): int {
    if a < b then b else a
  }

  /** The list has no duplicates and is exactly the keys of `entries`; `entries` and `backup`
      are disjoint; every set is within bounds and holds operations for its own ID only. */
  ghost predicate QueueInv(q: Queue) {
    && (q.closed ==> q.order == [] && q.entries == map[] && q.backup == map[])
    && Distinct(q.order)
    && (forall id :: id in q.order <==> id in q.entries)
    && (forall id :: id in q.entries ==> id !in q.backup)
    && (forall id :: id in q.entries ==> 1 <= |q.entries[id]| <= Max(1, q.width) && AllFor(q.entries[id], id))
    && (forall id :: id in q.backup ==> |q.backup[id]| <= Max(0, q.width) && AllFor(q.backup[id], id))
  }

  lemma DistinctAppend(s: seq<Id>, id: Id)
    requires Distinct(s) && id !in s
    ensures Distinct(s + [id])
  {
  }

  /** What the four transitions do to the list and to the keys of `backup`. */
  lemma EnqueueShape(q: Queue, op: Op)
    ensures var t := AfterEnqueue(q, op);
            && t.closed == q.closed && t.depth == q.depth && t.width == q.width && t.backup.Keys == q.backup.Keys
            && t.order == (if AnswerTo(q, op) == Accepted(true) then q.order + [op.id] else q.order)
            && (t.order != q.order ==> |q.order| < q.depth)
            && (AnswerTo(q, op) == Accepted(true) ==> op.id !in q.entries)
  {
  }

  lemma TakeShape(q: Queue)
    requires CanTake(q)
    ensures var t := AfterTake(q);
            && t.closed == q.closed && t.depth == q.depth && t.width == q.width
            && t.backup.Keys == q.backup.Keys + {TakenId(q)} && t.order == q.order[1..]
  {
  }

  lemma CallbackShape(q: Queue, id: Id)
    requires !q.closed && id in q.backup
    ensures var t := AfterCallback(q, id);
            && !t.closed && t.depth == q.depth && t.width == q.width
            && t.backup.Keys == q.backup.Keys - {id}
            && (t.order == q.order || t.order == q.order + [id])
  {
  }

  lemma EnqueueKeeps(q: Queue, op: Op)
    requires QueueInv(q)
    ensures QueueInv(AfterEnqueue(q, op))
  {
    if op.id !in q.entries {
      DistinctAppend(q.order, op.id);
    }
  }

  lemma TakeKeeps(q: Queue)
    requires QueueInv(q) && CanTake(q)
    ensures QueueInv(AfterTake(q)) && TakenId(q) !in q.backup
    ensures forall id :: id in q.order[1..] <==> id in q.order && id != TakenId(q)
  {
    var id := q.order[0];
    forall x
      ensures x in q.order[1..] <==> x in q.order && x != id
    {
      if x in q.order && x != id {
        var i :| 0 <= i < |q.order| && q.order[i] == x;
        assert q.order[1..][i - 1] == x;
      }
    }
  }

  lemma CallbackKeeps(q: Queue, id: Id)
    requires QueueInv(q) && (!q.closed ==> id in q.backup)
    ensures QueueInv(AfterCallback(q, id))
  {
    if !q.closed {
      DistinctAppend(q.order, id);
    }
  }
}
