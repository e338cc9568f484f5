/** The buffer under concurrent producers, one consumer, closing and reopening.

    A step is what happens under the buffer's lock, or a stretch of the consumer's own work:
    the scan touches only the entries it has read and the retry counters, which no one else
    uses, so producers may write between any two steps of the consumer. */
module WalSystem {
  import opened ByteStrings
  import opened WalBuffers

  /** An entry as enqueued. */
  datatype Item = Item(data: Bytes, count: Uint32)

  function Raw(item: Item): Bytes {
    PrependItemCount(item.count, item.data)
  }

  function Raws(items: seq<Item>): seq<Bytes> {
    seq(|items|, i requires 0 <= i < |items| => Raw(items[i]))
  }

  function ItemsOf(data: seq<Bytes>, counts: seq<Uint32>): seq<Item> {
    seq(|data|, i requires 0 <= i < |data| => Item(data[i], if i < |counts| then counts[i] else 0))
  }

  /** What happened to the retry counter of an entry. */
  datatype Event = Failed(indices: set<nat>) | Succeeded(indices: set<nat>) | Gone(indices: set<nat>) | Reset

  /** A call that truncated the log: what became of each entry, what Merge answered for it, had it
      been asked, and whether Execute ran and succeeded. */
  datatype Removal = Removal(fates: seq<Fate>, merges: seq<bool>, executed: bool)

  /** The state.  `merges` is what Merge answers for the entries of the window being worked on.
      The last three fields are histories: everything ever enqueued, the calls that removed
      entries, and what happened to the retry counters. */
  datatype Sys = Sys(buffer: Buffer, phase: Phase, merges: seq<bool>, history: seq<Item>, removals: seq<Removal>, events: seq<Event>)

  function Init(maxRetries: int): Sys {
    Sys(Buffer(Log(1, []), false, 0, map[], maxRetries), Idle, [], [], [], [])
  }

  datatype Step =
    | Produce(data: seq<Bytes>, counts: seq<Uint32>, ioOk: bool)
    | Begin(max: nat, merge: nat -> bool)
    | Execute(ok: bool)
    | Truncate(ioOk: bool)
    | Close
    | Reopen

  predicate Enabled(s: Sys, step: Step) {
    match step
    case Begin(_, _) => s.phase == Idle
    case Execute(_) => s.phase.Executing?
    case Truncate(_) =>
      s.phase.Truncating? && s.buffer.log.first <= s.phase.first + |s.phase.fates| <= s.buffer.log.first + |s.buffer.log.entries|
    case _ => true
  }

  function DiscardedIndices(fates: seq<Fate>, first: nat): set<nat> {
    set k | 0 <= k < |fates| && fates[k].Discarded? :: first + k
  }

  /** The entries whose counters the scan of a call cleared. */
  function ScanDiscards(b: Buffer, max: nat, merge: nat -> bool): set<nat> {
    if b.closed || b.log.FirstIndex() == 0 || b.log.FirstIndex() > b.log.Last() then {}
    else DiscardedIndices(ScanWindow(b.log.ReadFirst(max), b.log.first, b.attempts, b.maxRetries, merge).fates, b.log.first)
  }

  function Next(s: Sys, step: Step): Sys
    requires Enabled(s, step)
  {
    match step
    case Produce(data, counts, ioOk) =>
      if s.buffer.closed || !ioOk then s
      else s.(buffer := AfterEnqueue(s.buffer, data, counts), history := s.history + ItemsOf(data, counts))
    case Begin(max, merge) =>
      var (b, p) := BeginDequeue(s.buffer, max, merge);
      s.(buffer := b, phase := p,
         merges := if p == Idle then [] else seq(|p.fates|, k requires k >= 0 => merge(k)),
         events := s.events + [Gone(ScanDiscards(s.buffer, max, merge))])
    case Execute(ok) =>
      var (b, p) := EndExecute(s.buffer, s.phase, ok);
      var indices := MergedIndices(s.phase.fates, s.phase.first);
      s.(buffer := b, phase := p, events := s.events + [if ok then Succeeded(indices) else Failed(indices)])
    case Truncate(ioOk) =>
      s.(buffer := EndTruncate(s.buffer, s.phase, ioOk),
         phase := Idle,
         removals := if s.buffer.closed || !ioOk then s.removals else s.removals + [Removal(s.phase.fates, s.merges, s.phase.executed)])
    case Close => s.(buffer := s.buffer.(closed := true))
    case Reopen =>
      s.(buffer := Buffer(s.buffer.log, false, HeaderSum(s.buffer.log.entries), map[], s.buffer.maxRetries), phase := Idle, events := s.events + [Reset])
  }

  ghost predicate IsRun(s: Sys, steps: seq<Step>)
    decreases |steps|
  {
    steps == [] || (Enabled(s, steps[0]) && IsRun(Next(s, steps[0]), steps[1..]))
  }

  ghost function RunFrom(s: Sys, steps: seq<Step>): Sys
    requires IsRun(s, steps)
    decreases |steps|
  {
    if steps == [] then s else RunFrom(Next(s, steps[0]), steps[1..])
  }

  /** The fates of all removed entries, from the first one ever enqueued. */
  function Removed(removals: seq<Removal>): seq<Fate> {
    if removals == [] then [] else Removed(removals[..|removals| - 1]) + removals[|removals| - 1].fates
  }

  function AfterEvent(e: Event, index: nat, failures: nat): nat {
    match e
    case Failed(indices) => failures + if index in indices then 1 else 0
    case Succeeded(indices) => if index in indices then 0 else failures
    case Gone(indices) => if index in indices then 0 else failures
    case Reset => 0
  }

  /** How often Execute failed for an entry since its counter was last cleared, read off the
      events. */
  function FailuresSinceCleared(events: seq<Event>, index: nat): nat {
    if events == [] then 0
    else AfterEvent(events[|events| - 1], index, FailuresSinceCleared(events[..|events| - 1], index))
  }

  // ----- The invariant

  /** The live log is what was enqueued minus what was removed. */
  ghost predicate LogInv(s: Sys) {
    && s.buffer.log.first == 1 + |Removed(s.removals)|
    && |Removed(s.removals)| <= |s.history|
    && s.buffer.log.entries == Raws(s.history[|Removed(s.removals)|..])
  }

  ghost predicate CountInv(s: Sys) {
    s.buffer.itemCount == HeaderSum(s.buffer.log.entries)
  }

  /** A fate an entry can have: a tombstone is a one-byte zero payload; a discarded entry has
      used up its retries; a merged entry was passed on as stripped. */
  ghost predicate FateRight(fate: Fate, item: Item, maxRetries: int) {
    match fate
    case Tombstone => item.data == [0]
    case Discarded(attempts) => maxRetries != 0 && attempts >= maxRetries && (maxRetries > 0 ==> attempts == maxRetries) && item.data != [0]
    case Merged(payload) => payload == StripItemCount(Raw(item)) && item.data != [0]
  }

  /** Every entry taken as merged is one for which Merge returned no error. */
  ghost predicate MergesRight(fates: seq<Fate>, merges: seq<bool>) {
    |merges| == |fates| && forall k :: 0 <= k < |fates| && fates[k].Merged? ==> merges[k]
  }

  ghost predicate RemovedInv(s: Sys) {
    && (forall k :: 0 <= k < |Removed(s.removals)| && k < |s.history| ==> FateRight(Removed(s.removals)[k], s.history[k], s.buffer.maxRetries))
    && (forall i :: 0 <= i < |s.removals| ==> (AnyMerged(s.removals[i].fates) <==> s.removals[i].executed))
    && (forall i :: 0 <= i < |s.removals| ==> MergesRight(s.removals[i].fates, s.removals[i].merges))
  }

  /** What the consumer holds while it is busy: a scan of the entries at the front of the log. */
  ghost predicate PhaseInv(s: Sys) {
    s.phase != Idle ==>
      && s.phase.first == s.buffer.log.first
      && |s.phase.fates| <= |s.buffer.log.entries|
      && s.phase.deduct == HeaderSum(s.buffer.log.entries[..|s.phase.fates|])
      && |Removed(s.removals)| + |s.phase.fates| <= |s.history|
      && (forall k :: 0 <= k < |s.phase.fates| && |Removed(s.removals)| + k < |s.history| ==>
            FateRight(s.phase.fates[k], s.history[|Removed(s.removals)| + k], s.buffer.maxRetries))
      && (s.phase.Executing? ==> AnyMerged(s.phase.fates))
      && (s.phase.Truncating? ==> (AnyMerged(s.phase.fates) <==> s.phase.executed))
      && MergesRight(s.phase.fates, s.merges)
  }

  /** Counters belong to live entries that are no tombstones and stay between 1 and the
      retry limit. */
  ghost predicate CountersInv(attempts: map<nat, nat>, log: Log, maxRetries: int) {
    && (forall i :: i in attempts ==>
          && log.first <= i < log.first + |log.entries| && attempts[i] >= 1
          && !IsTombstone(StripItemCount(log.entries[i - log.first])))
    && (maxRetries > 0 ==> forall i :: i in attempts ==> attempts[i] <= maxRetries)
    && (maxRetries < 0 ==> attempts == map[])
  }

  /** A counter is the number of failures since it was cleared, one more during an Execute. */
  ghost predicate FailuresInv(attempts: map<nat, nat>, events: seq<Event>, underWay: set<nat>) {
    forall i :: AttemptsOf(attempts, i) == FailuresSinceCleared(events, i) + if i in underWay then 1 else 0
  }

  function UnderWay(p: Phase): set<nat> {
    if p.Executing? then MergedIndices(p.fates, p.first) else {}
  }

  /** Inside the consumer's window only the merged entries have counters, and none are left
      when it is about to be truncated. */
  ghost predicate WindowInv(attempts: map<nat, nat>, p: Phase) {
    && (p.Truncating? ==> forall i :: i in attempts ==> i >= p.first + |p.fates|)
    && (p.Executing? ==> forall i :: i in attempts && i < p.first + |p.fates| ==> i in MergedIndices(p.fates, p.first))
  }

  ghost predicate AttemptsInv(s: Sys) {
    && CountersInv(s.buffer.attempts, s.buffer.log, s.buffer.maxRetries)
    && FailuresInv(s.buffer.attempts, s.events, UnderWay(s.phase))
    && WindowInv(s.buffer.attempts, s.phase)
  }

  ghost predicate Inv(s: Sys) {
    LogInv(s) && CountInv(s) && RemovedInv(s) && PhaseInv(s) && AttemptsInv(s)
  }

  // ----- Histories

  lemma {:induction false} EncodeAt(data: seq<Bytes>, counts: seq<Uint32>, n: nat)
    requires n <= |data|
    ensures |Encode(data, counts, n)| == n
    ensures forall i :: 0 <= i < n ==> Encode(data, counts, n)[i] == Raw(ItemsOf(data, counts)[i])
  {
    if n > 0 {
      EncodeAt(data, counts, n - 1);
    }
  }

  lemma ProducedEntries(data: seq<Bytes>, counts: seq<Uint32>)
    ensures Encode(data, counts, |data|) == Raws(ItemsOf(data, counts))
  {
    EncodeAt(data, counts, |data|);
  }

  lemma RawsAppend(a: seq<Item>, b: seq<Item>)
    ensures Raws(a + b) == Raws(a) + Raws(b)
  {
  }

  lemma RemovedOneMore(removals: seq<Removal>, r: Removal)
    ensures Removed(removals + [r]) == Removed(removals) + r.fates
  {
    assert (removals + [r])[..|removals|] == removals;
  }

  lemma FailuresOneMore(events: seq<Event>, e: Event, i: nat)
    ensures FailuresSinceCleared(events + [e], i) == AfterEvent(e, i, FailuresSinceCleared(events, i))
  {
    assert (events + [e])[..|events|] == events;
  }

  lemma TombstoneIsZeroByte(item: Item)
    ensures IsTombstone(StripItemCount(Raw(item))) <==> item.data == [0]
  {
    assert item.data != [] ==> Raw(item)[4..] == item.data;
  }

  // ----- Producers

  lemma ProduceLog(s: Sys, data: seq<Bytes>, counts: seq<Uint32>)
    requires LogInv(s)
    ensures LogInv(Next(s, Produce(data, counts, true)))
  {
    if !s.buffer.closed {
      var items := ItemsOf(data, counts);
      var n := |Removed(s.removals)|;
      ProducedEntries(data, counts);
      hide Raws, Encode, Removed, HeaderSum;
      assert (s.history + items)[n..] == s.history[n..] + items;
      RawsAppend(s.history[n..], items);
    }
  }

  lemma ProduceCount(s: Sys, data: seq<Bytes>, counts: seq<Uint32>)
    requires CountInv(s)
    ensures CountInv(Next(s, Produce(data, counts, true)))
  {
    hide Encode, HeaderSum;
    HeaderSumAppend(s.buffer.log.entries, Encode(data, counts, |data|));
  }

  lemma ProducePhase(s: Sys, t: Sys, added: seq<Bytes>)
    requires PhaseInv(s) && s.history <= t.history
    requires t == s.(history := t.history, buffer := t.buffer) && t.buffer.maxRetries == s.buffer.maxRetries
    requires t.buffer.log == s.buffer.log.(entries := s.buffer.log.entries + added)
    ensures PhaseInv(t)
  {
    hide HeaderSum, FateRight, Removed;
    if s.phase != Idle {
      assert t.buffer.log.entries[..|s.phase.fates|] == s.buffer.log.entries[..|s.phase.fates|];
      assert forall k :: 0 <= k < |s.history| ==> t.history[k] == s.history[k];
    }
  }

  lemma ProduceCounters(attempts: map<nat, nat>, log: Log, added: seq<Bytes>, maxRetries: int)
    requires CountersInv(attempts, log, maxRetries)
    ensures CountersInv(attempts, log.(entries := log.entries + added), maxRetries)
  {
    hide IsTombstone, StripItemCount;
  }

  lemma ProduceRemoved(s: Sys, t: Sys)
    requires LogInv(s) && RemovedInv(s) && s.history <= t.history && t.removals == s.removals && t.buffer.maxRetries == s.buffer.maxRetries
    ensures RemovedInv(t)
  {
    hide FateRight, Removed, Raws;
    assert forall k :: 0 <= k < |s.history| ==> t.history[k] == s.history[k];
  }

  lemma ProduceStep(s: Sys, data: seq<Bytes>, counts: seq<Uint32>, ioOk: bool)
    requires Inv(s)
    ensures Inv(Next(s, Produce(data, counts, ioOk)))
  {
    hide LogInv, CountInv, RemovedInv, PhaseInv, CountersInv, FailuresInv, WindowInv, Encode, HeaderSum;
    if !s.buffer.closed && ioOk {
      var t := Next(s, Produce(data, counts, ioOk));
      ProduceLog(s, data, counts);
      ProduceCount(s, data, counts);
      ProduceRemoved(s, t);
      ProducePhase(s, t, Encode(data, counts, |data|));
      ProduceCounters(s.buffer.attempts, s.buffer.log, Encode(data, counts, |data|), s.buffer.maxRetries);
    }
  }

  // ----- The consumer begins

  /** The entries of a window, as they were enqueued. */
  lemma WindowEntries(s: Sys, max: nat)
    requires LogInv(s)
    ensures var window := s.buffer.log.ReadFirst(max);
            && |window| <= |s.buffer.log.entries| && window == s.buffer.log.entries[..|window|]
            && |Removed(s.removals)| + |window| <= |s.history|
            && forall k :: 0 <= k < |window| ==> window[k] == Raw(s.history[|Removed(s.removals)| + k])
  {
    var n := |Removed(s.removals)|;
    assert |s.buffer.log.entries| == |s.history[n..]|;
    forall k | 0 <= k < |s.buffer.log.entries|
      ensures s.buffer.log.entries[k] == Raw(s.history[n + k])
    {
      assert s.buffer.log.entries[k] == Raw(s.history[n..][k]);
    }
  }

  lemma FateIsRight(item: Item, index: nat, attempts: map<nat, nat>, log: Log, maxRetries: int)
    requires CountersInv(attempts, log, maxRetries)
    ensures FateRight(FateOf(Raw(item), index, attempts, maxRetries), item, maxRetries)
  {
    TombstoneIsZeroByte(item);
  }

  /** The counters after a scan, apart from those the scan cleared, are what they were. */
  lemma ScanCounters(sc: Scan, window: seq<Bytes>, first: nat, attempts: map<nat, nat>, maxRetries: int, i: nat)
    requires ScanRight(sc, window, first, attempts, maxRetries)
    ensures AttemptsOf(sc.attempts, i) == if i in DiscardedIndices(sc.fates, first) then 0 else AttemptsOf(attempts, i)
    ensures i in DiscardedIndices(sc.fates, first) <==> first <= i < first + |sc.fates| && sc.fates[i - first].Discarded?
  {
    if first <= i < first + |sc.fates| && sc.fates[i - first].Discarded? {
      var k := i - first;
      assert sc.fates[k].Discarded? && first + k == i;
    }
  }

  lemma ScanFailures(sc: Scan, window: seq<Bytes>, first: nat, attempts: map<nat, nat>, maxRetries: int, events: seq<Event>)
    requires ScanRight(sc, window, first, attempts, maxRetries) && FailuresInv(attempts, events, {})
    ensures FailuresInv(sc.attempts, events + [Gone(DiscardedIndices(sc.fates, first))], {})
  {
    var e := Gone(DiscardedIndices(sc.fates, first));
    forall i
      ensures AttemptsOf(sc.attempts, i) == FailuresSinceCleared(events + [e], i)
    {
      ScanCounters(sc, window, first, attempts, maxRetries, i);
      FailuresOneMore(events, e, i);
    }
  }

  lemma ScanKeepsCounters(sc: Scan, window: seq<Bytes>, log: Log, attempts: map<nat, nat>, maxRetries: int)
    requires ScanRight(sc, window, log.first, attempts, maxRetries) && CountersInv(attempts, log, maxRetries)
    ensures CountersInv(sc.attempts, log, maxRetries)
  {
    hide StripItemCount, IsTombstone, FateOf, HeaderSum;
    if maxRetries < 0 {
      assert forall i :: i !in sc.attempts;
    }
  }

  lemma MergedIndexAt(fates: seq<Fate>, first: nat, i: nat)
    ensures i in MergedIndices(fates, first) <==> first <= i < first + |fates| && fates[i - first].Merged?
  {
    if first <= i < first + |fates| && fates[i - first].Merged? {
      var k := i - first;
      assert fates[k].Merged? && first + k == i;
    }
  }

  /** A merged entry is live, no tombstone, and has a retry left. */
  ghost predicate MayCount(i: nat, attempts: map<nat, nat>, log: Log, maxRetries: int) {
    && log.first <= i < log.first + |log.entries|
    && !IsTombstone(StripItemCount(log.entries[i - log.first]))
    && (maxRetries == 0 || AttemptsOf(attempts, i) < maxRetries)
  }

  lemma MergedMayCount(sc: Scan, window: seq<Bytes>, log: Log, attempts: map<nat, nat>, maxRetries: int, i: nat)
    requires ScanRight(sc, window, log.first, attempts, maxRetries)
    requires |window| <= |log.entries| && window == log.entries[..|window|]
    requires i in MergedIndices(sc.fates, log.first)
    ensures MayCount(i, sc.attempts, log, maxRetries)
  {
    MergedIndexAt(sc.fates, log.first, i);
    ScanCounters(sc, window, log.first, attempts, maxRetries, i);
    hide StripItemCount, IsTombstone, HeaderSum;
    var k := i - log.first;
    assert sc.fates[k] == FateOf(window[k], log.first + k, attempts, maxRetries);
    assert window[k] == log.entries[k];
  }

  lemma IncrementCounters(attempts: map<nat, nat>, merged: set<nat>, log: Log, maxRetries: int)
    requires CountersInv(attempts, log, maxRetries)
    requires forall i :: i in merged ==> MayCount(i, attempts, log, maxRetries)
    ensures CountersInv(Increment(attempts, merged), log, maxRetries)
  {
    hide StripItemCount, IsTombstone;
    if maxRetries < 0 {
      assert forall i :: i !in Increment(attempts, merged);
    }
  }

  /** Incrementing the counters of the merged entries keeps them within the limit. */
  lemma IncrementKeepsCounters(sc: Scan, window: seq<Bytes>, log: Log, attempts: map<nat, nat>, maxRetries: int)
    requires ScanRight(sc, window, log.first, attempts, maxRetries) && CountersInv(attempts, log, maxRetries)
    requires |window| <= |log.entries| && window == log.entries[..|window|]
    ensures CountersInv(Increment(sc.attempts, MergedIndices(sc.fates, log.first)), log, maxRetries)
  {
    hide CountersInv, MayCount, Increment, MergedIndices, ScanRight;
    ScanKeepsCounters(sc, window, log, attempts, maxRetries);
    forall i | i in MergedIndices(sc.fates, log.first)
      ensures MayCount(i, sc.attempts, log, maxRetries)
    {
      MergedMayCount(sc, window, log, attempts, maxRetries, i);
    }
    IncrementCounters(sc.attempts, MergedIndices(sc.fates, log.first), log, maxRetries);
  }

  lemma IncrementFailures(attempts: map<nat, nat>, events: seq<Event>, merged: set<nat>)
    requires FailuresInv(attempts, events, {})
    ensures FailuresInv(Increment(attempts, merged), events, merged)
  {
    forall i
      ensures AttemptsOf(Increment(attempts, merged), i) == AttemptsOf(attempts, i) + if i in merged then 1 else 0
    {
    }
  }

  /** After the scan, the counters left in the window belong to merged entries. */
  lemma LeftCounterIsMerged(sc: Scan, window: seq<Bytes>, log: Log, attempts: map<nat, nat>, maxRetries: int, i: nat)
    requires ScanRight(sc, window, log.first, attempts, maxRetries) && CountersInv(attempts, log, maxRetries)
    requires |window| <= |log.entries| && window == log.entries[..|window|]
    requires i in sc.attempts && i < log.first + |sc.fates|
    ensures i in MergedIndices(sc.fates, log.first)
  {
    MergedIndexAt(sc.fates, log.first, i);
    hide StripItemCount, HeaderSum, MergedIndices;
    assert i in attempts;
    var k := i - log.first;
    assert sc.fates[k] == FateOf(window[k], log.first + k, attempts, maxRetries);
    assert window[k] == log.entries[k];
  }

  lemma ScanWindowInv(sc: Scan, window: seq<Bytes>, log: Log, attempts: map<nat, nat>, maxRetries: int)
    requires ScanRight(sc, window, log.first, attempts, maxRetries) && CountersInv(attempts, log, maxRetries)
    requires |window| <= |log.entries| && window == log.entries[..|window|]
    ensures forall i :: i in sc.attempts && i < log.first + |sc.fates| ==> i in MergedIndices(sc.fates, log.first)
  {
    hide ScanRight, CountersInv, MergedIndices;
    forall i | i in sc.attempts && i < log.first + |sc.fates|
      ensures i in MergedIndices(sc.fates, log.first)
    {
      LeftCounterIsMerged(sc, window, log, attempts, maxRetries, i);
    }
  }

  lemma ScanFatesRight(s: Sys, window: seq<Bytes>, sc: Scan)
    requires ScanRight(sc, window, s.buffer.log.first, s.buffer.attempts, s.buffer.maxRetries)
    requires CountersInv(s.buffer.attempts, s.buffer.log, s.buffer.maxRetries)
    requires |Removed(s.removals)| + |window| <= |s.history|
    requires forall k :: 0 <= k < |window| ==> window[k] == Raw(s.history[|Removed(s.removals)| + k])
    ensures forall k :: 0 <= k < |sc.fates| ==> FateRight(sc.fates[k], s.history[|Removed(s.removals)| + k], s.buffer.maxRetries)
  {
    hide CountersInv, StripItemCount, IsTombstone, HeaderSum, Removed, FateRight, FateOf, Raw;
    forall k | 0 <= k < |sc.fates|
      ensures FateRight(sc.fates[k], s.history[|Removed(s.removals)| + k], s.buffer.maxRetries)
    {
      FateIsRight(s.history[|Removed(s.removals)| + k], s.buffer.log.first + k, s.buffer.attempts, s.buffer.log, s.buffer.maxRetries);
      assert window[k] == Raw(s.history[|Removed(s.removals)| + k]);
    }
  }

  /** Beginning a dequeue changes the counters only. */
  lemma BeginShape(s: Sys, max: nat, merge: nat -> bool)
    requires s.phase == Idle
    ensures var t := Next(s, Begin(max, merge));
            && t == s.(buffer := s.buffer.(attempts := t.buffer.attempts), phase := t.phase, merges := t.merges, events := t.events)
            && (t.phase != Idle ==> |t.merges| == |t.phase.fates| && forall k :: 0 <= k < |t.merges| ==> t.merges[k] == merge(k))
            && (t.phase != Idle ==>
                  var sc := ScanWindow(s.buffer.log.ReadFirst(max), s.buffer.log.first, s.buffer.attempts, s.buffer.maxRetries, merge);
                  && !sc.failed && t.phase.first == s.buffer.log.first && t.phase.fates == sc.fates && t.phase.deduct == sc.deduct
                  && (t.phase.Executing? <==> AnyMerged(sc.fates))
                  && (t.phase.Truncating? ==> !t.phase.executed))
  {
    hide ScanWindow, MergedIndices, Increment, ScanDiscards;
  }

  lemma ScanComplete(sc: Scan, window: seq<Bytes>, first: nat, attempts: map<nat, nat>, maxRetries: int)
    requires ScanRight(sc, window, first, attempts, maxRetries) && !sc.failed
    ensures |sc.fates| == |window| && sc.deduct == HeaderSum(window)
  {
  }

  lemma BeginPhase(s: Sys, max: nat, merge: nat -> bool)
    requires LogInv(s) && CountersInv(s.buffer.attempts, s.buffer.log, s.buffer.maxRetries) && s.phase == Idle
    ensures PhaseInv(Next(s, Begin(max, merge)))
  {
    hide LogInv, CountersInv, ScanRight, ScanWindow, HeaderSum, Removed, FateRight, Raw, AnyMerged;
    var t := Next(s, Begin(max, merge));
    BeginShape(s, max, merge);
    hide Next;
    if t.phase != Idle {
      var window := s.buffer.log.ReadFirst(max);
      var sc := ScanWindow(window, s.buffer.log.first, s.buffer.attempts, s.buffer.maxRetries, merge);
      ScanFates(window, s.buffer.log.first, s.buffer.attempts, s.buffer.maxRetries, merge);
      ScanStopsExactly(window, s.buffer.log.first, s.buffer.attempts, s.buffer.maxRetries, merge);
      ScanComplete(sc, window, s.buffer.log.first, s.buffer.attempts, s.buffer.maxRetries);
      WindowEntries(s, max);
      ScanFatesRight(s, window, sc);
    }
  }

  lemma GoneNothing(attempts: map<nat, nat>, events: seq<Event>)
    requires FailuresInv(attempts, events, {})
    ensures FailuresInv(attempts, events + [Gone({})], {})
  {
    forall i
      ensures AttemptsOf(attempts, i) == FailuresSinceCleared(events + [Gone({})], i)
    {
      FailuresOneMore(events, Gone({}), i);
    }
  }

  lemma BeginAttempts(s: Sys, max: nat, merge: nat -> bool)
    requires LogInv(s) && AttemptsInv(s) && s.phase == Idle
    ensures AttemptsInv(Next(s, Begin(max, merge)))
  {
    var b := s.buffer;
    var t := Next(s, Begin(max, merge));
    hide HeaderSum, Removed, StripItemCount, IsTombstone, CountersInv, FailuresInv, LogInv, ScanRight,
         FailuresSinceCleared, ScanWindow;
    if b.closed || b.log.FirstIndex() == 0 || b.log.FirstIndex() > b.log.Last() {
      GoneNothing(b.attempts, s.events);
    } else {
      var window := b.log.ReadFirst(max);
      var sc := ScanWindow(window, b.log.first, b.attempts, b.maxRetries, merge);
      ScanFates(window, b.log.first, b.attempts, b.maxRetries, merge);
      WindowEntries(s, max);
      ScanFailures(sc, window, b.log.first, b.attempts, b.maxRetries, s.events);
      ScanKeepsCounters(sc, window, b.log, b.attempts, b.maxRetries);
      ScanWindowInv(sc, window, b.log, b.attempts, b.maxRetries);
      if !sc.failed && AnyMerged(sc.fates) {
        var merged := MergedIndices(sc.fates, b.log.first);
        IncrementKeepsCounters(sc, window, b.log, b.attempts, b.maxRetries);
        IncrementFailures(sc.attempts, t.events, merged);
      } else if !sc.failed && AnyDiscarded(sc.fates) {
        forall i | i in sc.attempts
          ensures i >= b.log.first + |sc.fates|
        {
          MergedIndexAt(sc.fates, b.log.first, i);
        }
      }
    }
  }

  lemma BeginStep(s: Sys, max: nat, merge: nat -> bool)
    requires Inv(s) && Enabled(s, Begin(max, merge))
    ensures Inv(Next(s, Begin(max, merge)))
  {
    BeginPhase(s, max, merge);
    BeginAttempts(s, max, merge);
    BeginShape(s, max, merge);
    hide Next, PhaseInv, AttemptsInv, HeaderSum, Removed, FateRight, Raws;
  }

  // ----- Execute and truncate

  /** A failed Execute confirms the increments made before it; a successful one clears them. */
  lemma ExecuteFailures(attempts: map<nat, nat>, events: seq<Event>, merged: set<nat>, ok: bool)
    requires FailuresInv(attempts, events, merged)
    ensures FailuresInv(if ok then attempts - merged else attempts, events + [if ok then Succeeded(merged) else Failed(merged)], {})
  {
    hide FailuresSinceCleared;
    var e := if ok then Succeeded(merged) else Failed(merged);
    forall i
      ensures AttemptsOf(if ok then attempts - merged else attempts, i) == FailuresSinceCleared(events + [e], i)
    {
      FailuresOneMore(events, e, i);
    }
  }

  lemma ForgetKeepsCounters(attempts: map<nat, nat>, indices: set<nat>, log: Log, maxRetries: int)
    requires CountersInv(attempts, log, maxRetries)
    ensures CountersInv(attempts - indices, log, maxRetries)
  {
    hide IsTombstone, StripItemCount;
    if maxRetries < 0 {
      assert forall i :: i !in attempts - indices;
    }
  }

  lemma ExecuteAttempts(s: Sys, ok: bool)
    requires AttemptsInv(s) && Enabled(s, Execute(ok))
    ensures AttemptsInv(Next(s, Execute(ok)))
  {
    var merged := MergedIndices(s.phase.fates, s.phase.first);
    hide CountersInv, FailuresInv, FailuresSinceCleared, MergedIndices;
    ExecuteFailures(s.buffer.attempts, s.events, merged, ok);
    ForgetKeepsCounters(s.buffer.attempts, merged, s.buffer.log, s.buffer.maxRetries);
  }

  lemma ExecuteStep(s: Sys, ok: bool)
    requires Inv(s) && Enabled(s, Execute(ok))
    ensures Inv(Next(s, Execute(ok)))
  {
    ExecuteAttempts(s, ok);
    hide AttemptsInv, HeaderSum, Removed, FateRight;
  }

  lemma RawsFrom(items: seq<Item>, n: nat, m: nat)
    requires n + m <= |items|
    ensures Raws(items[n..])[m..] == Raws(items[n + m..])
  {
    assert items[n..][m..] == items[n + m..];
  }

  lemma TruncateCount(s: Sys)
    requires CountInv(s) && PhaseInv(s) && Enabled(s, Truncate(true)) && !s.buffer.closed
    ensures CountInv(Next(s, Truncate(true)))
  {
    var m := |s.phase.fates|;
    hide HeaderSum, Removed, FateRight, AnyMerged;
    assert s.buffer.log.entries == s.buffer.log.entries[..m] + s.buffer.log.entries[m..];
    HeaderSumAppend(s.buffer.log.entries[..m], s.buffer.log.entries[m..]);
  }

  lemma TruncateLog(s: Sys)
    requires LogInv(s) && PhaseInv(s) && Enabled(s, Truncate(true)) && !s.buffer.closed
    ensures LogInv(Next(s, Truncate(true)))
  {
    RemovedOneMore(s.removals, Removal(s.phase.fates, s.merges, s.phase.executed));
    RawsFrom(s.history, |Removed(s.removals)|, |s.phase.fates|);
    hide HeaderSum, Removed, FateRight, Raws, AnyMerged;
  }

  lemma TruncateRemoved(s: Sys)
    requires LogInv(s) && RemovedInv(s) && PhaseInv(s) && Enabled(s, Truncate(true)) && !s.buffer.closed
    ensures RemovedInv(Next(s, Truncate(true)))
  {
    var t := Next(s, Truncate(true));
    RemovedOneMore(s.removals, Removal(s.phase.fates, s.merges, s.phase.executed));
    hide HeaderSum, Removed, FateRight, Raws, LogInv;
    assert t.history == s.history && t.buffer.maxRetries == s.buffer.maxRetries;
    forall i | 0 <= i < |t.removals|
      ensures AnyMerged(t.removals[i].fates) <==> t.removals[i].executed
    {
      assert i < |s.removals| ==> t.removals[i] == s.removals[i];
    }
  }

  lemma TruncateAttempts(s: Sys)
    requires AttemptsInv(s) && PhaseInv(s) && Enabled(s, Truncate(true))
    ensures AttemptsInv(Next(s, Truncate(true)))
  {
    hide IsTombstone, StripItemCount, HeaderSum, Removed, FateRight, FailuresSinceCleared;
    var t := Next(s, Truncate(true));
    if !s.buffer.closed {
      var m := |s.phase.fates|;
      forall i | i in t.buffer.attempts
        ensures t.buffer.log.first <= i < t.buffer.log.first + |t.buffer.log.entries|
        ensures t.buffer.log.entries[i - t.buffer.log.first] == s.buffer.log.entries[i - s.buffer.log.first]
      {
      }
    }
  }

  lemma TruncateStep(s: Sys, ioOk: bool)
    requires Inv(s) && Enabled(s, Truncate(ioOk))
    ensures Inv(Next(s, Truncate(ioOk)))
  {
    hide HeaderSum, Removed, FateRight, FailuresSinceCleared, CountersInv, FailuresInv;
    if ioOk && !s.buffer.closed {
      TruncateLog(s);
      TruncateCount(s);
      TruncateRemoved(s);
      TruncateAttempts(s);
      hide AttemptsInv, LogInv, CountInv, RemovedInv;
    }
  }

  lemma ReopenStep(s: Sys)
    requires Inv(s)
    ensures Inv(Next(s, Reopen))
  {
    hide HeaderSum, Removed, FateRight;
    forall i
      ensures FailuresSinceCleared(s.events + [Reset], i) == 0
    {
      FailuresOneMore(s.events, Reset, i);
    }
  }

  lemma StepKeepsInv(s: Sys, step: Step)
    requires Inv(s) && Enabled(s, step)
    ensures Inv(Next(s, step))
  {
    hide HeaderSum, Removed, FateRight, FailuresSinceCleared, CountersInv, FailuresInv;
    match step
    case Produce(data, counts, ioOk) => ProduceStep(s, data, counts, ioOk);
    case Begin(max, merge) => BeginStep(s, max, merge);
    case Execute(ok) => ExecuteStep(s, ok);
    case Truncate(ioOk) => TruncateStep(s, ioOk);
    case Close =>
    case Reopen => ReopenStep(s);
  }

  lemma InitInv(maxRetries: int)
    ensures Inv(Init(maxRetries))
  {
  }

  /** Every state of every run satisfies the invariant. */
  lemma {:induction false} RunKeepsInv(s: Sys, steps: seq<Step>)
    requires Inv(s) && IsRun(s, steps)
    ensures Inv(RunFrom(s, steps))
    decreases |steps|
  {
    hide Inv, Next, Enabled;
    if steps != [] {
      StepKeepsInv(s, steps[0]);
      RunKeepsInv(Next(s, steps[0]), steps[1..]);
    }
  }
}
