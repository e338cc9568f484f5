/** What the write-ahead-log buffer guarantees over every run with one consumer. */
module WalTheorems {
  import opened ByteStrings
  import opened WalBuffers
  import opened WalSystem

  ghost predicate Reachable(s: Sys) {
    exists maxRetries: int, steps: seq<Step> :: IsRun(Init(maxRetries), steps) && RunFrom(Init(maxRetries), steps) == s
  }

  lemma ReachableInv(s: Sys)
    requires Reachable(s)
    ensures Inv(s)
  {
    hide Inv, IsRun, RunFrom;
    var maxRetries: int, steps: seq<Step> :| IsRun(Init(maxRetries), steps) && RunFrom(Init(maxRetries), steps) == s;
    InitInv(maxRetries);
    RunKeepsInv(Init(maxRetries), steps);
  }

  /** The items of a prefix of the history that were merged, in the order of enqueueing. */
  function MergedItems(items: seq<Item>, fates: seq<Fate>): seq<Item>
    requires |items| == |fates|
  {
    if items == [] then []
    else
      var k := |items| - 1;
      MergedItems(items[..k], fates[..k]) + if fates[k].Merged? then [items[k]] else []
  }

  /** Two payload lists agree where the enqueued payload is not empty. */
  ghost predicate PassedOn(payloads: seq<Bytes>, items: seq<Item>) {
    && |payloads| == |items|
    && forall i :: 0 <= i < |items| ==> (payloads[i] == items[i].data <==> items[i].data != [])
  }

  lemma {:induction false} PayloadsPassedOn(items: seq<Item>, fates: seq<Fate>, maxRetries: int)
    requires |items| == |fates|
    requires forall k :: 0 <= k < |fates| ==> FateRight(fates[k], items[k], maxRetries)
    ensures PassedOn(Payloads(fates), MergedItems(items, fates))
    decreases |items|
  {
    if items != [] {
      var k := |items| - 1;
      PayloadsPassedOn(items[..k], fates[..k], maxRetries);
      PayloadRoundTripExactly(items[k].count, items[k].data);
    }
  }

  /** The live log is always the enqueue history minus a prefix.  Every removed entry was, in
      the call that removed it, a one-byte zero tombstone, discarded with its retries used up,
      or merged, without an error from its Merge, into a batch whose Execute succeeded; and the
      merged payloads are, in enqueue order, the enqueued ones, byte for byte where they are not
      empty.  Execute was called by exactly the calls that merged something. */
  lemma RemovalsAreAccountedFor(s: Sys)
    requires Reachable(s)
    ensures var gone := Removed(s.removals);
            && |gone| <= |s.history|
            && s.buffer.log.first == 1 + |gone|
            && s.buffer.log.entries == Raws(s.history[|gone|..])
            && (forall k :: 0 <= k < |gone| ==> FateRight(gone[k], s.history[k], s.buffer.maxRetries))
            && (forall i :: 0 <= i < |s.removals| ==> (AnyMerged(s.removals[i].fates) <==> s.removals[i].executed))
            && (forall i :: 0 <= i < |s.removals| ==> MergesRight(s.removals[i].fates, s.removals[i].merges))
            && PassedOn(Payloads(gone), MergedItems(s.history[..|gone|], gone))
  {
    ReachableInv(s);
    var gone := Removed(s.removals);
    hide CountInv, PhaseInv, AttemptsInv, FateRight, Removed, Raws, AnyMerged, PassedOn;
    PayloadsPassedOn(s.history[..|gone|], gone, s.buffer.maxRetries);
  }

  /** The point the consumer truncates at is always within the log, whatever producers did
      since it read its window: a truncation is never out of range. */
  lemma TruncationIsInRange(s: Sys, ioOk: bool)
    requires Reachable(s) && s.phase.Truncating?
    ensures Enabled(s, Truncate(ioOk))
  {
    ReachableInv(s);
    hide CountInv, LogInv, RemovedInv, AttemptsInv, FateRight, Removed, HeaderSum, Reachable;
  }

  /** At every point the counter is the sum of the header counts of the live entries, so closing
      the buffer and opening the log again gives the same log and count, in an open buffer with
      no retry counters. */
  lemma CountSurvivesReopening(s: Sys)
    requires Reachable(s)
    ensures s.buffer.itemCount == HeaderSum(s.buffer.log.entries)
    ensures Next(Next(s, Close), Reopen).buffer == s.buffer.(closed := false, attempts := map[])
    ensures |Removed(s.removals)| <= |s.history|
    ensures s.buffer.itemCount == ItemSum(s.history[|Removed(s.removals)|..])
  {
    ReachableInv(s);
    hide PhaseInv, AttemptsInv, RemovedInv, Removed;
    HeaderSumOfRaws(s.history[|Removed(s.removals)|..]);
  }

  function ItemSum(items: seq<Item>): nat {
    if items == [] then 0 else ItemSum(items[..|items| - 1]) + items[|items| - 1].count
  }

  lemma {:induction false} HeaderSumOfRaws(items: seq<Item>)
    ensures HeaderSum(Raws(items)) == ItemSum(items)
    decreases |items|
  {
    if items != [] {
      var k := |items| - 1;
      assert Raws(items)[..k] == Raws(items[..k]);
      HeaderSumOfRaws(items[..k]);
      HeaderRoundTrip(items[k].count, items[k].data);
    }
  }

  /** Retry accounting in every reachable state: counters belong to live entries; between calls
      each is the number of failed Executes since it was last cleared and, with a retry limit
      R > 0, lies in 1..R.  An entry is therefore due for discarding exactly at R failures. */
  lemma RetriesAreCounted(s: Sys, index: nat)
    requires Reachable(s) && s.phase == Idle
    ensures AttemptsOf(s.buffer.attempts, index) == FailuresSinceCleared(s.events, index)
    ensures index in s.buffer.attempts ==> s.buffer.log.first <= index < s.buffer.log.first + |s.buffer.log.entries|
    ensures index in s.buffer.attempts <==> FailuresSinceCleared(s.events, index) > 0
    ensures s.buffer.maxRetries > 0 ==> FailuresSinceCleared(s.events, index) <= s.buffer.maxRetries
    ensures s.buffer.maxRetries > 0 ==>
      (ShouldDiscard(s.buffer.attempts, s.buffer.maxRetries, index) <==> FailuresSinceCleared(s.events, index) == s.buffer.maxRetries)
    ensures s.buffer.maxRetries == 0 ==> !ShouldDiscard(s.buffer.attempts, s.buffer.maxRetries, index)
  {
    ReachableInv(s);
    hide LogInv, CountInv, PhaseInv, RemovedInv, FailuresSinceCleared, IsTombstone, StripItemCount;
  }

  // ----- Whole calls

  ghost function AllMerge(): nat -> bool {
    k => true
  }

  ghost function NoneMerges(): nat -> bool {
    k => false
  }

  /** A call gets as far as reading a window. */
  predicate CanDequeue(b: Buffer) {
    b.log.first >= 1 && !b.closed && |b.log.entries| > 0
  }

  /** What producers add while the call runs. */
  function Produced(b: Buffer, more: seq<Bytes>): Buffer {
    b.(log := b.log.(entries := b.log.entries + more), itemCount := b.itemCount + HeaderSum(more))
  }

  ghost function WindowScan(b: Buffer, max: nat, merge: nat -> bool): Scan {
    ScanWindow(b.log.ReadFirst(max), b.log.first, b.attempts, b.maxRetries, merge)
  }

  lemma BeginInRange(b: Buffer, max: nat, merge: nat -> bool)
    ensures var (b1, p) := BeginDequeue(b, max, merge);
            b1.log == b.log && (p != Idle ==> p.first == b.log.first && |p.fates| <= |b.log.entries|)
  {
    ScanFates(b.log.ReadFirst(max), b.log.first, b.attempts, b.maxRetries, merge);
    hide ScanWindow, HeaderSum, FateOf, Increment, MergedIndices, AnyMerged, AnyDiscarded;
  }

  /** A whole `Dequeue`: the outcomes of Merge, Execute and truncation are given, and `more`
      is what producers add while it runs. */
  ghost function Call(b: Buffer, max: nat, merge: nat -> bool, executeOk: bool, ioOk: bool, more: seq<Bytes>): Buffer {
    BeginInRange(b, max, merge);
    var (b1, p) := BeginDequeue(b, max, merge);
    var b2 := Produced(b1, more);
    if p.Executing? then
      var (b3, q) := EndExecute(b2, p, executeOk);
      if q.Truncating? then EndTruncate(b3, q, ioOk) else b3
    else if p.Truncating? then EndTruncate(b2, p, ioOk)
    else b2
  }

  /** The call goes on to truncate its window. */
  ghost predicate Truncates(sc: Scan, executeOk: bool, ioOk: bool) {
    !sc.failed && (if AnyMerged(sc.fates) then executeOk else AnyDiscarded(sc.fates)) && ioOk
  }

  /** A call removes its whole window or nothing. */
  lemma CallRemovesWindow(b: Buffer, max: nat, merge: nat -> bool, executeOk: bool, ioOk: bool, more: seq<Bytes>)
    requires CanDequeue(b)
    ensures var t := Call(b, max, merge, executeOk, ioOk, more);
            if Truncates(WindowScan(b, max, merge), executeOk, ioOk) then t.log.first == b.log.first + |b.log.ReadFirst(max)|
            else t.log == Produced(b, more).log
  {
    ScanFates(b.log.ReadFirst(max), b.log.first, b.attempts, b.maxRetries, merge);
    assert !WindowScan(b, max, merge).failed ==> |WindowScan(b, max, merge).fates| == |b.log.ReadFirst(max)|;
    hide ScanRight, ScanWindow, HeaderSum, FateOf, Increment, MergedIndices, AnyMerged, AnyDiscarded;
  }

  lemma {:induction false} NoMergeFails(window: seq<Bytes>, first: nat, attempts: map<nat, nat>, maxRetries: int)
    ensures !ScanWindow(window, first, attempts, maxRetries, AllMerge()).failed
    decreases |window|
  {
    if window != [] {
      NoMergeFails(window[..|window| - 1], first, attempts, maxRetries);
    }
  }

  // ----- A window that keeps failing

  /** A call whose merges succeed, whose Execute fails and whose truncation, should it come to
      one, works. */
  ghost function FailingCall(b: Buffer, max: nat, more: seq<Bytes>): Buffer {
    Call(b, max, AllMerge(), false, true, more)
  }

  ghost function FailingCalls(b: Buffer, max: nat, more: seq<seq<Bytes>>): Buffer
    decreases |more|
  {
    if more == [] then b else FailingCalls(FailingCall(b, max, more[0]), max, more[1..])
  }

  /** Some entries of the window are no tombstones, and those share a counter. */
  ghost predicate SharedWindow(window: seq<Bytes>, first: nat, attempts: map<nat, nat>, count: nat) {
    && (forall k :: 0 <= k < |window| && !IsTombstone(StripItemCount(window[k])) ==> AttemptsOf(attempts, first + k) == count)
    && (exists k :: 0 <= k < |window| && !IsTombstone(StripItemCount(window[k])))
  }

  /** The next call gets as far as the window, whose entries share a counter. */
  ghost predicate SharedCount(b: Buffer, max: nat, count: nat) {
    && CanDequeue(b)
    && SharedWindow(b.log.ReadFirst(max), b.log.first, b.attempts, count)
  }

  /** Producers do not change the window: it is full, or they add nothing. */
  ghost predicate WindowFixed(b: Buffer, max: nat, more: seq<seq<Bytes>>) {
    max <= |b.log.entries| || forall i :: 0 <= i < |more| ==> more[i] == []
  }

  /** The fates of a window whose non-tombstone entries share a counter. */
  ghost predicate SharedFates(window: seq<Bytes>, fates: seq<Fate>, discard: bool) {
    && |fates| == |window|
    && forall k :: 0 <= k < |window| ==> SharedFate(window[k], fates[k], discard)
  }

  ghost predicate SharedFate(raw: Bytes, fate: Fate, discard: bool) {
    if IsTombstone(StripItemCount(raw)) then fate.Tombstone?
    else if discard then fate.Discarded?
    else fate.Merged?
  }

  lemma ScanShares(sc: Scan, window: seq<Bytes>, first: nat, attempts: map<nat, nat>, maxRetries: int, count: nat)
    requires maxRetries > 0 && ScanRight(sc, window, first, attempts, maxRetries) && !sc.failed
    requires SharedWindow(window, first, attempts, count)
    ensures SharedFates(window, sc.fates, count >= maxRetries)
  {
    hide HeaderSum, StripItemCount, IsTombstone, AttemptsOf;
    forall k | 0 <= k < |window|
      ensures SharedFate(window[k], sc.fates[k], count >= maxRetries)
    {
      assert sc.fates[k] == FateOf(window[k], first + k, attempts, maxRetries);
    }
  }

  lemma SharedOutcome(window: seq<Bytes>, fates: seq<Fate>, discard: bool)
    requires SharedFates(window, fates, discard) && exists k :: 0 <= k < |window| && !IsTombstone(StripItemCount(window[k]))
    ensures AnyMerged(fates) == !discard
    ensures discard ==> AnyDiscarded(fates)
  {
    hide StripItemCount, IsTombstone;
    var k :| 0 <= k < |window| && !IsTombstone(StripItemCount(window[k]));
    assert SharedFate(window[k], fates[k], discard);
    if discard {
      assert fates[k].Discarded?;
      forall j | 0 <= j < |fates|
        ensures !fates[j].Merged?
      {
        assert SharedFate(window[j], fates[j], discard);
      }
    } else {
      assert fates[k].Merged?;
    }
  }

  lemma WindowScanFates(b: Buffer, max: nat, count: nat)
    requires b.maxRetries > 0 && SharedCount(b, max, count)
    ensures var sc := WindowScan(b, max, AllMerge());
            var window := b.log.ReadFirst(max);
            && !sc.failed
            && ScanRight(sc, window, b.log.first, b.attempts, b.maxRetries)
            && SharedFates(window, sc.fates, count >= b.maxRetries)
            && AnyMerged(sc.fates) == (count < b.maxRetries)
            && (count >= b.maxRetries ==> AnyDiscarded(sc.fates))
  {
    var window := b.log.ReadFirst(max);
    NoMergeFails(window, b.log.first, b.attempts, b.maxRetries);
    ScanFates(window, b.log.first, b.attempts, b.maxRetries, AllMerge());
    hide ScanWindow, ScanRight, HeaderSum, StripItemCount, IsTombstone, SharedFates;
    ScanShares(WindowScan(b, max, AllMerge()), window, b.log.first, b.attempts, b.maxRetries, count);
    SharedOutcome(window, WindowScan(b, max, AllMerge()).fates, count >= b.maxRetries);
  }

  lemma FailingCallExecutes(b: Buffer, max: nat, more: seq<Bytes>)
    requires CanDequeue(b)
    requires var sc := WindowScan(b, max, AllMerge()); !sc.failed && AnyMerged(sc.fates)
    ensures var sc := WindowScan(b, max, AllMerge());
            FailingCall(b, max, more) == Produced(b, more).(attempts := Increment(sc.attempts, MergedIndices(sc.fates, b.log.first)))
  {
    hide ScanWindow, HeaderSum, Increment, MergedIndices, AnyMerged;
  }

  lemma CounterRaised(sc: Scan, window: seq<Bytes>, first: nat, attempts: map<nat, nat>, maxRetries: int, count: nat, k: nat)
    requires ScanRight(sc, window, first, attempts, maxRetries) && SharedFates(window, sc.fates, false)
    requires k < |window| && !IsTombstone(StripItemCount(window[k])) && AttemptsOf(attempts, first + k) == count
    ensures AttemptsOf(Increment(sc.attempts, MergedIndices(sc.fates, first)), first + k) == count + 1
  {
    assert SharedFate(window[k], sc.fates[k], false);
    MergedIndexAt(sc.fates, first, first + k);
    ScanCounters(sc, window, first, attempts, maxRetries, first + k);
    hide ScanRight, MergedIndices, DiscardedIndices, StripItemCount, IsTombstone;
  }

  lemma CountersRaised(sc: Scan, window: seq<Bytes>, first: nat, attempts: map<nat, nat>, maxRetries: int, count: nat)
    requires ScanRight(sc, window, first, attempts, maxRetries) && SharedFates(window, sc.fates, false)
    requires SharedWindow(window, first, attempts, count)
    ensures SharedWindow(window, first, Increment(sc.attempts, MergedIndices(sc.fates, first)), count + 1)
  {
    hide ScanRight, SharedFates, MergedIndices, Increment, StripItemCount, IsTombstone, AttemptsOf;
    forall k | 0 <= k < |window| && !IsTombstone(StripItemCount(window[k]))
      ensures AttemptsOf(Increment(sc.attempts, MergedIndices(sc.fates, first)), first + k) == count + 1
    {
      CounterRaised(sc, window, first, attempts, maxRetries, count, k);
    }
  }

  lemma WindowStays(log: Log, max: nat, more: seq<Bytes>)
    requires max <= |log.entries| || more == []
    ensures log.(entries := log.entries + more).ReadFirst(max) == log.ReadFirst(max)
  {
  }

  /** Below the limit a failing call raises the shared counter by one and removes nothing. */
  lemma FailingCallCounts(b: Buffer, max: nat, count: nat, more: seq<Bytes>)
    requires b.maxRetries > 0 && SharedCount(b, max, count) && count < b.maxRetries
    requires max <= |b.log.entries| || more == []
    ensures var t := FailingCall(b, max, more);
            && t.maxRetries == b.maxRetries && t.log == b.log.(entries := b.log.entries + more)
            && t.log.ReadFirst(max) == b.log.ReadFirst(max)
            && SharedCount(t, max, count + 1)
  {
    hide FailingCall, WindowScan, ScanRight, SharedFates, SharedWindow, AnyMerged, HeaderSum, Increment,
         MergedIndices;
    WindowScanFates(b, max, count);
    FailingCallExecutes(b, max, more);
    WindowStays(b.log, max, more);
    CountersRaised(WindowScan(b, max, AllMerge()), b.log.ReadFirst(max), b.log.first, b.attempts, b.maxRetries, count);
  }

  /** At the limit a call discards the whole window and truncates it away. */
  lemma FailingCallDiscards(b: Buffer, max: nat, more: seq<Bytes>)
    requires b.maxRetries > 0 && SharedCount(b, max, b.maxRetries)
    ensures FailingCall(b, max, more).log.first == b.log.first + |b.log.ReadFirst(max)|
  {
    WindowScanFates(b, max, b.maxRetries);
    hide Call, WindowScan, ScanRight, SharedFates, SharedWindow, AnyMerged, AnyDiscarded;
    CallRemovesWindow(b, max, AllMerge(), false, true, more);
  }

  lemma FailingCallsUnfold(b: Buffer, max: nat, more: seq<seq<Bytes>>)
    requires |more| > 1
    ensures FailingCalls(b, max, more) == FailingCalls(FailingCall(b, max, more[0]), max, more[1..])
    ensures FailingCalls(b, max, more[..|more| - 1]) == FailingCalls(FailingCall(b, max, more[0]), max, more[1..][..|more| - 2])
  {
    hide FailingCall;
    assert more[1..][..|more| - 2] == more[..|more| - 1][1..];
  }

  lemma OneFailingCall(b: Buffer, max: nat, more: seq<seq<Bytes>>)
    requires |more| == 1
    ensures FailingCalls(b, max, more) == FailingCall(b, max, more[0])
    ensures FailingCalls(b, max, more[..0]) == b
  {
    hide FailingCall;
    assert more[1..] == [] && more[..0] == [];
  }

  /** With R > 0, a fixed window whose entries that are no tombstones share the count `a` is
      still there after R - a failing calls and gone after one more. */
  lemma {:induction false} FailingWindowIsRemoved(b: Buffer, max: nat, a: nat, more: seq<seq<Bytes>>)
    requires b.maxRetries > 0 && a <= b.maxRetries && SharedCount(b, max, a)
    requires |more| == b.maxRetries - a + 1 && WindowFixed(b, max, more)
    ensures FailingCalls(b, max, more[..|more| - 1]).log.first == b.log.first
    ensures FailingCalls(b, max, more).log.first == b.log.first + |b.log.ReadFirst(max)|
    decreases |more|
  {
    hide FailingCall, FailingCalls, SharedCount;
    if a == b.maxRetries {
      OneFailingCall(b, max, more);
      FailingCallDiscards(b, max, more[0]);
    } else {
      FailingCallCounts(b, max, a, more[0]);
      FailingCallsUnfold(b, max, more);
      FailingWindowIsRemoved(FailingCall(b, max, more[0]), max, a + 1, more[1..]);
    }
  }

  // ----- Progress

  /** A window of tombstones alone is not truncated: a call changes nothing. */
  lemma TombstonesStay(b: Buffer, max: nat, merge: nat -> bool)
    requires forall k :: 0 <= k < |b.log.ReadFirst(max)| ==> IsTombstone(StripItemCount(b.log.ReadFirst(max)[k]))
    ensures BeginDequeue(b, max, merge) == (b, Idle)
  {
    var window := b.log.ReadFirst(max);
    var sc := ScanWindow(window, b.log.first, b.attempts, b.maxRetries, merge);
    ScanFates(window, b.log.first, b.attempts, b.maxRetries, merge);
    hide ScanWindow, HeaderSum, StripItemCount, IsTombstone;
    assert forall k :: 0 <= k < |sc.fates| ==> sc.fates[k] == FateOf(window[k], b.log.first + k, b.attempts, b.maxRetries);
    assert forall k :: 0 <= k < |sc.fates| ==> sc.fates[k].Tombstone?;
    assert sc.attempts == b.attempts;
  }

  ghost predicate HasItem(window: seq<Bytes>) {
    exists k :: 0 <= k < |window| && !IsTombstone(StripItemCount(window[k]))
  }

  lemma ItemIsSettled(sc: Scan, window: seq<Bytes>, first: nat, attempts: map<nat, nat>, maxRetries: int)
    requires ScanRight(sc, window, first, attempts, maxRetries) && !sc.failed && HasItem(window)
    ensures AnyMerged(sc.fates) || AnyDiscarded(sc.fates)
  {
    hide HeaderSum, StripItemCount, IsTombstone, ShouldDiscard;
    var k :| 0 <= k < |window| && !IsTombstone(StripItemCount(window[k]));
    assert sc.fates[k] == FateOf(window[k], first + k, attempts, maxRetries);
    assert sc.fates[k].Merged? || sc.fates[k].Discarded?;
  }

  /** When Merge, Execute and truncation all work, a call removes its whole window exactly if
      some entry of the window is no tombstone; otherwise it removes nothing. */
  lemma CallMakesProgressExactly(b: Buffer, max: nat, more: seq<Bytes>)
    requires CanDequeue(b) && max > 0
    ensures var first := Call(b, max, AllMerge(), true, true, more).log.first;
            && (first == b.log.first + |b.log.ReadFirst(max)| <==> HasItem(b.log.ReadFirst(max)))
            && (first == b.log.first <==> !HasItem(b.log.ReadFirst(max)))
  {
    var window := b.log.ReadFirst(max);
    assert |window| > 0;
    if HasItem(window) {
      NoMergeFails(window, b.log.first, b.attempts, b.maxRetries);
      ScanFates(window, b.log.first, b.attempts, b.maxRetries, AllMerge());
      hide Call, ScanWindow, ScanRight, HasItem, AnyMerged, AnyDiscarded;
      ItemIsSettled(WindowScan(b, max, AllMerge()), window, b.log.first, b.attempts, b.maxRetries);
      CallRemovesWindow(b, max, AllMerge(), true, true, more);
    } else {
      hide BeginDequeue, IsTombstone, StripItemCount;
      TombstonesStay(b, max, AllMerge());
    }
  }

  /** A log that holds one tombstone: however often it is called, nothing is removed. */
  lemma TombstoneExample(maxRetries: int)
    ensures var b := Buffer(Log(1, [PrependItemCount(1, [0])]), false, 1, map[], maxRetries);
            Call(b, 10, AllMerge(), true, true, []) == b
  {
    var b := Buffer(Log(1, [PrependItemCount(1, [0])]), false, 1, map[], maxRetries);
    assert StripItemCount(PrependItemCount(1, [0])) == [0];
    hide BeginDequeue, StripItemCount, PrependItemCount;
    TombstonesStay(b, 10, AllMerge());
    assert b.log.entries + [] == b.log.entries;
  }

  // ----- Discards that are not final

  /** The scan of the call discards the entry at position `k` of the window. */
  ghost predicate Discards(b: Buffer, max: nat, merge: nat -> bool, k: nat) {
    var sc := WindowScan(b, max, merge);
    k < |sc.fates| && sc.fates[k].Discarded?
  }

  lemma NoCounterStays(attempts: map<nat, nat>, merged: set<nat>, i: nat)
    requires AttemptsOf(attempts, i) == 0 && i !in merged
    ensures AttemptsOf(Increment(attempts, merged), i) == 0 && AttemptsOf(Increment(attempts, merged) - merged, i) == 0
  {
  }

  lemma DiscardedCounterIsGone(sc: Scan, window: seq<Bytes>, first: nat, attempts: map<nat, nat>, maxRetries: int, k: nat)
    requires ScanRight(sc, window, first, attempts, maxRetries) && k < |sc.fates| && sc.fates[k].Discarded?
    ensures AttemptsOf(sc.attempts, first + k) == 0
    ensures AttemptsOf(Increment(sc.attempts, MergedIndices(sc.fates, first)), first + k) == 0
    ensures AttemptsOf(Increment(sc.attempts, MergedIndices(sc.fates, first)) - MergedIndices(sc.fates, first), first + k) == 0
  {
    hide *;
    MergedIndexAt(sc.fates, first, first + k);
    ScanCounters(sc, window, first, attempts, maxRetries, first + k);
    NoCounterStays(sc.attempts, MergedIndices(sc.fates, first), first + k);
  }

  lemma DiscardedMeansAny(fates: seq<Fate>, k: nat)
    requires k < |fates| && fates[k].Discarded?
    ensures AnyDiscarded(fates)
  {
  }

  /** A call that does not truncate leaves the counters as its scan left them, perhaps with one
      more for the merged entries, perhaps with those cleared. */
  lemma CallCounters(b: Buffer, max: nat, merge: nat -> bool, executeOk: bool, ioOk: bool, more: seq<Bytes>)
    requires CanDequeue(b)
    ensures var sc := WindowScan(b, max, merge);
            var merged := MergedIndices(sc.fates, b.log.first);
            var attempts := Call(b, max, merge, executeOk, ioOk, more).attempts;
            attempts == sc.attempts || attempts == Increment(sc.attempts, merged) || attempts == Increment(sc.attempts, merged) - merged
  {
    hide ScanWindow, HeaderSum, Increment, MergedIndices, AnyMerged, AnyDiscarded;
  }

  lemma DiscardedCounterCleared(b: Buffer, max: nat, merge: nat -> bool, executeOk: bool, ioOk: bool, more: seq<Bytes>, k: nat)
    requires CanDequeue(b) && Discards(b, max, merge, k)
    ensures AttemptsOf(Call(b, max, merge, executeOk, ioOk, more).attempts, b.log.first + k) == 0
  {
    hide Call, ScanWindow, ScanRight, Increment, MergedIndices, AttemptsOf;
    var window := b.log.ReadFirst(max);
    ScanFates(window, b.log.first, b.attempts, b.maxRetries, merge);
    DiscardedCounterIsGone(WindowScan(b, max, merge), window, b.log.first, b.attempts, b.maxRetries, k);
    CallCounters(b, max, merge, executeOk, ioOk, more);
  }

  /** A discarded entry is removed by the call that discards it exactly if no later Merge
      fails, Execute succeeds when it is run, and the truncation works.  Otherwise it is still
      in the log, and its counter starts again. */
  lemma DiscardedIsRemovedExactly(b: Buffer, max: nat, merge: nat -> bool, executeOk: bool, ioOk: bool, more: seq<Bytes>, k: nat)
    requires CanDequeue(b) && Discards(b, max, merge, k)
    ensures var sc := WindowScan(b, max, merge);
            var t := Call(b, max, merge, executeOk, ioOk, more);
            && (t.log.first > b.log.first + k <==> !sc.failed && (AnyMerged(sc.fates) ==> executeOk) && ioOk)
            && (t.log.first <= b.log.first + k ==> t.log == Produced(b, more).log && AttemptsOf(t.attempts, b.log.first + k) == 0)
  {
    var sc := WindowScan(b, max, merge);
    assert |sc.fates| <= |b.log.ReadFirst(max)| by {
      ScanFates(b.log.ReadFirst(max), b.log.first, b.attempts, b.maxRetries, merge);
    }
    DiscardedMeansAny(sc.fates, k);
    hide Call, ScanWindow, WindowScan, AnyMerged, AnyDiscarded, AttemptsOf, HeaderSum;
    CallRemovesWindow(b, max, merge, executeOk, ioOk, more);
    if !Truncates(sc, executeOk, ioOk) {
      DiscardedCounterCleared(b, max, merge, executeOk, ioOk, more, k);
    }
  }

  lemma NotMergedEntry(sc: Scan, index: nat, raw: Bytes, maxRetries: int, mergeOk: bool)
    requires !sc.failed && !AnyMerged(sc.fates) && NotToMerge(raw, index, sc.attempts, maxRetries)
    ensures var t := ScanEntry(sc, index, raw, maxRetries, mergeOk); !t.failed && !AnyMerged(t.fates)
  {
    hide IsTombstone, StripItemCount, ReadItemCount, ShouldDiscard;
  }

  lemma StillNotToMerge(init: seq<Bytes>, raw: Bytes, first: nat, attempts: map<nat, nat>, maxRetries: int, merge: nat -> bool)
    requires NotToMerge(raw, first + |init|, attempts, maxRetries)
    ensures NotToMerge(raw, first + |init|, ScanWindow(init, first, attempts, maxRetries, merge).attempts, maxRetries)
  {
    ScanFates(init, first, attempts, maxRetries, merge);
    hide ScanWindow, ScanRight, IsTombstone, StripItemCount, ShouldDiscard;
    LaterCounterStays(ScanWindow(init, first, attempts, maxRetries, merge), init, first, attempts, maxRetries, first + |init|);
  }

  lemma {:induction false} NothingToMerge(window: seq<Bytes>, first: nat, attempts: map<nat, nat>, maxRetries: int, merge: nat -> bool)
    requires forall j :: 0 <= j < |window| ==> NotToMerge(window[j], first + j, attempts, maxRetries)
    ensures var sc := ScanWindow(window, first, attempts, maxRetries, merge); !sc.failed && !AnyMerged(sc.fates)
    decreases |window|
  {
    hide NotToMerge, ScanEntry, ScanWindow;
    if window == [] {
      StartOfScan(first, attempts, maxRetries, merge);
    } else {
      hide AnyMerged;
      var k := |window| - 1;
      var init := window[..k];
      StillNotToMerge(init, window[k], first, attempts, maxRetries, merge);
      NothingToMerge(init, first, attempts, maxRetries, merge);
      NotMergedEntry(ScanWindow(init, first, attempts, maxRetries, merge), first + k, window[k], maxRetries, merge(k));
      OneMoreScanned(window, k, first, attempts, maxRetries, merge);
      assert window[..k + 1] == window;
    }
  }

  lemma MergeableIsMerged(b: Buffer, max: nat, j: nat)
    requires j < |b.log.ReadFirst(max)| && !NotToMerge(b.log.ReadFirst(max)[j], b.log.first + j, b.attempts, b.maxRetries)
    ensures var sc := WindowScan(b, max, AllMerge()); !sc.failed && AnyMerged(sc.fates)
  {
    var window := b.log.ReadFirst(max);
    NoMergeFails(window, b.log.first, b.attempts, b.maxRetries);
    ScanFates(window, b.log.first, b.attempts, b.maxRetries, AllMerge());
    hide ScanWindow, HeaderSum, IsTombstone, StripItemCount, ShouldDiscard;
    assert WindowScan(b, max, AllMerge()).fates[j] == FateOf(window[j], b.log.first + j, b.attempts, b.maxRetries);
    assert WindowScan(b, max, AllMerge()).fates[j].Merged?;
  }

  /** An entry due for discarding is discarded by a call whose merges all succeed. */
  lemma DueIsDiscarded(b: Buffer, max: nat, k: nat)
    requires k < |b.log.ReadFirst(max)| && !IsTombstone(StripItemCount(b.log.ReadFirst(max)[k]))
    requires ShouldDiscard(b.attempts, b.maxRetries, b.log.first + k)
    ensures Discards(b, max, AllMerge(), k)
  {
    var window := b.log.ReadFirst(max);
    NoMergeFails(window, b.log.first, b.attempts, b.maxRetries);
    ScanFates(window, b.log.first, b.attempts, b.maxRetries, AllMerge());
    hide ScanWindow, HeaderSum, IsTombstone, StripItemCount, ShouldDiscard;
    assert WindowScan(b, max, AllMerge()).fates[k] == FateOf(window[k], b.log.first + k, b.attempts, b.maxRetries);
  }

  /** Whatever Merge and Execute do, the call that discards the entry removes it. */
  ghost predicate DiscardIsFinal(b: Buffer, max: nat, more: seq<Bytes>, k: nat) {
    forall merge: nat -> bool, executeOk: bool :: Discards(b, max, merge, k) ==>
      Call(b, max, merge, executeOk, true, more).log.first > b.log.first + k
  }

  /** "Discarded means removed, whatever Merge and Execute do" holds of an entry that is due
      exactly if every entry of its window is a tombstone or due for discarding as well. */
  lemma DiscardIsFinalExactly(b: Buffer, max: nat, more: seq<Bytes>, k: nat)
    requires CanDequeue(b) && k < |b.log.ReadFirst(max)|
    requires !IsTombstone(StripItemCount(b.log.ReadFirst(max)[k])) && ShouldDiscard(b.attempts, b.maxRetries, b.log.first + k)
    ensures DiscardIsFinal(b, max, more, k) <==>
      forall j :: 0 <= j < |b.log.ReadFirst(max)| ==> NotToMerge(b.log.ReadFirst(max)[j], b.log.first + j, b.attempts, b.maxRetries)
  {
    var window := b.log.ReadFirst(max);
    hide Call, ScanWindow, NotToMerge, AnyMerged, IsTombstone, StripItemCount, ShouldDiscard, Discards;
    if forall j :: 0 <= j < |window| ==> NotToMerge(window[j], b.log.first + j, b.attempts, b.maxRetries) {
      forall merge: nat -> bool, executeOk: bool | Discards(b, max, merge, k)
        ensures Call(b, max, merge, executeOk, true, more).log.first > b.log.first + k
      {
        NothingToMerge(window, b.log.first, b.attempts, b.maxRetries, merge);
        DiscardedIsRemovedExactly(b, max, merge, executeOk, true, more, k);
      }
    } else {
      var j :| 0 <= j < |window| && !NotToMerge(window[j], b.log.first + j, b.attempts, b.maxRetries);
      MergeableIsMerged(b, max, j);
      DueIsDiscarded(b, max, k);
      DiscardedIsRemovedExactly(b, max, AllMerge(), false, true, more, k);
    }
  }

  /** Two entries, the first at its limit of one retry. */
  function TwoEntries(): Buffer {
    Buffer(Log(1, [PrependItemCount(1, [7]), PrependItemCount(1, [8])]), false, 2, map[1 := 1], 1)
  }

  lemma TwoEntriesScanned(merge: nat -> bool)
    ensures WindowScan(TwoEntries(), 2, merge)
         == if merge(1) then Scan([Discarded(1), Merged([8])], 2, map[], false) else Scan([Discarded(1)], 1, map[], true)
  {
    var x, y := PrependItemCount(1, [7]), PrependItemCount(1, [8]);
    assert StripItemCount(x) == [7] && StripItemCount(y) == [8];
    HeaderRoundTrip(1, [7]);
    HeaderRoundTrip(1, [8]);
    hide PrependItemCount, StripItemCount, ScanWindow, ReadItemCount;
    TwoScanned(x, y, merge);
  }

  /** One input for each way back: the Merge of the second entry fails, or the Execute does.
      The first entry is discarded, and both are still in the log. */
  lemma MergeErrorExample()
    ensures Discards(TwoEntries(), 2, NoneMerges(), 0)
    ensures Call(TwoEntries(), 2, NoneMerges(), true, true, []) == TwoEntries().(attempts := map[])
  {
    TwoEntriesScanned(NoneMerges());
    hide ScanWindow, PrependItemCount;
    assert TwoEntries().log.entries + [] == TwoEntries().log.entries;
  }

  lemma ExecuteErrorExample()
    ensures Discards(TwoEntries(), 2, AllMerge(), 0)
    ensures Call(TwoEntries(), 2, AllMerge(), false, true, []) == TwoEntries().(attempts := map[2 := 1])
  {
    TwoEntriesScanned(AllMerge());
    hide ScanWindow, PrependItemCount;
    var sc := WindowScan(TwoEntries(), 2, AllMerge());
    assert sc.fates[1].Merged?;
    assert MergedIndices(sc.fates, 1) == {2};
    assert Increment(map[], {2}) == map[2 := 1];
    assert TwoEntries().log.entries + [] == TwoEntries().log.entries;
  }

  lemma TwoScanned(x: Bytes, y: Bytes, merge: nat -> bool)
    requires StripItemCount(x) == [7] && StripItemCount(y) == [8]
    ensures ScanWindow([x, y], 1, map[1 := 1], 1, merge)
         == if merge(1) then Scan([Discarded(1), Merged([8])], ReadItemCount(x) + ReadItemCount(y), map[], false)
            else Scan([Discarded(1)], ReadItemCount(x), map[], true)
  {
    hide StripItemCount, ReadItemCount, ScanWindow;
    var window := [x, y];
    var attempts: map<nat, nat> := map[1 := 1];
    StartOfScan(1, attempts, 1, merge);
    assert window[..0] == [] && window[..2] == window;
    OneMoreScanned(window, 0, 1, attempts, 1, merge);
    OneMoreScanned(window, 1, 1, attempts, 1, merge);
    assert attempts - {1} == map[];
    assert ScanWindow(window[..1], 1, attempts, 1, merge) == Scan([Discarded(1)], ReadItemCount(x), map[], false);
  }

  /** In particular a failed Execute leaves a discarded entry in the log. */
  lemma FailedExecuteKeepsDiscarded(b: Buffer, max: nat, merge: nat -> bool, k: nat)
    requires var p := BeginDequeue(b, max, merge).1; p.Executing? && k < |p.fates| && p.fates[k].Discarded?
    ensures var (b1, p) := BeginDequeue(b, max, merge);
            var after := EndExecute(b1, p, false);
            after.0.log == b.log && AttemptsOf(after.0.attempts, b.log.first + k) == 0 && after.1 == Idle
  {
    hide BeginDequeue, ScanWindow, ScanRight, Increment, MergedIndices;
    var window := b.log.ReadFirst(max);
    ExecutingShape(b, max, merge);
    ScanFates(window, b.log.first, b.attempts, b.maxRetries, merge);
    DiscardedCounterIsGone(ScanWindow(window, b.log.first, b.attempts, b.maxRetries, merge), window, b.log.first, b.attempts, b.maxRetries, k);
  }

  lemma ExecutingShape(b: Buffer, max: nat, merge: nat -> bool)
    requires BeginDequeue(b, max, merge).1.Executing?
    ensures var sc := ScanWindow(b.log.ReadFirst(max), b.log.first, b.attempts, b.maxRetries, merge);
            && BeginDequeue(b, max, merge).0 == b.(attempts := Increment(sc.attempts, MergedIndices(sc.fates, b.log.first)))
            && BeginDequeue(b, max, merge).1 == Executing(b.log.first, sc.fates, sc.deduct)
  {
    hide ScanWindow, MergedIndices, Increment, AnyMerged, AnyDiscarded;
  }
}
