/** What becomes of a window of the log over many calls: one that keeps failing, and a whole log
    while everything works. */
module WalWindows {
  import opened ByteStrings
  import opened WalBuffers
  import opened WalSystem
  import opened WalTheorems

  // ----- A window that keeps failing, whatever its counters

  predicate IsItem(raw: Bytes) {
    !IsTombstone(StripItemCount(raw))
  }

  /** The counter of the entry at position `k` of the window. */
  function CountAt(b: Buffer, k: nat): nat {
    AttemptsOf(b.attempts, b.log.first + k)
  }

  /** The next call gets as far as its window, whose counters are within the limit. */
  ghost predicate Counted(b: Buffer, max: nat) {
    && CanDequeue(b) && b.maxRetries > 0
    && forall k :: 0 <= k < |b.log.ReadFirst(max)| && IsItem(b.log.ReadFirst(max)[k]) ==> CountAt(b, k) <= b.maxRetries
  }

  /** Two entries of the window have different counters. */
  ghost predicate Apart(b: Buffer, max: nat, i: nat, j: nat) {
    var window := b.log.ReadFirst(max);
    i < |window| && j < |window| && IsItem(window[i]) && IsItem(window[j]) && CountAt(b, i) != CountAt(b, j)
  }

  lemma MergedCounts(sc: Scan, window: seq<Bytes>, first: nat, attempts: map<nat, nat>, maxRetries: int, k: nat)
    requires ScanRight(sc, window, first, attempts, maxRetries) && k < |sc.fates| && sc.fates[k].Merged?
    ensures AttemptsOf(Increment(sc.attempts, MergedIndices(sc.fates, first)), first + k) == AttemptsOf(attempts, first + k) + 1
  {
    MergedIndexAt(sc.fates, first, first + k);
    ScanCounters(sc, window, first, attempts, maxRetries, first + k);
    hide ScanRight, MergedIndices, DiscardedIndices;
  }

  lemma FateAt(b: Buffer, max: nat, k: nat)
    requires Counted(b, max) && k < |b.log.ReadFirst(max)| && IsItem(b.log.ReadFirst(max)[k])
    ensures var sc := WindowScan(b, max, AllMerge());
            && ScanRight(sc, b.log.ReadFirst(max), b.log.first, b.attempts, b.maxRetries)
            && !sc.failed && k < |sc.fates|
            && (if CountAt(b, k) == b.maxRetries then sc.fates[k].Discarded? else sc.fates[k].Merged?)
  {
    var window := b.log.ReadFirst(max);
    NoMergeFails(window, b.log.first, b.attempts, b.maxRetries);
    ScanFates(window, b.log.first, b.attempts, b.maxRetries, AllMerge());
    hide ScanWindow, HeaderSum, StripItemCount, IsTombstone, AttemptsOf;
    assert WindowScan(b, max, AllMerge()).fates[k] == FateOf(window[k], b.log.first + k, b.attempts, b.maxRetries);
  }

  lemma FailingCallCounter(b: Buffer, max: nat, more: seq<Bytes>, k: nat)
    requires CanDequeue(b)
    requires var sc := WindowScan(b, max, AllMerge()); !sc.failed && AnyMerged(sc.fates)
    ensures var sc := WindowScan(b, max, AllMerge());
            CountAt(FailingCall(b, max, more), k) == AttemptsOf(Increment(sc.attempts, MergedIndices(sc.fates, b.log.first)), b.log.first + k)
  {
    hide WindowScan, CanDequeue, Increment, MergedIndices, AnyMerged, FailingCall, HeaderSum, AttemptsOf;
    FailingCallExecutes(b, max, more);
  }

  lemma ScannedCounter(b: Buffer, max: nat, sc: Scan, k: nat)
    requires ScanRight(sc, b.log.ReadFirst(max), b.log.first, b.attempts, b.maxRetries) && k < |sc.fates|
    requires if CountAt(b, k) == b.maxRetries then sc.fates[k].Discarded? else sc.fates[k].Merged?
    ensures AttemptsOf(Increment(sc.attempts, MergedIndices(sc.fates, b.log.first)), b.log.first + k)
         == if CountAt(b, k) == b.maxRetries then 0 else CountAt(b, k) + 1
  {
    hide ScanRight, AttemptsOf, Increment, MergedIndices;
    var window := b.log.ReadFirst(max);
    if sc.fates[k].Discarded? {
      DiscardedCounterIsGone(sc, window, b.log.first, b.attempts, b.maxRetries, k);
    } else {
      MergedCounts(sc, window, b.log.first, b.attempts, b.maxRetries, k);
    }
  }

  /** One failing call that merges something: the counters go round from 0 to the limit. */
  lemma CounterGoesRound(b: Buffer, max: nat, more: seq<Bytes>, k: nat)
    requires Counted(b, max) && k < |b.log.ReadFirst(max)| && IsItem(b.log.ReadFirst(max)[k])
    requires AnyMerged(WindowScan(b, max, AllMerge()).fates)
    ensures CountAt(FailingCall(b, max, more), k) == if CountAt(b, k) == b.maxRetries then 0 else CountAt(b, k) + 1
  {
    hide *;
    FateAt(b, max, k);
    CountedCanDequeue(b, max);
    FailingCallCounter(b, max, more, k);
    ScannedCounter(b, max, WindowScan(b, max, AllMerge()), k);
  }

  lemma ApartMerges(b: Buffer, max: nat, i: nat, j: nat)
    requires Counted(b, max) && Apart(b, max, i, j)
    ensures var sc := WindowScan(b, max, AllMerge()); !sc.failed && AnyMerged(sc.fates)
  {
    hide WindowScan, AnyMerged, StripItemCount, IsTombstone;
    MergeableIsMerged(b, max, if CountAt(b, i) < b.maxRetries then i else j);
  }

  /** Different counters stay different, and nothing is removed. */
  lemma ApartStays(b: Buffer, max: nat, more: seq<Bytes>, i: nat, j: nat)
    requires Counted(b, max) && Apart(b, max, i, j)
    requires max <= |b.log.entries| || more == []
    ensures var t := FailingCall(b, max, more);
            && Counted(t, max) && Apart(t, max, i, j)
            && t.log == b.log.(entries := b.log.entries + more)
  {
    ApartMerges(b, max, i, j);
    FailingCallExecutes(b, max, more);
    WindowStays(b.log, max, more);
    hide FailingCall, WindowScan, AnyMerged, IsItem, Increment, MergedIndices, HeaderSum;
    var t := FailingCall(b, max, more);
    assert t.log.ReadFirst(max) == b.log.ReadFirst(max);
    forall k | 0 <= k < |b.log.ReadFirst(max)| && IsItem(b.log.ReadFirst(max)[k])
      ensures CountAt(t, k) == if CountAt(b, k) == b.maxRetries then 0 else CountAt(b, k) + 1
    {
      CounterGoesRound(b, max, more, k);
    }
  }

  lemma {:induction false} ApartIsNeverRemoved(b: Buffer, max: nat, more: seq<seq<Bytes>>, i: nat, j: nat)
    requires Counted(b, max) && Apart(b, max, i, j) && WindowFixed(b, max, more)
    ensures FailingCalls(b, max, more).log.first == b.log.first
    decreases |more|
  {
    hide FailingCall, Counted, Apart;
    if more != [] {
      ApartStays(b, max, more[0], i, j);
      ApartIsNeverRemoved(FailingCall(b, max, more[0]), max, more[1..], i, j);
    }
  }

  lemma TombstonesFail(b: Buffer, max: nat, more: seq<Bytes>)
    requires CanDequeue(b) && !HasItem(b.log.ReadFirst(max)) && (max <= |b.log.entries| || more == [])
    ensures var t := FailingCall(b, max, more);
            && CanDequeue(t) && !HasItem(t.log.ReadFirst(max))
            && t.log == b.log.(entries := b.log.entries + more)
  {
    hide BeginDequeue, IsTombstone, StripItemCount, HeaderSum;
    TombstonesStay(b, max, AllMerge());
    WindowStays(b.log, max, more);
  }

  lemma {:induction false} TombstonesAreNeverRemoved(b: Buffer, max: nat, more: seq<seq<Bytes>>)
    requires CanDequeue(b) && !HasItem(b.log.ReadFirst(max)) && WindowFixed(b, max, more)
    ensures FailingCalls(b, max, more).log.first == b.log.first
    decreases |more|
  {
    hide FailingCall, HasItem;
    if more != [] {
      TombstonesFail(b, max, more[0]);
      TombstonesAreNeverRemoved(FailingCall(b, max, more[0]), max, more[1..]);
    }
  }

  /** Some number of failing calls, while producers leave the window as it is, removes something. */
  ghost predicate EverRemoved(b: Buffer, max: nat) {
    exists more: seq<seq<Bytes>> :: WindowFixed(b, max, more) && FailingCalls(b, max, more).log.first != b.log.first
  }

  function Nothing(n: nat): seq<seq<Bytes>> {
    seq(n, (i: nat) => [])
  }

  lemma SharedIsRemoved(b: Buffer, max: nat, count: nat)
    requires Counted(b, max) && SharedCount(b, max, count)
    ensures EverRemoved(b, max)
  {
    var window := b.log.ReadFirst(max);
    assert |window| > 0 && count <= b.maxRetries by {
      var k :| 0 <= k < |window| && !IsTombstone(StripItemCount(window[k]));
      assert IsItem(window[k]) && CountAt(b, k) == count;
    }
    var more := Nothing(b.maxRetries - count + 1);
    hide FailingCalls, SharedCount;
    FailingWindowIsRemoved(b, max, count, more);
    assert WindowFixed(b, max, more) && FailingCalls(b, max, more).log.first != b.log.first;
  }

  lemma NotSharedIsApart(b: Buffer, max: nat) returns (i: nat, j: nat)
    requires CanDequeue(b) && HasItem(b.log.ReadFirst(max)) && !exists count: nat :: SharedCount(b, max, count)
    ensures Apart(b, max, i, j)
  {
    hide IsTombstone, StripItemCount, AttemptsOf;
    var window := b.log.ReadFirst(max);
    i :| 0 <= i < |window| && !IsTombstone(StripItemCount(window[i]));
    assert !SharedCount(b, max, CountAt(b, i));
    j :| 0 <= j < |window| && !IsTombstone(StripItemCount(window[j])) && AttemptsOf(b.attempts, b.log.first + j) != CountAt(b, i);
  }

  /** A fixed window whose calls keep failing is ever removed exactly if its entries that are no
      tombstones share a counter; otherwise it stays, however many calls follow. */
  lemma FixedWindowIsRemovedExactly(b: Buffer, max: nat)
    requires Counted(b, max)
    ensures EverRemoved(b, max) <==> exists count: nat :: SharedCount(b, max, count)
  {
    hide Counted, SharedCount, Apart, FailingCalls, HasItem, CanDequeue;
    assert CanDequeue(b) by {
      CountedCanDequeue(b, max);
    }
    if count: nat :| SharedCount(b, max, count) {
      SharedIsRemoved(b, max, count);
    } else if HasItem(b.log.ReadFirst(max)) {
      var i, j := NotSharedIsApart(b, max);
      forall more: seq<seq<Bytes>> | WindowFixed(b, max, more)
        ensures FailingCalls(b, max, more).log.first == b.log.first
      {
        ApartIsNeverRemoved(b, max, more, i, j);
      }
    } else {
      forall more: seq<seq<Bytes>> | WindowFixed(b, max, more)
        ensures FailingCalls(b, max, more).log.first == b.log.first
      {
        TombstonesAreNeverRemoved(b, max, more);
      }
    }
  }

  lemma CountedCanDequeue(b: Buffer, max: nat)
    requires Counted(b, max)
    ensures CanDequeue(b)
  {
  }

  /** In every reachable state between calls the counters are within the limit. */
  lemma ReachableIsCounted(s: Sys, max: nat)
    requires Reachable(s) && s.phase == Idle && s.buffer.maxRetries > 0 && CanDequeue(s.buffer)
    ensures Counted(s.buffer, max)
  {
    hide Reachable, IsItem;
    forall k | 0 <= k < |s.buffer.log.ReadFirst(max)|
      ensures CountAt(s.buffer, k) <= s.buffer.maxRetries
    {
      RetriesAreCounted(s, s.buffer.log.first + k);
    }
  }

  /** `TwoEntries` once more: its counters are out of step, and two failing calls lead back to
      where they began. */
  lemma OutOfStepExample()
    ensures FailingCall(TwoEntries(), 2, []) == TwoEntries().(attempts := map[2 := 1])
    ensures FailingCall(FailingCall(TwoEntries(), 2, []), 2, []) == TwoEntries()
  {
    ExecuteErrorExample();
    SecondScanned();
    hide ScanWindow, PrependItemCount;
    var b := TwoEntries().(attempts := map[2 := 1]);
    var sc := WindowScan(b, 2, AllMerge());
    assert sc.fates[0].Merged?;
    assert MergedIndices(sc.fates, 1) == {1};
    assert Increment(map[], {1}) == map[1 := 1];
    assert b.log.entries + [] == b.log.entries;
  }

  lemma SecondScanned()
    ensures WindowScan(TwoEntries().(attempts := map[2 := 1]), 2, AllMerge()) == Scan([Merged([7]), Discarded(1)], 2, map[], false)
  {
    var x, y := PrependItemCount(1, [7]), PrependItemCount(1, [8]);
    assert StripItemCount(x) == [7] && StripItemCount(y) == [8];
    HeaderRoundTrip(1, [7]);
    HeaderRoundTrip(1, [8]);
    hide PrependItemCount, StripItemCount, ReadItemCount, ScanWindow;
    var window := [x, y];
    var attempts: map<nat, nat> := map[2 := 1];
    StartOfScan(1, attempts, 1, AllMerge());
    assert window[..0] == [] && window[..2] == window;
    OneMoreScanned(window, 0, 1, attempts, 1, AllMerge());
    OneMoreScanned(window, 1, 1, attempts, 1, AllMerge());
    assert attempts - {2} == map[];
    assert ScanWindow(window[..1], 1, attempts, 1, AllMerge()) == Scan([Merged([7])], ReadItemCount(x), attempts, false);
  }

  lemma FirstEntryFails(s: Sys)
    requires s.buffer == Buffer(Log(1, [PrependItemCount(1, [7])]), false, 1, map[], 1) && s.phase == Idle
    ensures var t := Next(s, Begin(2, AllMerge()));
            && t.phase.Executing?
            && Next(t, Execute(false)).buffer == s.buffer.(attempts := map[1 := 1]) && Next(t, Execute(false)).phase == Idle
  {
    var x := PrependItemCount(1, [7]);
    assert StripItemCount(x) == [7];
    hide PrependItemCount, StripItemCount, ReadItemCount, ScanWindow, ScanDiscards;
    var window := [x];
    StartOfScan(1, map[], 1, AllMerge());
    assert window[..0] == [] && window[..1] == window;
    OneMoreScanned(window, 0, 1, map[], 1, AllMerge());
    var sc := ScanWindow(window, 1, map[], 1, AllMerge());
    assert sc.fates == [Merged([7])] && sc.fates[0].Merged?;
    assert MergedIndices(sc.fates, 1) == {1};
    assert Increment(map[], {1}) == map[1 := 1];
  }

  lemma OneEnqueued(b: Buffer, data: Bytes)
    ensures AfterEnqueue(b, [data], [1])
         == b.(log := b.log.(entries := b.log.entries + [PrependItemCount(1, data)]), itemCount := b.itemCount + 1)
  {
    var entries := Encode([data], [1], 1);
    assert Encode([data], [1], 0) == [];
    assert entries == [PrependItemCount(1, data)];
    HeaderRoundTrip(1, data);
    hide PrependItemCount, ReadItemCount;
    assert entries[..0] == [];
    assert HeaderSum(entries) == 1;
  }

  lemma OneStepMore(s: Sys, step: Step, steps: seq<Step>, t: Sys)
    requires Enabled(s, step) && IsRun(Next(s, step), steps) && RunFrom(Next(s, step), steps) == t
    ensures IsRun(s, [step] + steps) && RunFrom(s, [step] + steps) == t
  {
    hide Enabled, Next;
    assert ([step] + steps)[1..] == steps;
  }

  lemma NoStep(s: Sys)
    ensures IsRun(s, []) && RunFrom(s, []) == s
  {
  }

  lemma OneProduced(s: Sys, data: Bytes)
    requires !s.buffer.closed
    ensures var t := Next(s, Produce([data], [1], true));
            && t.phase == s.phase
            && t.buffer == s.buffer.(log := s.buffer.log.(entries := s.buffer.log.entries + [PrependItemCount(1, data)]), itemCount := s.buffer.itemCount + 1)
  {
    hide AfterEnqueue, ItemsOf, PrependItemCount;
    OneEnqueued(s.buffer, data);
  }

  lemma FourSteps(maxRetries: int, s1: Sys, s2: Sys, s3: Sys, s4: Sys, one: Step, two: Step, three: Step, four: Step)
    requires Enabled(Init(maxRetries), one) && s1 == Next(Init(maxRetries), one)
    requires Enabled(s1, two) && s2 == Next(s1, two)
    requires Enabled(s2, three) && s3 == Next(s2, three)
    requires Enabled(s3, four) && s4 == Next(s3, four)
    ensures Reachable(s4)
  {
    hide Init, Enabled, Next, IsRun, RunFrom;
    NoStep(s4);
    OneStepMore(s3, four, [], s4);
    OneStepMore(s2, three, [four] + [], s4);
    OneStepMore(s1, two, [three] + ([four] + []), s4);
    OneStepMore(Init(maxRetries), one, [two] + ([three] + ([four] + [])), s4);
  }

  lemma TwoProduced(s: Sys)
    requires s.buffer == Buffer(Log(1, [PrependItemCount(1, [7])]), false, 1, map[1 := 1], 1) && s.phase == Idle
    ensures Next(s, Produce([[8]], [1], true)).buffer == TwoEntries() && Next(s, Produce([[8]], [1], true)).phase == Idle
  {
    hide PrependItemCount, Next;
    OneProduced(s, [8]);
    assert [PrependItemCount(1, [7])] + [PrependItemCount(1, [8])] == [PrependItemCount(1, [7]), PrependItemCount(1, [8])];
  }

  lemma OneProducedFirst()
    ensures var s := Next(Init(1), Produce([[7]], [1], true));
            s.buffer == Buffer(Log(1, [PrependItemCount(1, [7])]), false, 1, map[], 1) && s.phase == Idle
  {
    hide PrependItemCount, Next;
    OneProduced(Init(1), [7]);
    assert [] + [PrependItemCount(1, [7])] == [PrependItemCount(1, [7])];
  }

  /** A run with one failed call between the two enqueues leads there. */
  lemma OutOfStepIsReachable()
    ensures exists s :: Reachable(s) && s.phase == Idle && s.buffer == TwoEntries()
  {
    var one, two, three, four := Produce([[7]], [1], true), Begin(2, AllMerge()), Execute(false), Produce([[8]], [1], true);
    hide PrependItemCount, Next, Reachable, TwoEntries, Init;
    OneProducedFirst();
    var s1 := Next(Init(1), one);
    FirstEntryFails(s1);
    var s2 := Next(s1, two);
    var s3 := Next(s2, three);
    TwoProduced(s3);
    FourSteps(1, s1, s2, s3, Next(s3, four), one, two, three, four);
  }

  // ----- Draining a log

  /** The log in windows of `max` entries, the last one perhaps shorter. */
  function Windows(entries: seq<Bytes>, max: nat): (r: seq<seq<Bytes>>)
    requires max > 0
    ensures entries == [] <==> r == []
    decreases |entries|
  {
    if entries == [] then []
    else if max < |entries| then [entries[..max]] + Windows(entries[max..], max)
    else [entries]
  }

  /** There are as many windows as the length of the log divided by `max`, rounded up. */
  lemma {:induction false} WindowCount(entries: seq<Bytes>, max: nat)
    requires max > 0
    ensures var n := |Windows(entries, max)|; max * (n - 1) < |entries| <= max * n || (n == 0 && entries == [])
    decreases |entries|
  {
    if max < |entries| {
      WindowCount(entries[max..], max);
      var n := |Windows(entries[max..], max)|;
      assert max * (n + 1 - 1) == max * (n - 1) + max && max * (n + 1) == max * n + max;
    }
  }

  /** A call in which Merge, Execute and truncation all work, and nothing is added. */
  ghost function WorkingCall(b: Buffer, max: nat): Buffer {
    Call(b, max, AllMerge(), true, true, [])
  }

  ghost function WorkingCalls(b: Buffer, max: nat, n: nat): Buffer
    decreases n
  {
    if n == 0 then b else WorkingCalls(WorkingCall(b, max), max, n - 1)
  }

  ghost predicate AllHaveItems(windows: seq<seq<Bytes>>) {
    forall i :: 0 <= i < |windows| ==> HasItem(windows[i])
  }

  lemma WorkingScan(b: Buffer, max: nat)
    requires HasItem(b.log.ReadFirst(max))
    ensures var sc := WindowScan(b, max, AllMerge());
            !sc.failed && |sc.fates| == |b.log.ReadFirst(max)| && (AnyMerged(sc.fates) || AnyDiscarded(sc.fates))
  {
    var window := b.log.ReadFirst(max);
    NoMergeFails(window, b.log.first, b.attempts, b.maxRetries);
    ScanFates(window, b.log.first, b.attempts, b.maxRetries, AllMerge());
    hide ScanWindow, HasItem, HeaderSum, FateOf, AnyMerged, AnyDiscarded;
    ItemIsSettled(WindowScan(b, max, AllMerge()), window, b.log.first, b.attempts, b.maxRetries);
  }

  lemma WorkingCallTruncates(b: Buffer, max: nat)
    requires CanDequeue(b) && max > 0 && HasItem(b.log.ReadFirst(max))
    ensures var t := WorkingCall(b, max);
            && t.log == Log(b.log.first + |b.log.ReadFirst(max)|, b.log.entries[|b.log.ReadFirst(max)|..])
            && !t.closed
  {
    WorkingScan(b, max);
    hide ScanWindow, HasItem, HeaderSum, Increment, MergedIndices, AnyMerged, AnyDiscarded;
    assert b.log.entries + [] == b.log.entries;
  }

  lemma WorkingCallStays(b: Buffer, max: nat)
    requires b.log.first >= 1 && !b.closed && max > 0 && (b.log.entries == [] || !HasItem(b.log.ReadFirst(max)))
    ensures WorkingCall(b, max) == b
  {
    hide ScanWindow, IsTombstone, StripItemCount;
    if b.log.entries != [] {
      TombstonesStay(b, max, AllMerge());
    }
    assert b.log.entries + [] == b.log.entries;
  }

  /** While everything works and nothing is added, n calls empty the log exactly if no window
      holds tombstones alone and n is at least the number of windows. */
  lemma {:induction false} DrainsExactly(b: Buffer, max: nat, n: nat)
    requires b.log.first >= 1 && !b.closed && max > 0
    ensures var windows := Windows(b.log.entries, max);
            WorkingCalls(b, max, n).log.entries == [] <==> AllHaveItems(windows) && n >= |windows|
    decreases n
  {
    hide WorkingCall, HasItem;
    var windows := Windows(b.log.entries, max);
    if n > 0 {
      if b.log.entries != [] && HasItem(b.log.ReadFirst(max)) {
        WorkingCallTruncates(b, max);
        DrainsExactly(WorkingCall(b, max), max, n - 1);
        RestOfWindows(b.log.entries, max);
      } else {
        WorkingCallStays(b, max);
        DrainsExactly(b, max, n - 1);
        assert b.log.entries != [] ==> windows[0] == b.log.ReadFirst(max);
      }
    }
  }

  lemma OneMoreWindow(first: seq<Bytes>, rest: seq<seq<Bytes>>)
    requires HasItem(first)
    ensures AllHaveItems([first] + rest) <==> AllHaveItems(rest)
  {
    hide HasItem;
    var all := [first] + rest;
    forall i | 0 <= i < |rest|
      ensures rest[i] == all[i + 1]
    {
    }
    if AllHaveItems(rest) {
      forall i | 0 <= i < |all|
        ensures HasItem(all[i])
      {
        assert i > 0 ==> all[i] == rest[i - 1];
      }
    }
  }

  lemma RestOfWindows(entries: seq<Bytes>, max: nat)
    requires max > 0 && entries != [] && HasItem(Log(1, entries).ReadFirst(max))
    ensures var rest := Windows(entries[|Log(1, entries).ReadFirst(max)|..], max);
            && |Windows(entries, max)| == |rest| + 1
            && (AllHaveItems(Windows(entries, max)) <==> AllHaveItems(rest))
  {
    hide HasItem, AllHaveItems;
    var first := Log(1, entries).ReadFirst(max);
    var rest := Windows(entries[|first|..], max);
    assert Windows(entries, max) == [first] + rest;
    OneMoreWindow(first, rest);
  }
}
