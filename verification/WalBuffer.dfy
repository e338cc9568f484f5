/** The write-ahead-log buffer: entries with an item-count header, batched dequeues with retry
    counters, discards and truncation of the front of the log. */
module WalBuffers {
  import opened ByteStrings

  type Uint32 = x: nat | x < 0x1_0000_0000

  const ITEM_COUNT_HEADER_SIZE := 4

  // ----- The header codec

  function PutUint32(v: Uint32): (r: Bytes)
    ensures |r| == 4
  {
    var v1 := v / 256;
    var v2 := v1 / 256;
    var v3 := v2 / 256;
    assert v3 < 256;
    [v % 256, v1 % 256, v2 % 256, v3]
  }

  function PrependItemCount(count: Uint32, data: Bytes): Bytes {
    PutUint32(count) + data
  }

  /** Data too short to have a payload behind a header is returned unchanged. */
  function StripItemCount(data: Bytes): Bytes {
    if |data| <= ITEM_COUNT_HEADER_SIZE then data else data[ITEM_COUNT_HEADER_SIZE..]
  }

  function ReadItemCount(header: Bytes): Uint32 {
    if |header| < ITEM_COUNT_HEADER_SIZE then 0
    else
      var b0: nat, b1: nat, b2: nat, b3: nat := header[0], header[1], header[2], header[3];
      var v: nat := b0 + 256 * b1 + 65536 * b2 + 16777216 * b3;
      assert v < 0x1_0000_0000;
      v
  }

  /** Reading a header gives back the count, whatever the payload. */
  lemma HeaderRoundTrip(count: Uint32, data: Bytes)
    ensures ReadItemCount(PrependItemCount(count, data)) == count
    ensures ReadItemCount(PrependItemCount(count, data)[..ITEM_COUNT_HEADER_SIZE]) == count
  {
    var e := PrependItemCount(count, data);
    var a := count / 256;
    var b := a / 256;
    var c := b / 256;
    assert e[0] == count % 256 && e[1] == a % 256 && e[2] == b % 256 && e[3] == c;
    assert count == 256 * a + count % 256 && a == 256 * b + a % 256 && b == 256 * c + b % 256;
  }

  /** Stripping gives back the payload exactly when the payload is not empty. */
  lemma PayloadRoundTripExactly(count: Uint32, data: Bytes)
    ensures StripItemCount(PrependItemCount(count, data)) == data <==> data != []
  {
    assert PrependItemCount(count, data)[4..] == data;
    if data == [] {
      assert |PrependItemCount(count, data)| == 4;
    }
  }

  /** An entry without a whole header, as no `Enqueue` writes one, is its own payload and counts
      nothing. */
  lemma ShortEntry(raw: Bytes)
    requires |raw| < 4
    ensures StripItemCount(raw) == raw && ReadItemCount(raw) == 0
  {
  }

  // ----- The log and the buffer

  /** The log: its live entries have the indices `first`, `first + 1`, ... */
  datatype Log = Log(first: nat, entries: seq<Bytes>) {
    predicate Valid() {
      first >= 1
    }

    function Last(): int {
      first + |entries| - 1
    }

    /** Zero for a log that never had an entry. */
    function FirstIndex(): nat {
      if Last() == 0 then 0 else first
    }

    /** Up to `max` entries from the first one on. */
    function ReadFirst(max: nat): seq<Bytes> {
      if max < |entries| then entries[..max] else entries
    }

    function TruncateFront(index: nat): Log
      requires first <= index <= first + |entries|
    {
      Log(index, entries[index - first..])
    }
  }

  datatype Buffer = Buffer(log: Log, closed: bool, itemCount: int, attempts: map<nat, nat>, maxRetries: int)

  function Encode(data: seq<Bytes>, counts: seq<Uint32>, n: nat): seq<Bytes>
    requires n <= |data|
  {
    if n == 0 then []
    else Encode(data, counts, n - 1) + [PrependItemCount(if n - 1 < |counts| then counts[n - 1] else 0, data[n - 1])]
  }

  /** The sum of the counts in the headers of some entries. */
  function HeaderSum(entries: seq<Bytes>): nat {
    if entries == [] then 0 else HeaderSum(entries[..|entries| - 1]) + ReadItemCount(entries[|entries| - 1])
  }

  lemma {:induction false} HeaderSumAppend(a: seq<Bytes>, b: seq<Bytes>)
    ensures HeaderSum(a + b) == HeaderSum(a) + HeaderSum(b)
    decreases |b|
  {
    if b == [] {
      assert a + b == a;
    } else {
      assert (a + b)[..|a + b| - 1] == a + b[..|b| - 1];
      HeaderSumAppend(a, b[..|b| - 1]);
    }
  }

  function AfterEnqueue(b: Buffer, data: seq<Bytes>, counts: seq<Uint32>): Buffer {
    var entries := Encode(data, counts, |data|);
    b.(log := b.log.(entries := b.log.entries + entries), itemCount := b.itemCount + HeaderSum(entries))
  }

  // ----- Scanning a window

  predicate IsTombstone(item: Bytes) {
    |item| == 1 && item[0] == 0
  }

  function AttemptsOf(attempts: map<nat, nat>, index: nat): nat {
    if index in attempts then attempts[index] else 0
  }

  predicate ShouldDiscard(attempts: map<nat, nat>, maxRetries: int, index: nat) {
    maxRetries != 0 && AttemptsOf(attempts, index) >= maxRetries
  }

  /** What became of an entry of the window. */
  datatype Fate = Tombstone | Discarded(attempts: nat) | Merged(payload: Bytes)

  /** A scan of a prefix of the window; `failed` once a Merge has returned an error. */
  datatype Scan = Scan(fates: seq<Fate>, deduct: nat, attempts: map<nat, nat>, failed: bool)

  function ScanEntry(sc: Scan, index: nat, raw: Bytes, maxRetries: int, mergeOk: bool): Scan {
    var item := StripItemCount(raw);
    if sc.failed then sc
    else if IsTombstone(item) then
      sc.(fates := sc.fates + [Tombstone], deduct := sc.deduct + ReadItemCount(raw))
    else if ShouldDiscard(sc.attempts, maxRetries, index) then
      Scan(sc.fates + [Discarded(AttemptsOf(sc.attempts, index))], sc.deduct + ReadItemCount(raw), sc.attempts - {index}, false)
    else if !mergeOk then sc.(failed := true)
    else sc.(fates := sc.fates + [Merged(item)], deduct := sc.deduct + ReadItemCount(raw))
  }

  /** The scan of the whole window.  `merge` is the accumulator: does merging position `k` succeed? */
  function ScanWindow(window: seq<Bytes>, first: nat, attempts: map<nat, nat>, maxRetries: int, merge: nat -> bool): Scan {
    if window == [] then Scan([], 0, attempts, false)
    else
      var k := |window| - 1;
      ScanEntry(ScanWindow(window[..k], first, attempts, maxRetries, merge), first + k, window[k], maxRetries, merge(k))
  }

  function MergedIndices(fates: seq<Fate>, first: nat): set<nat> {
    set k | 0 <= k < |fates| && fates[k].Merged? :: first + k
  }

  function Payloads(fates: seq<Fate>): seq<Bytes> {
    if fates == [] then []
    else Payloads(fates[..|fates| - 1]) + if fates[|fates| - 1].Merged? then [fates[|fates| - 1].payload] else []
  }

  predicate AnyMerged(fates: seq<Fate>) {
    exists k :: 0 <= k < |fates| && fates[k].Merged?
  }

  predicate AnyDiscarded(fates: seq<Fate>) {
    exists k :: 0 <= k < |fates| && fates[k].Discarded?
  }

  function Increment(attempts: map<nat, nat>, indices: set<nat>): map<nat, nat> {
    map i | i in attempts.Keys + indices :: AttemptsOf(attempts, i) + if i in indices then 1 else 0
  }

  /** What the consumer does next after its scan. */
  datatype Phase =
    | Idle
    | Executing(first: nat, fates: seq<Fate>, deduct: nat)
    | Truncating(first: nat, fates: seq<Fate>, deduct: nat, executed: bool)

  /** `Dequeue` up to Execute: the early returns, the batch read and the scan of the window. */
  function BeginDequeue(b: Buffer, max: nat, merge: nat -> bool): (Buffer, Phase) {
    if b.closed || b.log.FirstIndex() == 0 || b.log.FirstIndex() > b.log.Last() then (b, Idle)
    else
      var sc := ScanWindow(b.log.ReadFirst(max), b.log.first, b.attempts, b.maxRetries, merge);
      var scanned := b.(attempts := sc.attempts);
      if sc.failed then (scanned, Idle)
      else if AnyMerged(sc.fates) then
        (scanned.(attempts := Increment(sc.attempts, MergedIndices(sc.fates, b.log.first))), Executing(b.log.first, sc.fates, sc.deduct))
      else if AnyDiscarded(sc.fates) then
        (scanned, Truncating(b.log.first, sc.fates, sc.deduct, false))
      else (scanned, Idle)
  }

  /** `Execute` has returned. */
  function EndExecute(b: Buffer, p: Phase, ok: bool): (Buffer, Phase)
    requires p.Executing?
  {
    if ok then (b.(attempts := b.attempts - MergedIndices(p.fates, p.first)), Truncating(p.first, p.fates, p.deduct, true))
    else (b, Idle)
  }

  /** The truncation under the lock, unless the log is closed or fails. */
  function EndTruncate(b: Buffer, p: Phase, ioOk: bool): Buffer
    requires p.Truncating? && b.log.first <= p.first + |p.fates| <= b.log.first + |b.log.entries|
  {
    if b.closed || !ioOk then b
    else b.(log := b.log.TruncateFront(p.first + |p.fates|), itemCount := b.itemCount - p.deduct)
  }

  // ----- The buffer object

  class WALBuffer {
    const maxRetries: int
    var log: Log
    var closed: bool
    var itemCount: int
    var attempts: map<nat, nat>

    /** Opens a buffer over an existing log and recovers the item count from its headers. */
    constructor (log: Log, maxRetries: int)
      ensures State() == Buffer(log, false, HeaderSum(log.entries), map[], maxRetries)
    {
      this.log, this.maxRetries := log, maxRetries;
      closed, itemCount, attempts := false, 0, map[];
      new;
      RecoverItemCount();
    }

    ghost function State(): Buffer
      reads this
    {
      Buffer(log, closed, itemCount, attempts, maxRetries)
    }

    method RecoverItemCount()
      modifies this`itemCount
      requires itemCount == 0
      ensures itemCount == HeaderSum(log.entries)
    {
      var total := 0;
      for i := 0 to |log.entries|
        invariant total == HeaderSum(log.entries[..i])
      {
        assert log.entries[..i + 1][..i] == log.entries[..i];
        total := total + ReadItemCount(log.entries[i]);
      }
      assert log.entries[..|log.entries|] == log.entries;
      itemCount := total;
    }

    method Len() returns (n: nat)
      ensures n == if itemCount < 0 then 0 else itemCount
    {
      if itemCount < 0 {
        return 0;
      }
      return itemCount;
    }

    /** The number of log entries; false if the buffer is closed. */
    method EntryCount() returns (ok: bool, n: nat)
      requires log.Valid()
      ensures ok == !closed && n == if closed then 0 else |log.entries|
    {
      if closed {
        return false, 0;
      }
      var fi, li := log.FirstIndex(), log.Last();
      if fi == 0 && li == 0 {
        return true, 0;
      }
      if fi > li {
        return true, 0;
      }
      return true, li - fi + 1;
    }

    method Close() returns (ok: bool)
      modifies this`closed
      ensures ok == !old(closed) && closed
    {
      ok := !closed;
      closed := true;
    }

    /** Writes a batch of entries; nothing changes if the buffer is closed or the write fails. */
    method EnqueueBatch(data: seq<Bytes>, counts: seq<Uint32>, ioOk: bool) returns (ok: bool)
      modifies this
      ensures ok == (!old(closed) && ioOk)
      ensures State() == if ok then AfterEnqueue(old(State()), data, counts) else old(State())
    {
      if closed {
        return false;
      }
      var batch: seq<Bytes> := [];
      var totalItems := 0;
      for i := 0 to |data|
        invariant batch == Encode(data, counts, i)
        invariant totalItems == HeaderSum(batch)
        invariant State() == old(State())
      {
        var count: Uint32 := 0;
        if i < |counts| {
          count := counts[i];
        }
        var entry := PrependItemCount(count, data[i]);
        HeaderRoundTrip(count, data[i]);
        assert (batch + [entry])[..|batch|] == batch;
        batch := batch + [entry];
        totalItems := totalItems + count;
      }
      if !ioOk {
        return false;
      }
      log := log.(entries := log.entries + batch);
      itemCount := itemCount + totalItems;
      return true;
    }

    /** The loop over the window that sorts out tombstones, discards and merges. */
    method ScanItems(items: seq<Bytes>, merge: nat -> bool) returns (sc: Scan)
      modifies this`attempts
      ensures sc == ScanWindow(items, log.first, old(attempts), maxRetries, merge)
      ensures attempts == sc.attempts
    {
      hide ScanWindow;
      StartOfScan(log.first, attempts, maxRetries, merge);
      assert items[..0] == [];
      var fates: seq<Fate> := [];
      var itemsToDeduct: nat := 0;
      for k := 0 to |items|
        invariant Scan(fates, itemsToDeduct, attempts, false) == ScanWindow(items[..k], log.first, old(attempts), maxRetries, merge)
      {
        OneMoreScanned(items, k, log.first, old(attempts), maxRetries, merge);
        var i := log.first + k;
        var raw := items[k];
        var item := StripItemCount(raw);
        if |item| == 1 && item[0] == 0 {
          fates, itemsToDeduct := fates + [Tombstone], itemsToDeduct + ReadItemCount(raw);
        } else if ShouldDiscard(attempts, maxRetries, i) {
          fates, itemsToDeduct := fates + [Discarded(AttemptsOf(attempts, i))], itemsToDeduct + ReadItemCount(raw);
          attempts := attempts - {i};
        } else if !merge(k) {
          sc := Scan(fates, itemsToDeduct, attempts, true);
          FailureStops(items, k + 1, log.first, old(attempts), maxRetries, merge);
          return;
        } else {
          fates, itemsToDeduct := fates + [Merged(item)], itemsToDeduct + ReadItemCount(raw);
        }
      }
      assert items[..|items|] == items;
      sc := Scan(fates, itemsToDeduct, attempts, false);
    }

    /** `Dequeue` up to Execute. */
    method StartDequeue(max: nat, merge: nat -> bool) returns (phase: Phase)
      modifies this`attempts
      ensures (State(), phase) == BeginDequeue(old(State()), max, merge)
    {
      hide ScanWindow;
      if closed {
        return Idle;
      }
      var fi := log.FirstIndex();
      if fi == 0 {
        return Idle;
      }
      if fi > log.Last() {
        return Idle;
      }
      var sc := ScanItems(log.ReadFirst(max), merge);
      if sc.failed {
        return Idle;
      }
      if !AnyMerged(sc.fates) && AnyDiscarded(sc.fates) {
        return Truncating(fi, sc.fates, sc.deduct, false);
      }
      if AnyMerged(sc.fates) {
        attempts := Increment(attempts, MergedIndices(sc.fates, fi));
        return Executing(fi, sc.fates, sc.deduct);
      }
      return Idle;
    }

    /** What `Dequeue` does once Execute has returned. */
    method FinishExecute(p: Phase, ok: bool) returns (phase: Phase)
      requires p.Executing?
      modifies this`attempts
      ensures (State(), phase) == EndExecute(old(State()), p, ok)
    {
      if !ok {
        return Idle;
      }
      attempts := attempts - MergedIndices(p.fates, p.first);
      return Truncating(p.first, p.fates, p.deduct, true);
    }

    /** The truncation and the deduction of the item count, under the lock. */
    method Truncate(p: Phase, ioOk: bool) returns (ok: bool)
      requires p.Truncating? && log.first <= p.first + |p.fates| <= log.first + |log.entries|
      modifies this`log, this`itemCount
      ensures ok == (!closed && ioOk)
      ensures State() == EndTruncate(old(State()), p, ioOk)
    {
      if closed || !ioOk {
        return false;
      }
      log := log.TruncateFront(p.first + |p.fates|);
      itemCount := itemCount - p.deduct;
      return true;
    }
  }

  lemma StartOfScan(first: nat, attempts: map<nat, nat>, maxRetries: int, merge: nat -> bool)
    ensures ScanWindow([], first, attempts, maxRetries, merge) == Scan([], 0, attempts, false)
  {
  }

  lemma OneMoreScanned(items: seq<Bytes>, k: nat, first: nat, attempts: map<nat, nat>, maxRetries: int, merge: nat -> bool)
    requires k < |items|
    ensures ScanWindow(items[..k + 1], first, attempts, maxRetries, merge)
         == ScanEntry(ScanWindow(items[..k], first, attempts, maxRetries, merge), first + k, items[k], maxRetries, merge(k))
  {
    assert items[..k + 1][..k] == items[..k];
  }

  /** Once a Merge has failed the rest of the window is not looked at. */
  lemma {:induction false} FailureStops(items: seq<Bytes>, k: nat, first: nat, attempts: map<nat, nat>, maxRetries: int, merge: nat -> bool)
    requires k <= |items| && ScanWindow(items[..k], first, attempts, maxRetries, merge).failed
    ensures ScanWindow(items, first, attempts, maxRetries, merge) == ScanWindow(items[..k], first, attempts, maxRetries, merge)
    decreases |items|
  {
    if k == |items| {
      assert items[..k] == items;
    } else {
      var init := items[..|items| - 1];
      assert init[..k] == items[..k];
      FailureStops(init, k, first, attempts, maxRetries, merge);
    }
  }

  // ----- What a scan does

  /** What the scan of an entry says depends on that entry alone. */
  function FateOf(raw: Bytes, index: nat, attempts: map<nat, nat>, maxRetries: int): Fate {
    if IsTombstone(StripItemCount(raw)) then Tombstone
    else if ShouldDiscard(attempts, maxRetries, index) then Discarded(AttemptsOf(attempts, index))
    else Merged(StripItemCount(raw))
  }

  /** The scan accounts for the entries of the window one by one; it clears the counters of
      the discarded entries and no others. */
  ghost predicate ScanRight(sc: Scan, window: seq<Bytes>, first: nat, attempts: map<nat, nat>, maxRetries: int) {
    && |sc.fates| <= |window|
    && (!sc.failed ==> |sc.fates| == |window| && sc.deduct == HeaderSum(window))
    && (forall k :: 0 <= k < |sc.fates| ==> sc.fates[k] == FateOf(window[k], first + k, attempts, maxRetries))
    && (forall i :: i in sc.attempts <==> i in attempts && !(first <= i < first + |sc.fates| && sc.fates[i - first].Discarded?))
    && (forall i :: i in sc.attempts ==> sc.attempts[i] == attempts[i])
  }

  lemma ScanEntryRight(sc: Scan, window: seq<Bytes>, first: nat, attempts: map<nat, nat>, maxRetries: int, mergeOk: bool)
    requires window != [] && ScanRight(sc, window[..|window| - 1], first, attempts, maxRetries)
    ensures var k := |window| - 1;
            ScanRight(ScanEntry(sc, first + k, window[k], maxRetries, mergeOk), window, first, attempts, maxRetries)
  {
    var k := |window| - 1;
    hide StripItemCount, ReadItemCount, IsTombstone;
    if !sc.failed {
      assert AttemptsOf(sc.attempts, first + k) == AttemptsOf(attempts, first + k);
      var t := ScanEntry(sc, first + k, window[k], maxRetries, mergeOk);
      assert !t.failed ==> t.fates == sc.fates + [FateOf(window[k], first + k, attempts, maxRetries)];
    }
  }

  lemma {:induction false} ScanFates(window: seq<Bytes>, first: nat, attempts: map<nat, nat>, maxRetries: int, merge: nat -> bool)
    ensures ScanRight(ScanWindow(window, first, attempts, maxRetries, merge), window, first, attempts, maxRetries)
    decreases |window|
  {
    if window != [] {
      var k := |window| - 1;
      ScanFates(window[..k], first, attempts, maxRetries, merge);
      hide ScanRight, ScanEntry;
      ScanEntryRight(ScanWindow(window[..k], first, attempts, maxRetries, merge), window, first, attempts, maxRetries, merge(k));
    }
  }

  // ----- When a scan fails

  /** An entry of the window that no call would merge. */
  predicate NotToMerge(raw: Bytes, index: nat, attempts: map<nat, nat>, maxRetries: int) {
    IsTombstone(StripItemCount(raw)) || ShouldDiscard(attempts, maxRetries, index)
  }

  /** The entry at position `k` is to be merged, and its Merge returns an error. */
  predicate MergeFails(window: seq<Bytes>, first: nat, attempts: map<nat, nat>, maxRetries: int, merge: nat -> bool, k: int) {
    0 <= k < |window| && !NotToMerge(window[k], first + k, attempts, maxRetries) && !merge(k)
  }

  /** The scan of a part of the window leaves the counters behind it as they are. */
  lemma LaterCounterStays(sc: Scan, window: seq<Bytes>, first: nat, attempts: map<nat, nat>, maxRetries: int, index: nat)
    requires ScanRight(sc, window, first, attempts, maxRetries) && index >= first + |window|
    ensures ShouldDiscard(sc.attempts, maxRetries, index) == ShouldDiscard(attempts, maxRetries, index)
  {
    hide HeaderSum, FateOf;
  }

  /** What one more entry does to a scan that has not failed. */
  lemma OneEntryScanned(sc: Scan, index: nat, raw: Bytes, maxRetries: int, mergeOk: bool)
    requires !sc.failed
    ensures var t := ScanEntry(sc, index, raw, maxRetries, mergeOk);
            if !NotToMerge(raw, index, sc.attempts, maxRetries) && !mergeOk then t == sc.(failed := true)
            else !t.failed && |t.fates| == |sc.fates| + 1 && t.fates[..|sc.fates|] == sc.fates
                 && (t.fates[|sc.fates|].Merged? <==> !NotToMerge(raw, index, sc.attempts, maxRetries))
  {
    hide IsTombstone, StripItemCount, ReadItemCount, ShouldDiscard;
  }

  lemma FailsEarlier(window: seq<Bytes>, first: nat, attempts: map<nat, nat>, maxRetries: int, merge: nat -> bool, k: int)
    requires window != [] && k < |window| - 1
    ensures MergeFails(window, first, attempts, maxRetries, merge, k)
       <==> MergeFails(window[..|window| - 1], first, attempts, maxRetries, merge, k)
  {
  }

  lemma LastEntryScanned(sc: Scan, window: seq<Bytes>, first: nat, attempts: map<nat, nat>, maxRetries: int, merge: nat -> bool)
    requires window != []
    requires ShouldDiscard(sc.attempts, maxRetries, first + |window| - 1) == ShouldDiscard(attempts, maxRetries, first + |window| - 1)
    ensures var k := |window| - 1;
            var t := ScanEntry(sc, first + k, window[k], maxRetries, merge(k));
            && (sc.failed ==> t == sc)
            && (!sc.failed ==>
                  if MergeFails(window, first, attempts, maxRetries, merge, k) then t == sc.(failed := true)
                  else !t.failed && |t.fates| == |sc.fates| + 1 && t.fates[..|sc.fates|] == sc.fates
                       && (t.fates[|sc.fates|].Merged? ==> merge(k)))
  {
    var k := |window| - 1;
    if !sc.failed {
      OneEntryScanned(sc, first + k, window[k], maxRetries, merge(k));
    }
    hide IsTombstone, StripItemCount, ReadItemCount, ShouldDiscard;
  }

  /** The scan has stopped in front of the first failing Merge, or gone through to the end. */
  ghost predicate ScanStops(sc: Scan, window: seq<Bytes>, first: nat, attempts: map<nat, nat>, maxRetries: int, merge: nat -> bool) {
    && |sc.fates| <= |window|
    && (if sc.failed then MergeFails(window, first, attempts, maxRetries, merge, |sc.fates|) else |sc.fates| == |window|)
    && (forall k :: k < |sc.fates| ==> !MergeFails(window, first, attempts, maxRetries, merge, k))
    && (forall k :: 0 <= k < |sc.fates| && sc.fates[k].Merged? ==> merge(k))
  }

  lemma StopsOneFurther(sc: Scan, window: seq<Bytes>, first: nat, attempts: map<nat, nat>, maxRetries: int, merge: nat -> bool)
    requires window != [] && ScanStops(sc, window[..|window| - 1], first, attempts, maxRetries, merge)
    requires ShouldDiscard(sc.attempts, maxRetries, first + |window| - 1) == ShouldDiscard(attempts, maxRetries, first + |window| - 1)
    ensures var k := |window| - 1;
            ScanStops(ScanEntry(sc, first + k, window[k], maxRetries, merge(k)), window, first, attempts, maxRetries, merge)
  {
    LastEntryScanned(sc, window, first, attempts, maxRetries, merge);
    hide ScanEntry, MergeFails, ShouldDiscard;
    var k := |window| - 1;
    forall j | j < k
      ensures MergeFails(window, first, attempts, maxRetries, merge, j) <==> MergeFails(window[..k], first, attempts, maxRetries, merge, j)
    {
      FailsEarlier(window, first, attempts, maxRetries, merge, j);
    }
    var t := ScanEntry(sc, first + k, window[k], maxRetries, merge(k));
    assert forall j :: 0 <= j < |sc.fates| && j < |t.fates| && t.fates[..|sc.fates|] == sc.fates ==> t.fates[j] == sc.fates[j];
  }

  lemma {:induction false} ScanAlwaysStops(window: seq<Bytes>, first: nat, attempts: map<nat, nat>, maxRetries: int, merge: nat -> bool)
    ensures ScanStops(ScanWindow(window, first, attempts, maxRetries, merge), window, first, attempts, maxRetries, merge)
    decreases |window|
  {
    if window == [] {
      StartOfScan(first, attempts, maxRetries, merge);
    } else {
      var k := |window| - 1;
      var init := window[..k];
      ScanAlwaysStops(init, first, attempts, maxRetries, merge);
      ScanFates(init, first, attempts, maxRetries, merge);
      hide ScanRight, ScanEntry, ScanStops, ShouldDiscard;
      var sc := ScanWindow(init, first, attempts, maxRetries, merge);
      LaterCounterStays(sc, init, first, attempts, maxRetries, first + k);
      StopsOneFurther(sc, window, first, attempts, maxRetries, merge);
    }
  }

  /** A scan fails exactly if some entry of the window that is neither a tombstone nor due for
      discarding has a Merge that fails.  It stops in front of the first such entry, and without
      one it goes through to the end.  What it took as merged was merged without an error. */
  lemma ScanStopsExactly(window: seq<Bytes>, first: nat, attempts: map<nat, nat>, maxRetries: int, merge: nat -> bool)
    ensures var sc := ScanWindow(window, first, attempts, maxRetries, merge);
            && (sc.failed <==> exists k :: MergeFails(window, first, attempts, maxRetries, merge, k))
            && (sc.failed ==> MergeFails(window, first, attempts, maxRetries, merge, |sc.fates|))
            && (forall k :: k < |sc.fates| ==> !MergeFails(window, first, attempts, maxRetries, merge, k))
            && (!sc.failed ==> |sc.fates| == |window|)
            && (forall k :: 0 <= k < |sc.fates| && sc.fates[k].Merged? ==> merge(k))
  {
    ScanAlwaysStops(window, first, attempts, maxRetries, merge);
    hide ScanWindow, NotToMerge;
  }
}
