/** Validation of the configuration and the bounds it buys the writer. */
module Config {
  import opened Wrappers

  const INT64_MAX: int := 0x7FFF_FFFF_FFFF_FFFF

  /** A 64-bit signed integer, also Go's int on 64-bit platforms. */
  type Int64 = x: int | -INT64_MAX - 1 <= x <= INT64_MAX

  const KIB: Int64 := 1024
  const MIB: Int64 := 1024 * 1024
  const MILLISECOND: Int64 := 1_000_000
  const DAY: Int64 := 86_400_000 * MILLISECOND

  const MAX_QUEUE_BYTES: Int64 := 6 * MIB + 512 * KIB
  const MAX_SUMMARIES: Int64 := 551

  datatype QueueLimit = QueueLimit(entries: Int64, bytes: Int64)

  datatype Values = Values(
    messagesPerChat: Int64, maxAge: Int64, cacheBytes: Int64, maxChats: Int64,
    realtime: QueueLimit, history: QueueLimit, commands: QueueLimit, liveWrites: QueueLimit,
    historyWrites: QueueLimit, viewUpdates: QueueLimit, liveWriteBusy: Int64,
    chunkRecords: Int64, chunkBytes: Int64, maxOperations: Int64, maxWait: Int64)

  /** The configuration values and the three checked aggregates. */
  datatype Field =
    | MessagesPerChat | MaxAge | CacheBytes | MaxChats
    | RealtimeEntries | RealtimeBytes | HistoryEntries | HistoryBytes | CommandsEntries | CommandsBytes
    | LiveWritesEntries | LiveWritesBytes | HistoryWritesEntries | HistoryWritesBytes | ViewUpdatesEntries | ViewUpdatesBytes
    | LiveWriteBusy | ChunkRecords | ChunkBytes | MaxOperations | MaxWait
    | SummaryRecords | TotalBytes

  datatype Rule = Required | OutOfRange | Overflow | AggregateExceeded

  datatype Limit = Limit(field: Field, value: Int64, min: Int64, max: Int64) {
    predicate Within() { min <= value <= max }
  }

  /** What is reported: a value, the bounds it should be in, and the rule it breaks. */
  datatype Violation = Violation(rule: Rule, limit: Limit)

  // ---- the meaning of a valid configuration

  predicate QueueWithin(q: QueueLimit, minEntries: int, maxEntries: int, minBytes: int, maxBytes: int) {
    minEntries <= q.entries <= maxEntries && minBytes <= q.bytes <= maxBytes
  }

  predicate RetentionWithin(v: Values) {
    && 20 <= v.messagesPerChat <= 500 && DAY <= v.maxAge <= 365 * DAY
    && 32 * MIB <= v.cacheBytes <= 2048 * MIB && 100 <= v.maxChats <= 10_000
  }

  predicate QueuesWithin(v: Values) {
    && QueueWithin(v.realtime, 32, 512, 512 * KIB, 4 * MIB)
    && QueueWithin(v.history, 1, 16, 128 * KIB, 2 * MIB)
    && QueueWithin(v.commands, 1, 64, 64 * KIB, MIB)
    && QueueWithin(v.liveWrites, 16, 256, 256 * KIB, 2 * MIB)
    && QueueWithin(v.historyWrites, 16, 512, 512 * KIB, 4 * MIB)
    && QueueWithin(v.viewUpdates, 64, 64, 128 * KIB, MIB)
    && 5 * MILLISECOND <= v.liveWriteBusy <= 100 * MILLISECOND
  }

  function QueueBytes(v: Values): int {
    v.realtime.bytes + v.history.bytes + v.commands.bytes + v.liveWrites.bytes + v.historyWrites.bytes + v.viewUpdates.bytes
  }

  /** Ranges, the byte total of all queues, one chunk within the history queue, and
      one batch within both write queues. */
  predicate Fits(v: Values) {
    && RetentionWithin(v) && QueuesWithin(v)
    && 1 <= v.chunkRecords <= 32 && 64 * KIB <= v.chunkBytes <= 128 * KIB
    && 1 <= v.maxOperations <= 50 && 5 * MILLISECOND <= v.maxWait <= 100 * MILLISECOND
    && QueueBytes(v) <= MAX_QUEUE_BYTES
    && v.chunkBytes <= v.history.bytes
    && v.maxOperations <= v.liveWrites.entries && v.maxOperations <= v.historyWrites.entries
  }

  // ---- the checks

  function RetentionLimits(v: Values): (s: seq<Limit>)
    ensures |s| == 4
  {
    [Limit(MessagesPerChat, v.messagesPerChat, 20, 500), Limit(MaxAge, v.maxAge, DAY, 365 * DAY),
     Limit(CacheBytes, v.cacheBytes, 32 * MIB, 2048 * MIB), Limit(MaxChats, v.maxChats, 100, 10_000)]
  }

  function OtherLimits(v: Values): (s: seq<Limit>)
    ensures |s| == 17
  {
    [Limit(RealtimeEntries, v.realtime.entries, 32, 512), Limit(RealtimeBytes, v.realtime.bytes, 512 * KIB, 4 * MIB),
     Limit(HistoryEntries, v.history.entries, 1, 16), Limit(HistoryBytes, v.history.bytes, 128 * KIB, 2 * MIB),
     Limit(CommandsEntries, v.commands.entries, 1, 64), Limit(CommandsBytes, v.commands.bytes, 64 * KIB, MIB),
     Limit(LiveWritesEntries, v.liveWrites.entries, 16, 256), Limit(LiveWritesBytes, v.liveWrites.bytes, 256 * KIB, 2 * MIB),
     Limit(HistoryWritesEntries, v.historyWrites.entries, 16, 512), Limit(HistoryWritesBytes, v.historyWrites.bytes, 512 * KIB, 4 * MIB),
     Limit(ViewUpdatesEntries, v.viewUpdates.entries, 64, 64), Limit(ViewUpdatesBytes, v.viewUpdates.bytes, 128 * KIB, MIB),
     Limit(LiveWriteBusy, v.liveWriteBusy, 5 * MILLISECOND, 100 * MILLISECOND),
     Limit(ChunkRecords, v.chunkRecords, 1, 32), Limit(ChunkBytes, v.chunkBytes, 64 * KIB, 128 * KIB),
     Limit(MaxOperations, v.maxOperations, 1, 50), Limit(MaxWait, v.maxWait, 5 * MILLISECOND, 100 * MILLISECOND)]
  }

  predicate AllPositive(s: seq<Limit>) { forall i :: 0 <= i < |s| ==> s[i].value > 0 }

  predicate AllWithin(s: seq<Limit>) { forall i :: 0 <= i < |s| ==> s[i].Within() }

  /** Sums that would leave 64 bits are reported, never wrapped. */
  function CheckedAdd(a: Int64, b: Int64): (r: Option<Int64>)
    ensures r.Some? <==> -INT64_MAX - 1 <= a + b <= INT64_MAX
    ensures r.Some? ==> r.value == a + b
  {
    if b > 0 && a > INT64_MAX - b then None
    else if b < 0 && a < -INT64_MAX - 1 - b then None
    else Some(a + b)
  }

  /** The first value that is not positive is at position i. */
  predicate FirstBad(limits: seq<Limit>, i: nat) {
    i < |limits| && limits[i].value <= 0 && forall j :: 0 <= j < i ==> limits[j].value > 0
  }

  /** The first value outside its range is at position i. */
  predicate FirstOutside(limits: seq<Limit>, i: nat) {
    i < |limits| && !limits[i].Within() && forall j :: 0 <= j < i ==> limits[j].Within()
  }

  method ValidatePositive(limits: seq<Limit>) returns (err: Option<Violation>)
    ensures err.None? <==> AllPositive(limits)
    ensures err.Some? ==>
              exists i: nat :: FirstBad(limits, i) && err == Some(Violation(if limits[i].value == 0 then Required else OutOfRange, limits[i]))
  {
    for i := 0 to |limits|
      invariant AllPositive(limits[..i])
    {
      assert forall j :: 0 <= j < i ==> limits[j] == limits[..i][j];
      assert limits[i].value <= 0 ==> FirstBad(limits, i);
      if limits[i].value == 0 {
        return Some(Violation(Required, limits[i]));
      }
      if limits[i].value < 0 {
        return Some(Violation(OutOfRange, limits[i]));
      }
    }
    return None;
  }

  method ValidateRanges(limits: seq<Limit>) returns (err: Option<Violation>)
    ensures err.None? <==> AllPositive(limits) && AllWithin(limits)
    ensures AllPositive(limits) && err.Some? ==> exists i: nat :: FirstOutside(limits, i) && err == Some(Violation(OutOfRange, limits[i]))
  {
    err := ValidatePositive(limits);
    if err.Some? {
      return;
    }
    for i := 0 to |limits|
      invariant AllWithin(limits[..i])
    {
      assert forall j :: 0 <= j < i ==> limits[j] == limits[..i][j];
      if limits[i].value < limits[i].min || limits[i].value > limits[i].max {
        assert FirstOutside(limits, i);
        return Some(Violation(OutOfRange, limits[i]));
      }
    }
    return None;
  }

  method CheckedSummaries(messagesPerChat: Int64, operations: Int64) returns (r: Option<Int64>)
    requires messagesPerChat > 0 && operations > 0
    ensures r.Some? <==> messagesPerChat + operations + 1 <= INT64_MAX
    ensures r.Some? ==> r.value == messagesPerChat + operations + 1
  {
    r := CheckedAdd(messagesPerChat, operations);
    if r.Some? {
      r := CheckedAdd(r.value, 1);
    }
  }

  function Sum(s: seq<int>): int {
    if s == [] then 0 else Sum(s[..|s|-1]) + s[|s|-1]
  }

  lemma {:induction false} SumOfPrefix(s: seq<int>, i: nat)
    requires i <= |s| && forall j :: 0 <= j < |s| ==> s[j] > 0
    ensures 0 <= Sum(s[..i]) <= Sum(s)
    decreases |s|
  {
    if i < |s| {
      SumOfPrefix(s[..|s|-1], i);
      assert s[..|s|-1][..i] == s[..i];
      SumOfPrefix(s[..|s|-1], |s| - 1);
    } else {
      assert s[..i] == s;
      if s != [] {
        SumOfPrefix(s[..|s|-1], |s| - 1);
        assert s[..|s|-1][..|s|-1] == s[..|s|-1];
      }
    }
  }

  function Budgets(v: Values): (s: seq<Int64>)
    ensures |s| == 6
  {
    [v.realtime.bytes, v.history.bytes, v.commands.bytes, v.liveWrites.bytes, v.historyWrites.bytes, v.viewUpdates.bytes]
  }

  predicate InInt64(n: int) { -INT64_MAX - 1 <= n <= INT64_MAX }

  /** Every running sum, from the first value on, fits 64 bits. */
  predicate SumsFit(s: seq<int>) { forall n :: 0 <= n <= |s| ==> InInt64(Sum(s[..n])) }

  /** For any six values: the total, unless some running sum leaves 64 bits. */
  method QueueBytesTotal(v: Values) returns (r: Option<Int64>)
    ensures r.Some? <==> SumsFit(Budgets(v))
    ensures r.Some? ==> r.value == QueueBytes(v)
  {
    var budgets := Budgets(v);
    var total: Int64 := 0;
    for i := 0 to |budgets|
      invariant total == Sum(budgets[..i]) && forall n :: 0 <= n <= i ==> InInt64(Sum(budgets[..n]))
    {
      SumNext(budgets, i);
      var next := CheckedAdd(total, budgets[i]);
      if next.None? {
        assert !InInt64(Sum(budgets[..i+1]));
        return None;
      }
      total := next.value;
    }
    assert budgets[..|budgets|] == budgets;
    SixSum(budgets);
    return Some(total);
  }

  /** Positive budgets overflow exactly when their total does. */
  lemma PositiveSumsFit(v: Values)
    requires AllPositive(OtherLimits(v))
    ensures SumsFit(Budgets(v)) <==> QueueBytes(v) <= INT64_MAX
  {
    var s := Budgets(v);
    PositiveBytes(v);
    SixSum(s);
    assert s[..6] == s;
    forall n | 0 <= n <= 6 ensures 0 <= Sum(s[..n]) <= Sum(s) { SumOfPrefix(s, n); }
    assert InInt64(Sum(s[..6])) <==> QueueBytes(v) <= INT64_MAX;
  }

  lemma SumNext(s: seq<int>, i: nat)
    requires i < |s|
    ensures Sum(s[..i+1]) == Sum(s[..i]) + s[i]
  {
    assert s[..i+1][..i] == s[..i];
  }

  lemma SixSum(s: seq<int>)
    requires |s| == 6
    ensures Sum(s) == s[0] + s[1] + s[2] + s[3] + s[4] + s[5]
  {
    forall i | 0 <= i < 6 ensures Sum(s[..i+1]) == Sum(s[..i]) + s[i] { SumNext(s, i); }
    assert Sum(s[..0+1]) == Sum(s[..0]) + s[0] && Sum(s[..1+1]) == Sum(s[..1]) + s[1];
    assert Sum(s[..2+1]) == Sum(s[..2]) + s[2] && Sum(s[..3+1]) == Sum(s[..3]) + s[3];
    assert Sum(s[..4+1]) == Sum(s[..4]) + s[4] && Sum(s[..5+1]) == Sum(s[..5]) + s[5];
    assert s[..6] == s;
  }

  lemma PositiveBytes(v: Values)
    requires AllPositive(OtherLimits(v))
    ensures v.realtime.bytes > 0 && v.history.bytes > 0 && v.commands.bytes > 0
    ensures v.liveWrites.bytes > 0 && v.historyWrites.bytes > 0 && v.viewUpdates.bytes > 0
    ensures v.maxOperations > 0
  {
    var s := OtherLimits(v);
    assert s[1].value > 0 && s[3].value > 0 && s[5].value > 0 && s[7].value > 0 && s[9].value > 0 && s[11].value > 0;
    assert s[15].value > 0;
  }

  lemma LimitsMean(v: Values)
    ensures AllWithin(RetentionLimits(v)) <==> RetentionWithin(v)
    ensures AllWithin(OtherLimits(v)) <==>
              (QueuesWithin(v) && 1 <= v.chunkRecords <= 32 && 64 * KIB <= v.chunkBytes <= 128 * KIB
               && 1 <= v.maxOperations <= 50 && 5 * MILLISECOND <= v.maxWait <= 100 * MILLISECOND)
    ensures AllWithin(RetentionLimits(v)) ==> AllPositive(RetentionLimits(v))
    ensures AllWithin(OtherLimits(v)) ==> AllPositive(OtherLimits(v))
  {
    var r := RetentionLimits(v);
    if AllWithin(r) {
      assert r[0].Within() && r[1].Within() && r[2].Within() && r[3].Within();
    }
    if AllWithin(OtherLimits(v)) { OtherLimitsWithin(v); }
  }

  lemma OtherLimitsWithin(v: Values)
    requires AllWithin(OtherLimits(v))
    ensures QueuesWithin(v) && 1 <= v.chunkRecords <= 32 && 64 * KIB <= v.chunkBytes <= 128 * KIB
    ensures 1 <= v.maxOperations <= 50 && 5 * MILLISECOND <= v.maxWait <= 100 * MILLISECOND
  {
    var s := OtherLimits(v);
    assert s[0].Within() && s[1].Within() && s[2].Within() && s[3].Within() && s[4].Within() && s[5].Within();
    assert s[6].Within() && s[7].Within() && s[8].Within() && s[9].Within() && s[10].Within() && s[11].Within();
    assert s[12].Within() && s[13].Within() && s[14].Within() && s[15].Within() && s[16].Within();
  }

  function AllLimits(v: Values): seq<Limit> { RetentionLimits(v) + OtherLimits(v) }

  predicate SumsOverflow(v: Values) { v.messagesPerChat + v.maxOperations + 1 > INT64_MAX || QueueBytes(v) > INT64_MAX }

  /** Each field is within its own range. */
  predicate FieldsWithin(v: Values) { AllWithin(RetentionLimits(v)) && AllWithin(OtherLimits(v)) }

  /** The least of the two write queues' entries. */
  function WriteEntries(v: Values): Int64 {
    if v.historyWrites.entries < v.liveWrites.entries then v.historyWrites.entries else v.liveWrites.entries
  }

  /** The bounds that join several fields, in the order in which they are looked at. */
  function Aggregates(v: Values): (s: seq<Limit>)
    requires !SumsOverflow(v) && AllPositive(AllLimits(v))
    ensures |s| == 4
  {
    PositiveParts(RetentionLimits(v), OtherLimits(v));
    PositiveBytes(v);
    assert RetentionLimits(v)[0].value > 0;
    [Limit(SummaryRecords, v.messagesPerChat + v.maxOperations + 1, 1, MAX_SUMMARIES),
     Limit(TotalBytes, QueueBytes(v), 1, MAX_QUEUE_BYTES),
     Limit(ChunkBytes, v.chunkBytes, 64 * KIB, v.history.bytes),
     Limit(MaxOperations, v.maxOperations, 1, WriteEntries(v))]
  }

  /** The first bound that is passed is at position i. */
  predicate FirstPassed(limits: seq<Limit>, i: nat) {
    i < |limits| && limits[i].value > limits[i].max && forall j :: 0 <= j < i ==> limits[j].value <= limits[j].max
  }

  /** A report names the first value that is not positive; if there is none, a sum that
      leaves 64 bits, summaries before bytes; if there is none, the first value outside its
      range; and else the first joint bound that is passed. */
  ghost predicate Reports(v: Values, e: Violation) {
    var all := AllLimits(v);
    if !AllPositive(all) then
      exists i: nat :: FirstBad(all, i) && e == Violation(if all[i].value == 0 then Required else OutOfRange, all[i])
    else if SumsOverflow(v) then
      e.rule == Overflow && e.limit ==
      if v.messagesPerChat + v.maxOperations + 1 > INT64_MAX then Limit(SummaryRecords, INT64_MAX, 1, MAX_SUMMARIES)
      else Limit(TotalBytes, INT64_MAX, 1, MAX_QUEUE_BYTES)
    else if !FieldsWithin(v) then exists i: nat :: FirstOutside(all, i) && e == Violation(OutOfRange, all[i])
    else exists i: nat :: FirstPassed(Aggregates(v), i) && e == Violation(AggregateExceeded, Aggregates(v)[i])
  }

  /** A joint bound is passed exactly when fields within their ranges do not fit. */
  lemma AggregatesMean(v: Values)
    requires AllPositive(AllLimits(v)) && FieldsWithin(v) && !SumsOverflow(v)
    ensures Fits(v) <==> forall i :: 0 <= i < 4 ==> Aggregates(v)[i].value <= Aggregates(v)[i].max
  {
    LimitsMean(v);
    var s := Aggregates(v);
    assert (forall i :: 0 <= i < 4 ==> s[i].value <= s[i].max) <==>
      (s[0].value <= s[0].max && s[1].value <= s[1].max && s[2].value <= s[2].max && s[3].value <= s[3].max);
  }

  /** The first outside of a list is the first outside of a part of it. */
  lemma FirstOfParts(a: seq<Limit>, b: seq<Limit>, i: nat)
    ensures FirstOutside(a, i) ==> FirstOutside(a + b, i)
    ensures AllWithin(a) && FirstOutside(b, i) ==> FirstOutside(a + b, |a| + i)
  {
  }

  /** Signs first, then sums, then ranges, then the bounds that join several fields. */
  method Validate(v: Values) returns (err: Option<Violation>)
    ensures err.None? <==> Fits(v)
    ensures err.Some? ==> Reports(v, err.value)
  {
    LimitsMean(v);
    err := ValidatePositive(AllLimits(v));
    PositiveParts(RetentionLimits(v), OtherLimits(v));
    if err.Some? {
      return;
    }
    PositiveBytes(v);
    PositiveSumsFit(v);
    assert RetentionLimits(v)[0].value > 0;
    var records := CheckedSummaries(v.messagesPerChat, v.maxOperations);
    if records.None? {
      return Some(Violation(Overflow, Limit(SummaryRecords, INT64_MAX, 1, MAX_SUMMARIES)));
    }
    var total := QueueBytesTotal(v);
    if total.None? {
      return Some(Violation(Overflow, Limit(TotalBytes, INT64_MAX, 1, MAX_QUEUE_BYTES)));
    }
    err := ValidateFields(v);
    if err.Some? {
      return;
    }
    err := ValidateAggregates(v, records.value, total.value);
  }

  method ValidateFields(v: Values) returns (err: Option<Violation>)
    requires AllPositive(RetentionLimits(v)) && AllPositive(OtherLimits(v))
    ensures err.None? <==> FieldsWithin(v)
    ensures err.Some? ==> exists i: nat :: FirstOutside(AllLimits(v), i) && err == Some(Violation(OutOfRange, AllLimits(v)[i]))
  {
    err := ValidateRanges(RetentionLimits(v));
    if err.Some? {
      var i: nat :| FirstOutside(RetentionLimits(v), i) && err == Some(Violation(OutOfRange, RetentionLimits(v)[i]));
      FirstOfParts(RetentionLimits(v), OtherLimits(v), i);
      assert FirstOutside(AllLimits(v), i) && AllLimits(v)[i] == RetentionLimits(v)[i];
      return;
    }
    err := ValidateRanges(OtherLimits(v));
    if err.Some? {
      var i: nat :| FirstOutside(OtherLimits(v), i) && err == Some(Violation(OutOfRange, OtherLimits(v)[i]));
      FirstOfParts(RetentionLimits(v), OtherLimits(v), i);
      assert FirstOutside(AllLimits(v), 4 + i) && AllLimits(v)[4 + i] == OtherLimits(v)[i];
    }
  }

  method ValidateAggregates(v: Values, records: Int64, total: Int64) returns (err: Option<Violation>)
    requires AllPositive(AllLimits(v)) && FieldsWithin(v) && !SumsOverflow(v)
    requires records == v.messagesPerChat + v.maxOperations + 1 && total == QueueBytes(v)
    ensures err.None? <==> Fits(v)
    ensures err.Some? ==> exists i: nat :: FirstPassed(Aggregates(v), i) && err == Some(Violation(AggregateExceeded, Aggregates(v)[i]))
  {
    AggregatesMean(v);
    ghost var s := Aggregates(v);
    if records > MAX_SUMMARIES {
      assert FirstPassed(s, 0);
      return Some(Violation(AggregateExceeded, Limit(SummaryRecords, records, 1, MAX_SUMMARIES)));
    }
    if total > MAX_QUEUE_BYTES {
      assert FirstPassed(s, 1);
      return Some(Violation(AggregateExceeded, Limit(TotalBytes, total, 1, MAX_QUEUE_BYTES)));
    }
    if v.chunkBytes > v.history.bytes {
      assert FirstPassed(s, 2);
      return Some(Violation(AggregateExceeded, Limit(ChunkBytes, v.chunkBytes, 64 * KIB, v.history.bytes)));
    }
    var writeEntries := v.liveWrites.entries;
    if v.historyWrites.entries < writeEntries {
      writeEntries := v.historyWrites.entries;
    }
    if v.maxOperations > writeEntries {
      assert FirstPassed(s, 3);
      return Some(Violation(AggregateExceeded, Limit(MaxOperations, v.maxOperations, 1, writeEntries)));
    }
    return None;
  }

  lemma PositiveParts(a: seq<Limit>, b: seq<Limit>)
    ensures AllPositive(a + b) <==> AllPositive(a) && AllPositive(b)
  {
    if AllPositive(a + b) {
      forall i | 0 <= i < |b| ensures b[i].value > 0 { assert (a + b)[|a| + i] == b[i]; }
      forall i | 0 <= i < |a| ensures a[i].value > 0 { assert (a + b)[i] == a[i]; }
    }
  }

  /** The retention limit of the writer, as the connected service computes it. */
  function SnapshotLimit(v: Values): int { v.messagesPerChat + v.maxOperations + 1 }

  /** A valid configuration leaves the snapshot limit within the store's 551 rows,
      above every chat before and after a batch. */
  lemma SnapshotLimitFits(v: Values, batch: nat)
    requires Fits(v) && batch <= v.maxOperations
    ensures v.messagesPerChat + batch < SnapshotLimit(v) <= MAX_SUMMARIES
  {
  }
}
