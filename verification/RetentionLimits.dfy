/** What a valid configuration guarantees for runs of batches, and exactly when the
    snapshot limit can still be met. */
module RetentionLimits {
  import opened Messages
  import opened Wrappers
  import opened Store
  import opened Retention
  import opened Runs
  import C = Config

  function PolicyOf(v: C.Values): Policy
    requires C.Fits(v)
  {
    Policy(v.messagesPerChat, v.maxAge, v.cacheBytes)
  }

  predicate Legal(w: Submission, operations: int) {
    |w.batch| <= operations && forall m :: m in w.batch ==> m.Valid()
  }

  lemma LegalFits(v: C.Values, work: seq<Submission>)
    requires C.Fits(v) && forall w :: w in work ==> Legal(w, v.maxOperations)
    ensures forall w :: w in work ==> Fitting(w, PolicyOf(v), C.SnapshotLimit(v))
  {
    forall w | w in work ensures Fitting(w, PolicyOf(v), C.SnapshotLimit(v)) {
      C.SnapshotLimitFits(v, |w.batch|);
    }
  }

  /** Every run under a valid configuration, from an empty store: every chat is within the
      configured count with its anchor at the oldest row ever pruned, or exceeds the count
      by at most the one history batch that was cancelled on the way. Rows stop the
      writer only on a live batch after that, and only when the two batches together hold
      more than one batch and one message. */
  lemma ConfiguredRunTells(v: C.Values, work: seq<Submission>, turns: seq<Turn>)
    requires C.Fits(v) && forall w :: w in work ==> Legal(w, v.maxOperations)
    requires IsRun(PolicyOf(v), C.SnapshotLimit(v), v.maxChats, work, map[], turns)
    ensures RunTells(PolicyOf(v), C.SnapshotLimit(v), v.maxChats, work, map[], map[], turns)
    ensures !Stopped(work, turns) && CutOf(work, turns).None? ==>
              Settled(PolicyOf(v), After(map[], turns), RunLog(PolicyOf(v), work, map[], map[], turns))
    ensures Stopped(work, turns) ==>
              var n := |turns| - 1;
              var cut := CutOf(work, turns[..n]);
              RowTrouble(turns[n].outcome.err, After(map[], turns[..n]), v.maxChats, work[n].batch) ==>
                cut.Some? && |work[cut.value].batch| + |work[n].batch| > v.maxOperations + 1
  {
    EmptyIsSettled(PolicyOf(v));
    LegalFits(v, work);
    hide Within, IsRun;
    EveryRunTells(PolicyOf(v), C.SnapshotLimit(v), v.maxChats, work, map[], map[], turns);
  }

  /** A fresh store under a valid configuration performs such a run. */
  method RunConfigured(v: C.Values, work: seq<Submission>)
    returns (store: Memory, done: nat, err: Option<BatchError>, ghost turns: seq<Turn>)
    requires C.Fits(v) && forall w :: w in work ==> Legal(w, v.maxOperations)
    ensures fresh(store) && store.Valid() && store.maxChats == v.maxChats
    ensures IsRun(PolicyOf(v), C.SnapshotLimit(v), v.maxChats, work, map[], turns) && store.chats == After(map[], turns)
    ensures if err.Some? then Stopped(work, turns) && done == |turns| - 1 && turns[done].outcome.err == err
            else !Stopped(work, turns) && done == |turns| == |work|
    ensures RunTells(PolicyOf(v), C.SnapshotLimit(v), v.maxChats, work, map[], map[], turns)
    ensures err.Some? && RowTrouble(err, After(map[], turns[..done]), v.maxChats, work[done].batch) ==>
              var cut := CutOf(work, turns[..done]);
              cut.Some? && |work[cut.value].batch| + |work[done].batch| > v.maxOperations + 1
  {
    store := new Memory(v.maxChats);
    LegalFits(v, work);
    hide IsRun, RunTells, Within, RowTrouble, Legal, Fitting;
    done, err, turns := RunBatches(store, PolicyOf(v), C.SnapshotLimit(v), work);
    ConfiguredRunTells(v, work, turns);
  }

  /** For every settled store, every history batch, cancelled wherever, and every later
      live batch: the live batch has row trouble exactly when some chat it touches holds
      rows and new identifiers beyond the limit, and never while both batches together
      hold at most one batch and one message. */
  lemma LiveAfterHistoryTells(policy: Policy, operations: nat, maxChats: nat, history: Submission, live: Submission, pre: Chats,
                              log0: PruneLog, one: Turn, two: Turn)
    requires one.Performed? && two.Performed? && Within(policy, pre, 0, log0) && policy.messagesPerChat + operations + 1 <= MAX_SNAPSHOT_SUMMARIES
    requires Performs(policy, policy.messagesPerChat + operations + 1, maxChats, history, pre, one)
    requires Performs(policy, policy.messagesPerChat + operations + 1, maxChats, live, one.post, two)
    ensures Within(policy, one.post, if one.outcome.err.Some? then |history.batch| else 0, Recorded(log0, policy, pre, history, one))
    ensures RowTrouble(two.outcome.err, one.post, maxChats, live.batch) ==>
              Overfull(one.post, live.batch, policy.messagesPerChat + operations + 1)
    ensures OtherwiseClear(one.post, maxChats, live.batch, live.clock, live.cancelAt) ==>
              (RowTrouble(two.outcome.err, one.post, maxChats, live.batch) <==>
               Overfull(one.post, live.batch, policy.messagesPerChat + operations + 1))
    ensures |history.batch| + |live.batch| <= operations + 1 ==> !RowTrouble(two.outcome.err, one.post, maxChats, live.batch)
  {
    hide *;
    var limit, extra, log := policy.messagesPerChat + operations + 1,
      if one.outcome.err.Some? then |history.batch| else 0, Recorded(log0, policy, pre, history, one);
    PerformedTells(policy, limit, maxChats, history, pre, one, 0, log0);
    PerformedTells(policy, limit, maxChats, live, one.post, two, extra, log);
    RowTroubleExactly(two.outcome.err, one.post, maxChats, limit, live.batch, live.clock, live.cancelAt);
    if Overfull(one.post, live.batch, limit) {
      OverfullNeeds(policy, one.post, extra, log, live.batch, limit);
    }
  }

  /** The two batches, performed. */
  method HistoryThenLive(store: Memory, policy: Policy, operations: nat, history: Submission, live: Submission)
    returns (first: Option<BatchError>, second: Option<BatchError>, ghost one: Turn, ghost two: Turn)
    requires store.Valid() && policy.Valid()
    requires Fitting(history, policy, policy.messagesPerChat + operations + 1)
    requires Fitting(live, policy, policy.messagesPerChat + operations + 1)
    modifies store
    ensures store.Valid() && one.Performed? && |one.post| <= store.maxChats
    ensures Performs(policy, policy.messagesPerChat + operations + 1, store.maxChats, history, old(store.chats), one)
    ensures Performs(policy, policy.messagesPerChat + operations + 1, store.maxChats, live, one.post, two)
    ensures one.outcome.err == first && two.Performed? && two.outcome.err == second && two.post == store.chats
  {
    hide Performs, WellFormed, RowsBounded, Fitting;
    first, one := RunOne(store, policy, policy.messagesPerChat + operations + 1, history);
    second, two := RunOne(store, policy, policy.messagesPerChat + operations + 1, live);
  }

  // ---- batches on which it happens

  /** The message with identifier n; identifiers and times rise together. */
  function Sample(n: nat): Message { Message(1, n, n, true, true, 1, 0, 0, false, false) }

  /** A clock that stands still. */
  function Readouts(now: int, n: nat): (clock: seq<int>)
    ensures |clock| == n && forall i :: 0 <= i < n ==> clock[i] == now
  {
    seq(n, _ => now)
  }

  function Samples(from: nat, n: nat): seq<Message> { seq(n, i requires 0 <= i < n => Sample(from + i + 1)) }

  /** The first chat holds the rows 1 to n. */
  ghost predicate HoldsFirst(chats: Chats, n: nat) {
    WellFormed(chats) && forall id: nat :: id in RowsOf(chats, 1) <==> 1 <= id <= n
  }

  /** The identifiers from + 1 to from + n. */
  function Interval(from: nat, n: nat): (ids: set<nat>)
    ensures |ids| == n && forall id :: id in ids <==> from < id <= from + n
  {
    if n == 0 then {} else Interval(from, n - 1) + {from + n}
  }

  lemma SampleIn(n: nat, m: nat, x: Message)
    ensures x in Samples(n, m) <==> n < x.id <= n + m && x == Sample(x.id)
  {
    var batch := Samples(n, m);
    if x in batch {
      var i :| 0 <= i < |batch| && batch[i] == x;
      assert x == Sample(n + i + 1);
    }
    if n < x.id <= n + m && x == Sample(x.id) {
      assert batch[x.id - n - 1] == x;
    }
  }

  lemma SamplesMean(n: nat, m: nat)
    ensures |Samples(n, m)| == m && forall x :: x in Samples(n, m) ==> x.Valid() && x.chat == 1 && n < x.id <= n + m && x == Sample(x.id)
    ensures Touched(Samples(n, m)) == if m == 0 then {} else {1}
  {
    forall x | x in Samples(n, m) ensures x.chat == 1 && n < x.id <= n + m && x == Sample(x.id) { SampleIn(n, m, x); }
    SampleIn(n, m, Sample(n + m));
    if m > 0 { assert Sample(n + m) in Samples(n, m); }
  }

  lemma HeldRows(chats: Chats, n: nat)
    requires HoldsFirst(chats, n)
    ensures |RowsOf(chats, 1)| == n
  {
    assert RowsOf(chats, 1).Keys == Interval(0, n);
    assert |RowsOf(chats, 1)| == |RowsOf(chats, 1).Keys|;
  }

  lemma SamplesFresh(chats: Chats, n: nat, m: nat)
    requires HoldsFirst(chats, n)
    ensures FreshIds(chats, Samples(n, m), 1) == Interval(n, m) && |FreshIds(chats, Samples(n, m), 1)| == m
  {
    SamplesMean(n, m);
    forall id | id in Interval(n, m) ensures id in FreshIds(chats, Samples(n, m), 1) {
      SampleIn(n, m, Sample(id));
    }
    assert FreshIds(chats, Samples(n, m), 1) == Interval(n, m);
  }

  lemma SamplesAgree(chats: Chats, n: nat, m: nat, maxChats: nat)
    requires HoldsFirst(chats, n) && |chats| <= maxChats && (n == 0 ==> chats == map[] && maxChats > 0)
    ensures Agree(chats, Samples(n, m)) && FitsChats(chats, Samples(n, m), maxChats)
  {
    SamplesMean(n, m);
    if n > 0 {
      assert 1 in RowsOf(chats, 1);
      assert chats.Keys + Touched(Samples(n, m)) == chats.Keys && |chats| == |chats.Keys|;
    } else {
      assert chats.Keys + Touched(Samples(n, m)) == Touched(Samples(n, m));
    }
  }

  /** New messages pass a limit exactly when they and the stored rows do. */
  lemma SamplesOverfull(chats: Chats, n: nat, m: nat, limit: nat)
    requires HoldsFirst(chats, n) && n <= limit
    ensures Overfull(chats, Samples(n, m), limit) <==> n + m > limit
  {
    SamplesMean(n, m);
    SamplesFresh(chats, n, m);
    HeldRows(chats, n);
    assert m > 0 ==> 1 in Touched(Samples(n, m));
  }

  /** The rows after a write of new messages, with or without their bodies. */
  lemma SamplesHeld(chats: Chats, after: Chats, thin: seq<Message>, n: nat, m: nat)
    requires HoldsFirst(chats, n) && Thinned(thin, Samples(n, m)) && Stage(chats, thin).Staged?
    requires WellFormed(after) && RowsOf(after, 1) == Retention.Written(chats, thin, 1)
    ensures HoldsFirst(after, n + m)
  {
    FreshAreNew(chats, thin, Stage(chats, thin).rows, 1);
    ThinnedFresh(chats, thin, Samples(n, m), 1);
    SamplesFresh(chats, n, m);
    forall id: nat ensures id in Retention.Written(chats, thin, 1) <==> 1 <= id <= n + m {
      assert id in Interval(n, m) <==> n < id <= n + m;
      assert id in NewRows(Stage(chats, thin).rows, 1) <==> Key(1, id) in Stage(chats, thin).rows;
      assert id in NewIds(chats, Stage(chats, thin).rows, 1) <==> Key(1, id) in Stage(chats, thin).rows && id !in RowsOf(chats, 1);
    }
  }

  /** A store whose first chat holds as many rows as the policy keeps, written one by one. */
  method FilledStore(policy: Policy, maxChats: nat) returns (store: Memory)
    requires maxChats > 0 && policy.Valid() && policy.messagesPerChat <= MAX_SNAPSHOT_SUMMARIES
    ensures fresh(store) && store.Valid() && store.maxChats == maxChats && |store.chats| <= maxChats
    ensures HoldsFirst(store.chats, policy.messagesPerChat) && Settled(policy, store.chats, map[])
  {
    store := new Memory(maxChats);
    for i := 0 to policy.messagesPerChat
      invariant store.Valid() && HoldsFirst(store.chats, i) && OnlyChat(store.chats, i)
    {
      WriteSample(store, i);
    }
    HeldRows(store.chats, policy.messagesPerChat);
  }

  /** There is no other chat, and nothing was pruned. */
  ghost predicate OnlyChat(chats: Chats, n: nat) {
    (n == 0 ==> chats == map[]) && forall c :: c in chats ==> c == 1 && chats[c].anchor.None?
  }

  lemma SampleIsWritten(chats: Chats, maxChats: nat, n: nat)
    requires HoldsFirst(chats, n) && OnlyChat(chats, n) && |chats| <= maxChats && maxChats > 0 && n < MAX_SNAPSHOT_SUMMARIES
    ensures WriteOutcome(chats, maxChats, Samples(n, 1), false).Written?
  {
    SamplesAgree(chats, n, 1, maxChats);
    StageMeans(chats, Samples(n, 1));
    SamplesOverfull(chats, n, 1, MAX_SNAPSHOT_SUMMARIES);
    FitsUnlessOverfull(chats, Samples(n, 1));
  }

  lemma OneMoreHeld(chats: Chats, after: Chats, n: nat)
    requires HoldsFirst(chats, n) && OnlyChat(chats, n) && WellFormed(after) && Wrote(chats, after, Samples(n, 1), false)
    ensures HoldsFirst(after, n + 1) && OnlyChat(after, n + 1)
  {
    CommittedRows(chats, Samples(n, 1), false, 1);
    SamplesHeld(chats, after, Samples(n, 1), n, 1);
    SamplesMean(n, 1);
  }

  method WriteSample(store: Memory, n: nat)
    requires store.Valid() && HoldsFirst(store.chats, n) && OnlyChat(store.chats, n) && n < MAX_SNAPSHOT_SUMMARIES
    requires store.maxChats > 0
    modifies store
    ensures store.Valid() && OnlyChat(store.chats, n + 1) && HoldsFirst(store.chats, n + 1)
  {
    ghost var pre := store.chats;
    SamplesMean(n, 1);
    SampleIsWritten(pre, store.maxChats, n);
    hide HoldsFirst, OnlyChat, WriteOutcome;
    var r := store.WriteBatch(Samples(n, 1), History, false);
    assert Stage(pre, Samples(n, 1)).Staged? by { StagedIfWritten(pre, store.maxChats, Samples(n, 1)); }
    OneMoreHeld(pre, store.chats, n);
  }

  lemma StagedIfWritten(chats: Chats, maxChats: nat, batch: seq<Message>)
    requires WriteOutcome(chats, maxChats, batch, false).Written?
    ensures Stage(chats, batch).Staged?
  {
  }

  /** A submission of new messages at a moment that does not pass. */
  function Burst(from: nat, n: nat, origin: Origin, now: int, usage: nat, cancelAt: nat): Submission {
    Submission(Samples(from, n), origin, Readouts(now, 2 * n), usage, cancelAt, true)
  }

  lemma BurstFits(policy: Policy, limit: nat, from: nat, n: nat, origin: Origin, now: int, usage: nat, cancelAt: nat)
    requires n <= MAX_WRITE_BATCH && policy.messagesPerChat + n <= limit <= MAX_SNAPSHOT_SUMMARIES && now != 0
    ensures Fitting(Burst(from, n, origin, now, usage, cancelAt), policy, limit)
  {
    SamplesMean(from, n);
  }

  /** A history batch that fills the chat further is written; the cancellation comes next. */
  lemma BurstStops(policy: Policy, operations: nat, chats: Chats, maxChats: nat, h: nat, now: int, usage: nat,
                   limit: nat, w: Submission, err: Option<BatchError>)
    requires limit == policy.messagesPerChat + operations + 1 && w == Burst(policy.messagesPerChat, h, History, now, usage, h)
    requires Ended(err, chats, maxChats, limit, w.batch, w.clock, w.cancelAt)
    requires policy.Valid() && HoldsFirst(chats, policy.messagesPerChat) && |chats| <= maxChats && now != 0
    requires policy.messagesPerChat + operations + 1 <= MAX_SNAPSHOT_SUMMARIES && 0 < h <= operations
    ensures StopsBeforePrunes(chats, maxChats, limit, w) && err == Some(Cancelled)
  {
    var k := policy.messagesPerChat;
    SamplesMean(k, h);
    SamplesAgree(chats, k, h, maxChats);
    SamplesOverfull(chats, k, h, k + operations + 1);
    SamplesOverfull(chats, k, h, MAX_SNAPSHOT_SUMMARIES);
    HeldRows(chats, k);
  }

  lemma AllRowsHeld(chats: Chats, after: Chats, n: nat, m: nat)
    requires HoldsFirst(chats, n) && WellFormed(after) && LeavesAllRows(chats, after, Samples(n, m), History)
    ensures HoldsFirst(after, n + m)
  {
    var thin :| Thinned(thin, Samples(n, m)) && Wrote(chats, after, thin, false);
    CommittedRows(chats, thin, false, 1);
    SamplesHeld(chats, after, thin, n, m);
  }

  lemma LiveIsClear(chats: Chats, maxChats: nat, held: nat, n: nat, clock: seq<int>, cancelAt: nat)
    requires HoldsFirst(chats, held) && |chats| <= maxChats && n < cancelAt && held > 0
    requires forall i :: 0 <= i < |clock| ==> clock[i] != 0
    ensures OtherwiseClear(chats, maxChats, Samples(held, n), clock, cancelAt)
  {
    SamplesMean(held, n);
    SamplesAgree(chats, held, n, maxChats);
  }

  /** The cancelled batch leaves the chat filled further. */
  lemma BurstLeaves(policy: Policy, operations: nat, pre: Chats, maxChats: nat, h: nat, now: int, usage: nat, one: Turn)
    requires policy.Valid() && HoldsFirst(pre, policy.messagesPerChat) && |pre| <= maxChats && now != 0
    requires policy.messagesPerChat + operations + 1 <= MAX_SNAPSHOT_SUMMARIES && 0 < h <= operations
    requires Performs(policy, policy.messagesPerChat + operations + 1, maxChats, Burst(policy.messagesPerChat, h, History, now, usage, h),
                      pre, one)
    ensures one.Performed? && one.outcome.err == Some(Cancelled) && HoldsFirst(one.post, policy.messagesPerChat + h)
  {
    var k, limit := policy.messagesPerChat, policy.messagesPerChat + operations + 1;
    var w := Burst(k, h, History, now, usage, h);
    hide HoldsFirst, WellFormed, Performs, StopsBeforePrunes, Ended, LeavesAllRows, Samples;
    PerformedEnds(policy, limit, maxChats, w, pre, one);
    BurstStops(policy, operations, pre, maxChats, h, now, usage, limit, w, one.outcome.err);
    AllRowsHeld(pre, one.post, k, h);
  }

  lemma BurstMeans(from: nat, n: nat, origin: Origin, now: int, usage: nat, cancelAt: nat)
    requires now != 0
    ensures var w := Burst(from, n, origin, now, usage, cancelAt);
      w.batch == Samples(from, n) && w.cancelAt == cancelAt && forall i :: 0 <= i < |w.clock| ==> w.clock[i] != 0
  {
  }

  /** On a store whose first chat is full: a history batch of h new messages cancelled
      between its write and its prune, and then a live batch of n newer ones. The live
      batch has row trouble exactly when both together hold more than one batch and one
      message. */
  lemma BurstsOverfill(policy: Policy, operations: nat, maxChats: nat, h: nat, n: nat, now: int, usage: nat, pre: Chats, one: Turn,
                       two: Turn)
    requires policy.Valid() && policy.messagesPerChat + operations + 1 <= MAX_SNAPSHOT_SUMMARIES && now != 0 && 0 < h <= operations
    requires HoldsFirst(pre, policy.messagesPerChat) && |pre| <= maxChats && one.Performed? && |one.post| <= maxChats
    requires Performs(policy, policy.messagesPerChat + operations + 1, maxChats, Burst(policy.messagesPerChat, h, History, now, usage, h),
                      pre, one)
    requires Performs(policy, policy.messagesPerChat + operations + 1, maxChats,
                      Burst(policy.messagesPerChat + h, n, Realtime, now, usage, n + 1), one.post, two)
    ensures two.Performed? && one.outcome.err == Some(Cancelled)
    ensures RowTrouble(two.outcome.err, one.post, maxChats, Samples(policy.messagesPerChat + h, n)) <==> h + n > operations + 1
  {
    hide *;
    var k, limit := policy.messagesPerChat, policy.messagesPerChat + operations + 1;
    var live := Burst(k + h, n, Realtime, now, usage, n + 1);
    BurstLeaves(policy, operations, pre, maxChats, h, now, usage, one);
    BurstMeans(k + h, n, Realtime, now, usage, n + 1);
    PerformedEnds(policy, limit, maxChats, live, one.post, two);
    RowTroubleExactly(two.outcome.err, one.post, maxChats, limit, live.batch, live.clock, live.cancelAt);
    LiveIsClear(one.post, maxChats, k + h, n, live.clock, live.cancelAt);
    SamplesOverfull(one.post, k + h, n, limit);
  }

  /** Such batches, performed. */
  method CancelledBatchOverfills(policy: Policy, operations: nat, maxChats: nat, h: nat, n: nat, usage: nat, now: int)
    returns (first: Option<BatchError>, second: Option<BatchError>, ghost pre: Chats, ghost one: Turn, ghost two: Turn)
    requires policy.Valid() && policy.messagesPerChat + operations + 1 <= MAX_SNAPSHOT_SUMMARIES
    requires maxChats > 0 && now != 0 && operations <= MAX_WRITE_BATCH && 0 < h <= operations && n <= operations
    ensures one.Performed? && one.outcome.err == first && two.Performed? && two.outcome.err == second
    ensures HoldsFirst(pre, policy.messagesPerChat)
    ensures Performs(policy, policy.messagesPerChat + operations + 1, maxChats, Burst(policy.messagesPerChat, h, History, now, usage, h),
                     pre, one)
    ensures Performs(policy, policy.messagesPerChat + operations + 1, maxChats,
                     Burst(policy.messagesPerChat + h, n, Realtime, now, usage, n + 1), one.post, two)
    ensures first == Some(Cancelled)
    ensures RowTrouble(second, one.post, maxChats, Samples(policy.messagesPerChat + h, n)) <==> h + n > operations + 1
  {
    hide *;
    var k := policy.messagesPerChat;
    var store := FilledStore(policy, maxChats);
    pre := store.chats;
    BurstFits(policy, k + operations + 1, k, h, History, now, usage, h);
    BurstFits(policy, k + operations + 1, k + h, n, Realtime, now, usage, n + 1);
    var history, live := Burst(k, h, History, now, usage, h), Burst(k + h, n, Realtime, now, usage, n + 1);
    first, second, one, two := HistoryThenLive(store, policy, operations, history, live);
    BurstsOverfill(policy, operations, maxChats, h, n, now, usage, pre, one, two);
  }
}
