/** Whole runs of the single writer: its batches one after the other on one store, going on
    past a cancelled history batch. */
module Runs {
  import opened Messages
  import opened Wrappers
  import opened Store
  import opened Retention

  /** One batch of a run: what the clock will read, the moment its context is cancelled,
      and whether that is only the history context, so that the writer goes on. */
  datatype Offer = Submission(batch: seq<Message>, origin: Origin, clock: seq<int>, usage: nat, cancelAt: nat,
                              historyOnly: bool)

  /** The clock does not run out. */
  type Submission = w: Offer | 2 * |w.batch| <= |w.clock| witness Submission([], Realtime, [], 0, 0, false)

  /** What became of a submission: given up, or performed, with the store it left, its
      outcome and the cutoffs of the chats it pruned. */
  datatype Turn = GivenUp | Performed(post: Chats, outcome: BatchOutcome, cutoffs: map<nat, int>)

  predicate Fitting(w: Submission, policy: Policy, limit: nat) {
    && |w.batch| <= MAX_WRITE_BATCH && (forall m :: m in w.batch ==> m.Valid())
    && policy.messagesPerChat + |w.batch| <= limit <= MAX_SNAPSHOT_SUMMARIES
  }

  /** The rows as the early decisions leave them. */
  function Thin(policy: Policy, pre: Chats, w: Submission): seq<Message> {
    Demoted(policy, pre, w.batch, w.clock, w.usage, w.origin)
  }

  lemma ThinIsThinned(policy: Policy, pre: Chats, w: Submission)
    ensures Thinned(Thin(policy, pre, w), w.batch) && |Thin(policy, pre, w)| == |w.batch|
  {
    DemotedIsThinned(policy, pre, w.batch, w.clock, w.usage, w.origin);
  }

  /** The batch was performed on this store, and ended as it must. */
  ghost predicate Performs(policy: Policy, limit: nat, maxChats: nat, w: Submission, pre: Chats, turn: Turn) {
    && turn.Performed? && WellFormed(turn.post)
    && BatchEnds(policy, pre, turn.post, maxChats, limit, Thin(policy, pre, w), w.batch, w.origin, w.clock, w.cancelAt,
                 turn.outcome, turn.cutoffs)
  }

  /** The history context was cancelled on the way, and only that one. */
  predicate EndsHistory(w: Submission, turn: Turn) {
    turn.Performed? && turn.outcome.err == Some(Cancelled) && w.origin.History? && w.historyOnly
  }

  /** The writer stops with this batch. */
  predicate Stopping(w: Submission, turn: Turn) {
    turn.Performed? && turn.outcome.err.Some? && !EndsHistory(w, turn)
  }

  predicate Stopped(work: seq<Submission>, turns: seq<Turn>) {
    0 < |turns| <= |work| && Stopping(work[|turns|-1], turns[|turns|-1])
  }

  /** The history batch that was cancelled on the way, if there was one. */
  function CutOf(work: seq<Submission>, turns: seq<Turn>): (cut: Option<nat>)
    requires |turns| <= |work|
    ensures cut.Some? ==> cut.value < |turns| && EndsHistory(work[cut.value], turns[cut.value])
  {
    var n := |turns|;
    if n == 0 then None else if EndsHistory(work[n-1], turns[n-1]) then Some(n - 1) else CutOf(work, turns[..n-1])
  }

  /** The rows it may have left behind in each chat. */
  function Extra(work: seq<Submission>, cut: Option<nat>): nat {
    if cut.Some? && cut.value < |work| then |work[cut.value].batch| else 0
  }

  /** The store after some turns. */
  function After(start: Chats, turns: seq<Turn>): Chats {
    var n := |turns|;
    if n == 0 then start else if turns[n-1].Performed? then turns[n-1].post else After(start, turns[..n-1])
  }

  /** What becomes of the next submission: history is given up once its context is
      cancelled, anything else is performed on the store as it is. */
  ghost predicate TurnFollows(policy: Policy, limit: nat, maxChats: nat, w: Submission, cut: Option<nat>, pre: Chats, turn: Turn) {
    if w.origin.History? && cut.Some? then turn.GivenUp? else Performs(policy, limit, maxChats, w, pre, turn)
  }

  /** A run: every submission in its turn, and none after the one with which the writer
      stops. */
  ghost predicate IsRun(policy: Policy, limit: nat, maxChats: nat, work: seq<Submission>, start: Chats, turns: seq<Turn>) {
    |turns| <= |work| &&
    (turns == [] ||
     var n := |turns| - 1;
     var front := turns[..n];
     && IsRun(policy, limit, maxChats, work, start, front) && !Stopped(work, front)
     && TurnFollows(policy, limit, maxChats, work[n], CutOf(work, front), After(start, front), turns[n]))
  }

  /** The log after a batch, whether it was written or not. */
  ghost function LoggedIf(written: bool, log: PruneLog, policy: Policy, pre: Chats, thin: seq<Message>, cutoffs: map<nat, int>): PruneLog {
    if written && Stage(pre, thin).Staged? then Logged(log, policy, pre, thin, cutoffs) else log
  }

  /** The log of pruned rows after one more turn. */
  ghost function Recorded(log: PruneLog, policy: Policy, pre: Chats, w: Submission, turn: Turn): PruneLog {
    if turn.Performed? then
      LoggedIf(turn.outcome.err.None? || turn.outcome.writeSucceeded, log, policy, pre, Thin(policy, pre, w), turn.cutoffs)
    else log
  }

  /** The log of every row pruned in a run. */
  ghost function RunLog(policy: Policy, work: seq<Submission>, start: Chats, log0: PruneLog, turns: seq<Turn>): PruneLog
    requires |turns| <= |work|
  {
    if turns == [] then log0
    else
      var n := |turns| - 1;
      Recorded(RunLog(policy, work, start, log0, turns[..n]), policy, After(start, turns[..n]), work[n], turns[n])
  }

  // ---- one batch of a run

  /** What a failed batch of a run tells: the store before it was within its bounds, and
      rows are the trouble only for a live batch that together with the cancelled history
      batch exceeds the room above the configured count. */
  ghost predicate FailedAt(policy: Policy, limit: nat, maxChats: nat, work: seq<Submission>, cut: Option<nat>, done: nat,
                           last: Chats, log: PruneLog, err: BatchError)
  {
    && done < |work| && Within(policy, last, Extra(work, cut), log)
    && Stops(err, last, maxChats, limit, work[done].batch, work[done].clock, work[done].cancelAt)
    && (RowTrouble(Some(err), last, maxChats, work[done].batch) ==>
          && cut.Some? && cut.value < |work| && work[done].origin.Realtime? && Overfull(last, work[done].batch, limit)
          && policy.messagesPerChat + |work[cut.value].batch| + |work[done].batch| > limit)
  }

  lemma FailureTold(policy: Policy, limit: nat, maxChats: nat, work: seq<Submission>, cut: Option<nat>, done: nat,
                    last: Chats, log: PruneLog, err: BatchError)
    requires done < |work| && Within(policy, last, Extra(work, cut), log) && (cut.Some? ==> cut.value < done)
    requires Fitting(work[done], policy, limit) && (cut.Some? ==> work[done].origin.Realtime?)
    requires Ended(Some(err), last, maxChats, limit, work[done].batch, work[done].clock, work[done].cancelAt)
    ensures FailedAt(policy, limit, maxChats, work, cut, done, last, log, err)
  {
    var w := work[done];
    RowTroubleExactly(Some(err), last, maxChats, limit, w.batch, w.clock, w.cancelAt);
    if RowTrouble(Some(err), last, maxChats, w.batch) {
      OverfullNeeds(policy, last, Extra(work, cut), log, w.batch, limit);
    }
  }

  lemma StepWithin(policy: Policy, pre: Chats, post: Chats, thin: seq<Message>, countUnread: bool,
                   cutoffs: map<nat, int>, extra: nat, log: PruneLog)
    requires Within(policy, pre, extra, log) && WellFormed(post) && BatchStep(policy, pre, post, thin, countUnread, cutoffs)
    ensures Within(policy, post, extra, LoggedIf(true, log, policy, pre, thin, cutoffs))
  {
    BatchStaysWithin(policy, pre, post, thin, countUnread, cutoffs, extra, log);
  }

  lemma MoreRoom(chats: Chats, k: nat, more: nat)
    requires RowsAtMost(chats, k) && k <= more
    ensures RowsAtMost(chats, more)
  {
  }

  lemma LeavesWithin(policy: Policy, pre: Chats, post: Chats, thin: seq<Message>, countUnread: bool,
                     written: bool, cutoffs: map<nat, int>, extra: nat, log: PruneLog)
    requires Within(policy, pre, extra, log) && WellFormed(post) && Leaves(policy, pre, post, thin, countUnread, written, cutoffs)
    ensures Within(policy, post, extra + |thin|, LoggedIf(written, log, policy, pre, thin, cutoffs))
  {
    if written {
      StoppedBatchStaysWithin(policy, pre, post, thin, countUnread, cutoffs, extra, log);
    } else {
      MoreRoom(pre, policy.messagesPerChat + extra, policy.messagesPerChat + extra + |thin|);
    }
  }

  lemma EndsWithin(policy: Policy, pre: Chats, post: Chats, maxChats: nat, limit: nat, thin: seq<Message>, w: Submission,
                   o: BatchOutcome, cutoffs: map<nat, int>, extra: nat, log: PruneLog)
    requires Within(policy, pre, extra, log) && WellFormed(post)
    requires BatchEnds(policy, pre, post, maxChats, limit, thin, w.batch, w.origin, w.clock, w.cancelAt, o, cutoffs)
    ensures Ended(o.err, pre, maxChats, limit, w.batch, w.clock, w.cancelAt)
    ensures Within(policy, post, extra + if o.err.Some? then |thin| else 0,
                   LoggedIf(o.err.None? || o.writeSucceeded, log, policy, pre, thin, cutoffs))
  {
    hide Within, WellFormed, Clear, Stops, Leaves, BatchStep, LoggedIf, Writable;
    if o.err.None? {
      StepWithin(policy, pre, post, thin, w.origin.Realtime?, cutoffs, extra, log);
    } else {
      LeavesWithin(policy, pre, post, thin, w.origin.Realtime?, o.writeSucceeded, cutoffs, extra, log);
    }
  }

  /** The store takes the rows, and the context is cancelled before the first prune. */
  ghost predicate StopsBeforePrunes(chats: Chats, maxChats: nat, limit: nat, w: Submission) {
    w.cancelAt == |w.batch| && Writable(chats, maxChats, limit, w.batch, w.clock, w.cancelAt)
  }

  /** All the batch's rows were written, with or without their bodies, and nothing pruned. */
  ghost predicate LeavesAllRows(pre: Chats, post: Chats, batch: seq<Message>, origin: Origin) {
    exists thin :: Thinned(thin, batch) && Wrote(pre, post, thin, origin.Realtime?)
  }

  lemma AllRowsLeft(policy: Policy, pre: Chats, post: Chats, maxChats: nat, limit: nat, thin: seq<Message>, w: Submission,
                    o: BatchOutcome, cutoffs: map<nat, int>)
    requires Thinned(thin, w.batch) && StopsBeforePrunes(pre, maxChats, limit, w)
    requires BatchEnds(policy, pre, post, maxChats, limit, thin, w.batch, w.origin, w.clock, w.cancelAt, o, cutoffs)
    ensures LeavesAllRows(pre, post, w.batch, w.origin)
  {
    hide Clear, Stops, Writable, ClockRead, NewEvents, Midway, BatchStep, Thinned, Wrote;
    MidwayUnpruned(policy, pre, post, thin, w.origin.Realtime?, cutoffs);
  }

  lemma MidwayUnpruned(policy: Policy, pre: Chats, post: Chats, thin: seq<Message>, countUnread: bool, cutoffs: map<nat, int>)
    requires Midway(policy, pre, post, thin, countUnread, cutoffs) && |cutoffs| == 0
    ensures Wrote(pre, post, thin, countUnread)
  {
    hide Committed, PrunedAt;
    Unpruned(Committed(pre, Stage(pre, thin), thin, countUnread), post, cutoffs, policy.messagesPerChat);
  }

  lemma Unpruned(mid: Chats, now: Chats, cutoffs: map<nat, int>, k: nat)
    requires PrunedAt(mid, now, cutoffs, k) && |cutoffs| == 0
    ensures now == mid
  {
    assert |cutoffs.Keys| == 0;
  }

  /** What one performed batch tells, all at once. */
  lemma PerformedTells(policy: Policy, limit: nat, maxChats: nat, w: Submission, pre: Chats, turn: Turn, extra: nat, log: PruneLog)
    requires Performs(policy, limit, maxChats, w, pre, turn) && Within(policy, pre, extra, log)
    ensures Ended(turn.outcome.err, pre, maxChats, limit, w.batch, w.clock, w.cancelAt)
    ensures Within(policy, turn.post, extra + if turn.outcome.err.Some? then |w.batch| else 0, Recorded(log, policy, pre, w, turn))
  {
    hide Within, WellFormed, BatchEnds, Ended;
    ThinIsThinned(policy, pre, w);
    EndsWithin(policy, pre, turn.post, maxChats, limit, Thin(policy, pre, w), w, turn.outcome, turn.cutoffs, extra, log);
  }

  lemma PerformedEnds(policy: Policy, limit: nat, maxChats: nat, w: Submission, pre: Chats, turn: Turn)
    requires Performs(policy, limit, maxChats, w, pre, turn)
    ensures turn.Performed? && WellFormed(turn.post)
    ensures Ended(turn.outcome.err, pre, maxChats, limit, w.batch, w.clock, w.cancelAt)
    ensures StopsBeforePrunes(pre, maxChats, limit, w) ==> LeavesAllRows(pre, turn.post, w.batch, w.origin)
  {
    hide WellFormed, StopsBeforePrunes, LeavesAllRows, Clear, Stops, Leaves, BatchStep, Writable, NewEvents, ClockRead, Thinned;
    ThinIsThinned(policy, pre, w);
    if StopsBeforePrunes(pre, maxChats, limit, w) {
      AllRowsLeft(policy, pre, turn.post, maxChats, limit, Thin(policy, pre, w), w, turn.outcome, turn.cutoffs);
    }
  }

  // ---- every run

  /** What holds after the turns of a run: within its bounds while the writer goes on, and
      told by FailedAt once it stopped. */
  ghost predicate RunTells(policy: Policy, limit: nat, maxChats: nat, work: seq<Submission>, start: Chats, log0: PruneLog,
                           turns: seq<Turn>)
    requires |turns| <= |work|
  {
    if Stopped(work, turns) then
      var n := |turns| - 1;
      var front := turns[..n];
      && FailedAt(policy, limit, maxChats, work, CutOf(work, front), n, After(start, front), RunLog(policy, work, start, log0, front),
                  turns[n].outcome.err.value)
      && Within(policy, After(start, turns), Extra(work, CutOf(work, front)) + |work[n].batch|, RunLog(policy, work, start, log0, turns))
    else Within(policy, After(start, turns), Extra(work, CutOf(work, turns)), RunLog(policy, work, start, log0, turns))
  }

  lemma RunTellsNext(policy: Policy, limit: nat, maxChats: nat, work: seq<Submission>, start: Chats, log0: PruneLog, turns: seq<Turn>)
    requires 0 < |turns| <= |work| && !Stopped(work, turns[..|turns|-1])
    requires forall w :: w in work ==> Fitting(w, policy, limit)
    requires RunTells(policy, limit, maxChats, work, start, log0, turns[..|turns|-1])
    requires TurnFollows(policy, limit, maxChats, work[|turns|-1], CutOf(work, turns[..|turns|-1]), After(start, turns[..|turns|-1]), turns[|turns|-1])
    ensures RunTells(policy, limit, maxChats, work, start, log0, turns)
  {
    hide Within, Performs, FailedAt, Ended, Fitting, LoggedIf;
    var n := |turns| - 1;
    var front, w, turn := turns[..n], work[n], turns[n];
    var cut, pre, log := CutOf(work, front), After(start, front), RunLog(policy, work, start, log0, front);
    if turn.Performed? {
      PerformedTells(policy, limit, maxChats, w, pre, turn, Extra(work, cut), log);
      if Stopping(w, turn) {
        FailureTold(policy, limit, maxChats, work, cut, n, pre, log, turn.outcome.err.value);
      }
    }
  }

  /** Over every run, however long: from a settled store no chat exceeds the configured
      count, or exceeds it by at most the one history batch that was cancelled on the way;
      every anchor is the oldest row the run or its past ever pruned; and rows stop the
      writer only on a live batch after such a history batch, when both together exceed the
      room above the configured count. */
  lemma {:induction false} EveryRunTells(policy: Policy, limit: nat, maxChats: nat, work: seq<Submission>, start: Chats, log0: PruneLog,
                                         turns: seq<Turn>)
    requires IsRun(policy, limit, maxChats, work, start, turns) && Settled(policy, start, log0)
    requires forall w :: w in work ==> Fitting(w, policy, limit)
    ensures RunTells(policy, limit, maxChats, work, start, log0, turns)
    decreases |turns|
  {
    hide Within, Fitting, TurnFollows;
    if turns != [] {
      hide RunTells;
      EveryRunTells(policy, limit, maxChats, work, start, log0, turns[..|turns|-1]);
      RunTellsNext(policy, limit, maxChats, work, start, log0, turns);
    }
  }

  // ---- what a chat holds after a run

  /** Nothing that was performed from position i on touched the chat. */
  predicate LeftAlone(work: seq<Submission>, turns: seq<Turn>, i: nat, c: nat)
    requires |turns| <= |work|
  {
    forall j :: i <= j < |turns| && turns[j].Performed? ==> c !in Touched(work[j].batch)
  }

  lemma UntouchedStays(policy: Policy, limit: nat, maxChats: nat, w: Submission, pre: Chats, turn: Turn, c: nat)
    requires Performs(policy, limit, maxChats, w, pre, turn) && c !in Touched(w.batch)
    ensures RowsOf(turn.post, c) == RowsOf(pre, c) && AnchorOf(turn.post, c) == AnchorOf(pre, c)
  {
    var thin := Thin(policy, pre, w);
    ThinIsThinned(policy, pre, w);
    ThinnedTouched(thin, w.batch);
    hide Clear, Stops, Writable, Thinned, BatchStep;
    if turn.outcome.writeSucceeded {
      MidwayRows(policy, pre, turn.post, thin, w.origin.Realtime?, turn.cutoffs, c);
      StepElsewhere(policy, pre, turn.post, thin, w.origin.Realtime?, turn.cutoffs, c);
    }
  }

  lemma {:induction false} LeftAloneStays(policy: Policy, limit: nat, maxChats: nat, work: seq<Submission>, start: Chats, turns: seq<Turn>,
                                          i: nat, c: nat)
    requires IsRun(policy, limit, maxChats, work, start, turns) && i <= |turns| && LeftAlone(work, turns, i, c)
    ensures RowsOf(After(start, turns), c) == RowsOf(After(start, turns[..i]), c)
    ensures AnchorOf(After(start, turns), c) == AnchorOf(After(start, turns[..i]), c)
    decreases |turns|
  {
    var n := |turns|;
    if i == n {
      assert turns[..i] == turns;
    } else {
      var front := turns[..n-1];
      assert front[..i] == turns[..i];
      LeftAloneStays(policy, limit, maxChats, work, start, front, i, c);
      if turns[n-1].Performed? {
        hide Performs;
        UntouchedStays(policy, limit, maxChats, work[n-1], After(start, front), turns[n-1], c);
      }
    }
  }

  lemma {:induction false} TurnAt(policy: Policy, limit: nat, maxChats: nat, work: seq<Submission>, start: Chats, turns: seq<Turn>, i: nat)
    requires IsRun(policy, limit, maxChats, work, start, turns) && i < |turns|
    ensures IsRun(policy, limit, maxChats, work, start, turns[..i]) && !Stopped(work, turns[..i])
    ensures TurnFollows(policy, limit, maxChats, work[i], CutOf(work, turns[..i]), After(start, turns[..i]), turns[i])
    decreases |turns|
  {
    var n := |turns| - 1;
    hide TurnFollows;
    if i < n {
      TurnAt(policy, limit, maxChats, work, start, turns[..n], i);
      assert turns[..n][..i] == turns[..i];
    }
  }

  /** After every run a chat last touched by a successful batch holds exactly the newest
      non-aged bodies of what it held before that batch and the batch, whatever was
      written to other chats since. */
  lemma RunKeepsNewest(policy: Policy, limit: nat, maxChats: nat, work: seq<Submission>, start: Chats, turns: seq<Turn>, i: nat, c: nat)
    requires policy.Valid() && WellFormed(start) && IsRun(policy, limit, maxChats, work, start, turns)
    requires i < |turns| && turns[i].Performed? && turns[i].outcome.err.None? && LeftAlone(work, turns, i + 1, c)
    requires Fitting(work[i], policy, limit) && c in Touched(work[i].batch) && NonDecreasing(work[i].clock)
    requires work[i].origin.Realtime? || work[i].usage < policy.cacheBytes
    ensures var w, pre := work[i], After(start, turns[..i]);
      && Stage(pre, w.batch).Staged? && c in turns[i].cutoffs
      && RowsOf(After(start, turns), c) == Survivors(Retention.Written(pre, w.batch, c), turns[i].cutoffs[c], policy.messagesPerChat)
  {
    var w, pre, turn := work[i], After(start, turns[..i]), turns[i];
    TurnAt(policy, limit, maxChats, work, start, turns, i);
    AfterIsWellFormed(policy, limit, maxChats, work, start, turns[..i]);
    LeftAloneStays(policy, limit, maxChats, work, start, turns, i + 1, c);
    assert turns[..i+1][..i] == turns[..i];
    hide IsRun, WellFormed, Clear, Stops, Leaves, Writable, BatchStep;
    SuccessfulBatchKeepsNewest(policy, pre, turn.post, w.batch, w.clock, w.usage, w.origin, turn.cutoffs, c);
  }

  lemma {:induction false} AfterIsWellFormed(policy: Policy, limit: nat, maxChats: nat, work: seq<Submission>, start: Chats, turns: seq<Turn>)
    requires WellFormed(start) && IsRun(policy, limit, maxChats, work, start, turns)
    ensures WellFormed(After(start, turns))
    decreases |turns|
  {
    hide WellFormed, BatchEnds;
    if turns != [] { AfterIsWellFormed(policy, limit, maxChats, work, start, turns[..|turns|-1]); }
  }

  // ---- the writer performs such a run

  method RunOne(store: Memory, policy: Policy, snapshotLimit: nat, w: Submission) returns (err: Option<BatchError>, ghost turn: Turn)
    requires store.Valid() && policy.Valid() && Fitting(w, policy, snapshotLimit)
    modifies store
    ensures store.Valid() && Performs(policy, snapshotLimit, store.maxChats, w, old(store.chats), turn)
    ensures turn.Performed? && turn.outcome.err == err && turn.post == store.chats
  {
    hide WellFormed, RowsBounded, BatchEnds, Demoted;
    var o, cutoffs := ApplyBoundedBatch(store, policy, snapshotLimit, w.batch, w.origin, w.clock, w.usage, w.cancelAt);
    err, turn := o.err, Performed(store.chats, o, cutoffs);
  }

  lemma RunNext(policy: Policy, limit: nat, maxChats: nat, work: seq<Submission>, start: Chats, turns: seq<Turn>, turn: Turn)
    requires IsRun(policy, limit, maxChats, work, start, turns) && |turns| < |work| && !Stopped(work, turns)
    requires TurnFollows(policy, limit, maxChats, work[|turns|], CutOf(work, turns), After(start, turns), turn)
    ensures IsRun(policy, limit, maxChats, work, start, turns + [turn])
    ensures After(start, turns + [turn]) == if turn.Performed? then turn.post else After(start, turns)
    ensures CutOf(work, turns + [turn]) == if EndsHistory(work[|turns|], turn) then Some(|turns|) else CutOf(work, turns)
  {
    hide TurnFollows, Extra;
    assert (turns + [turn])[..|turns|] == turns;
    assert !Stopped(work, (turns + [turn])[..|turns|]);
  }

  /** The writer's batches, one after the other. It stops at the first failure, except that
      a cancelled history context only ends the history: what that batch left behind stays,
      later history batches are given up and live ones go on. */
  method RunBatches(store: Memory, policy: Policy, snapshotLimit: nat, work: seq<Submission>)
    returns (done: nat, err: Option<BatchError>, ghost turns: seq<Turn>)
    requires store.Valid() && policy.Valid() && forall w :: w in work ==> Fitting(w, policy, snapshotLimit)
    modifies store
    ensures store.Valid() && IsRun(policy, snapshotLimit, store.maxChats, work, old(store.chats), turns)
    ensures store.chats == After(old(store.chats), turns)
    ensures if err.Some? then Stopped(work, turns) && done == |turns| - 1 && turns[done].outcome.err == err
            else !Stopped(work, turns) && done == |turns| == |work|
  {
    hide WellFormed, RowsBounded, Performs, Fitting, IsRun, After, CutOf;
    ghost var start := store.chats;
    err, done, turns := None, 0, [];
    var historyEnded := false;
    RunStarts(policy, snapshotLimit, store.maxChats, work, start);
    while done < |work|
      invariant store.Valid() && done == |turns| <= |work| && !Stopped(work, turns)
      invariant IsRun(policy, snapshotLimit, store.maxChats, work, start, turns) && store.chats == After(start, turns)
      invariant err.None? && (historyEnded <==> CutOf(work, turns).Some?)
    {
      var w := work[done];
      ghost var turn := GivenUp;
      if !w.origin.History? || !historyEnded {
        err, turn := RunOne(store, policy, snapshotLimit, w);
      }
      RunNext(policy, snapshotLimit, store.maxChats, work, start, turns, turn);
      turns := turns + [turn];
      if err == Some(Cancelled) && w.origin.History? && w.historyOnly {
        err, historyEnded := None, true;
      } else if err.Some? {
        return;
      }
      done := done + 1;
    }
  }

  lemma RunStarts(policy: Policy, limit: nat, maxChats: nat, work: seq<Submission>, start: Chats)
    ensures IsRun(policy, limit, maxChats, work, start, []) && After(start, []) == start && CutOf(work, []).None?
  {
  }
}
