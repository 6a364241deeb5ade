/** The live-first writer goroutine. What the rest of the program does meanwhile is a
    script of moments, one consumed before every look at shared state; all results
    hold for every script. A run whose script is used up is suspended where it is. */
module WriterLoop {
  const MAX_WRITE_BATCH: nat := 50
  const MAX_HISTORY_BATCH: nat := 25

  /** A queue holds the names of the leases it will hand out. */
  datatype Queue = Queue(entries: seq<nat>, stopped: bool, reservations: nat) {
    predicate Ended() { stopped && entries == [] && reservations == 0 }
  }

  datatype Which = Live | History

  datatype Shared = Shared(live: Queue, history: Queue, cancelled: bool, historyCancelled: bool, shutdown: bool) {
    function Of(w: Which): Queue { if w.Live? then live else history }

    function With(w: Which, q: Queue): Shared { if w.Live? then this.(live := q) else this.(history := q) }
  }

  /** Mutex sections of other goroutines, and the three signals. */
  datatype Action =
    | Put(to: Which, lease: nat)
    | Reserve(to: Which)
    | Commit(to: Which, lease: nat)
    | GiveBack(to: Which)
    | Close(to: Which)
    | Cancel
    | CancelHistory
    | BeginShutdown

  function Act(s: Shared, a: Action): Shared {
    match a
    case Put(w, id) =>
      var q := s.Of(w);
      if q.stopped then s else s.With(w, q.(entries := q.entries + [id]))
    case Reserve(w) =>
      var q := s.Of(w);
      if q.stopped then s else s.With(w, q.(reservations := q.reservations + 1))
    case Commit(w, id) =>
      var q := s.Of(w);
      if q.reservations == 0 then s else s.With(w, q.(entries := q.entries + [id], reservations := q.reservations - 1))
    case GiveBack(w) =>
      var q := s.Of(w);
      if q.reservations == 0 then s else s.With(w, q.(reservations := q.reservations - 1))
    case Close(w) => s.With(w, s.Of(w).(stopped := true))
    case Cancel => s.(cancelled := true)
    case CancelHistory => s.(historyCancelled := true)
    case BeginShutdown => s.(shutdown := true)
  }

  function ActAll(s: Shared, actions: seq<Action>): Shared {
    if actions == [] then s else Act(ActAll(s, actions[..|actions|-1]), actions[|actions|-1])
  }

  /** What never goes back: signals, and a queue that has ended. */
  predicate Grows(a: Shared, b: Shared) {
    && (a.cancelled ==> b.cancelled) && (a.historyCancelled ==> b.historyCancelled) && (a.shutdown ==> b.shutdown)
    && (a.live.stopped ==> b.live.stopped)
    && (a.live.Ended() ==> b.live.Ended()) && (a.history.Ended() ==> b.history.Ended())
  }

  lemma {:induction false} ActionsGrow(s: Shared, actions: seq<Action>)
    ensures Grows(s, ActAll(s, actions))
  {
    if actions != [] { ActionsGrow(s, actions[..|actions|-1]); }
  }

  datatype Moment = Moment(actions: seq<Action>, choice: nat)

  /** The shared state after the next moment of a script. */
  function Later(s: Shared, script: seq<Moment>): Shared { if script == [] then s else ActAll(s, script[0].actions) }

  /** The shared state after some moments if nobody takes anything: its queues hold every
      lease that entered them, in order. */
  function Arrived(start: Shared, moments: seq<Moment>): Shared {
    if moments == [] then start else ActAll(Arrived(start, moments[..|moments|-1]), moments[|moments|-1].actions)
  }

  /** A state with some leases put back in front of each queue. */
  function Refilled(s: Shared, live: seq<nat>, history: seq<nat>): Shared {
    s.(live := s.live.(entries := live + s.live.entries), history := s.history.(entries := history + s.history.entries))
  }

  lemma {:induction false} ActsRefilled(s: Shared, live: seq<nat>, history: seq<nat>, actions: seq<Action>)
    ensures ActAll(Refilled(s, live, history), actions) == Refilled(ActAll(s, actions), live, history)
  {
    if actions != [] {
      ActsRefilled(s, live, history, actions[..|actions|-1]);
      ActRefilled(ActAll(s, actions[..|actions|-1]), live, history, actions[|actions|-1]);
    }
  }

  lemma ActRefilled(s: Shared, live: seq<nat>, history: seq<nat>, a: Action)
    ensures Act(Refilled(s, live, history), a) == Refilled(Act(s, a), live, history)
  {
    if a.Put? || a.Commit? {
      assert live + (s.live.entries + [a.lease]) == live + s.live.entries + [a.lease];
      assert history + (s.history.entries + [a.lease]) == history + s.history.entries + [a.lease];
    }
  }

  /** A state with the oldest lease of a queue removed. */
  function TakenOff(s: Shared, w: Which): Shared
    requires s.Of(w).entries != []
  {
    s.With(w, s.Of(w).(entries := s.Of(w).entries[1..]))
  }

  lemma TakenOffRefilled(s: Shared, live: seq<nat>, history: seq<nat>, w: Which)
    requires s.Of(w).entries != []
    ensures var id := s.Of(w).entries[0];
      Refilled(TakenOff(s, w), if w.Live? then live + [id] else live, if w.History? then history + [id] else history)
      == Refilled(s, live, history)
  {
    var q := s.Of(w).entries;
    assert q == [q[0]] + q[1..];
    assert live + [q[0]] + q[1..] == live + ([q[0]] + q[1..]);
    assert history + [q[0]] + q[1..] == history + ([q[0]] + q[1..]);
  }

  datatype Origin = Realtime | Backfill

  datatype Outcome = Fine | Cancelled | Broken | Suspended

  /** Why leases are released unwritten. */
  datatype Why = ContextCancelled | NoTimer | WriteCancelled | ShuttingDown | Leaving

  /** What the writer itself does, in order. It quits the leases that await their batch, and
      drains a queue until it drops it. */
  datatype Event =
    | Took(from: Which, lease: nat)
    | FoundEmpty(from: Which)
    | LiveEnded
    | HistoryStart
    | Applied(origin: Origin, leases: seq<nat>, outcome: Outcome)
    | Quits(from: Which, why: Why)
    | Drains(from: Which, why: Why)
    | Dropped(from: Which)

  function QueueOf(o: Origin): Which { if o.Realtime? then Live else History }

  /** What one event does to the leases of a queue that await their batch. */
  function NextOpen(open: seq<nat>, e: Event, w: Which): seq<nat> {
    match e
    case Took(v, id) => if v == w then open + [id] else open
    case Applied(o, _, _) => if QueueOf(o) == w then [] else open
    case Quits(v, _) => if v == w then [] else open
    case Dropped(v) => if v == w then [] else open
    case _ => open
  }

  function NextTaken(taken: seq<nat>, e: Event, w: Which): seq<nat> {
    if e.Took? && e.from == w then taken + [e.lease] else taken
  }

  /** Every lease taken from a queue, in order. */
  function TakenFrom(trace: seq<Event>, w: Which): seq<nat> {
    if trace == [] then [] else NextTaken(TakenFrom(trace[..|trace|-1], w), trace[|trace|-1], w)
  }

  /** Every lease of a queue that was in a batch, in order. */
  function WrittenFrom(trace: seq<Event>, w: Which): seq<nat> {
    if trace == [] then [] else
      var e := trace[|trace|-1];
      WrittenFrom(trace[..|trace|-1], w) + if e.Applied? && QueueOf(e.origin) == w then e.leases else []
  }

  /** Every lease of a queue that was released unwritten. */
  function LostFrom(trace: seq<Event>, w: Which): seq<nat> {
    if trace == [] then [] else
      var front, e := trace[..|trace|-1], trace[|trace|-1];
      LostFrom(front, w) + if (e.Quits? || e.Dropped?) && e.from == w then Open(front, w) else []
  }

  /** Live messages are given up, a write has failed, or the goroutine is leaving. */
  function NextOver(over: bool, e: Event): bool {
    || over
    || ((e.Quits? || e.Drains?) && (e.from.Live? || e.why.Leaving?)) || e == Dropped(Live)
    || (e.Applied? && (e.outcome.Broken? || (e.outcome.Cancelled? && e.origin.Realtime?)))
  }

  predicate Over(trace: seq<Event>) {
    trace != [] && NextOver(Over(trace[..|trace|-1]), trace[|trace|-1])
  }

  /** The leases taken from a queue since its last batch or drop, in order. */
  function Open(trace: seq<Event>, w: Which): seq<nat> {
    if trace == [] then [] else NextOpen(Open(trace[..|trace|-1], w), trace[|trace|-1], w)
  }

  /** Whether a history batch stays started: only looks at the history queue may come
      between its start and its write. */
  function NextStarted(started: bool, e: Event): bool {
    match e
    case HistoryStart => true
    case Took(History, _) => started
    case FoundEmpty(History) => started
    case _ => false
  }

  predicate Started(trace: seq<Event>) {
    trace != [] && NextStarted(Started(trace[..|trace|-1]), trace[|trace|-1])
  }

  /** A history batch starts only right after the live queue was found empty, or once
      it has ended, and is written only while it stays started; a batch is exactly the
      leases taken from its queue since the batch before, nonempty and within its limits.
      Once it is over nothing is written. Live leases are quit only for a cancelled context
      or a missing timer, and drained only at the end; history is drained with nothing
      pending unless its context is cancelled. A queue is dropped right after it was found
      empty. */
  predicate Follows(trace: seq<Event>, e: Event, batchMax: nat) {
    match e
    case HistoryStart => !Over(trace) && ((trace != [] && trace[|trace|-1] == FoundEmpty(Live)) || LiveEnded in trace)
    case Applied(Backfill, leases, outcome) =>
      && leases == Open(trace, History) && 1 <= |leases| <= MAX_HISTORY_BATCH && |leases| <= batchMax && Started(trace)
      && !Over(trace) && !outcome.Suspended?
    case Applied(Realtime, leases, outcome) =>
      leases == Open(trace, Live) && 1 <= |leases| <= MAX_WRITE_BATCH && !Over(trace) && !outcome.Suspended?
    case Quits(Live, why) => why.ContextCancelled? || (why.NoTimer? && |Open(trace, Live)| == 1)
    case Quits(History, why) => why.ContextCancelled? || why.ShuttingDown? || why.Leaving?
    case Drains(Live, why) => Open(trace, Live) == [] && (why.ShuttingDown? || why.Leaving?)
    case Drains(History, why) =>
      && (Open(trace, History) == [] || why.ContextCancelled?) && !why.NoTimer?
      && (why.WriteCancelled? ==> trace != [] && StopsHistory(trace[|trace|-1]))
    case Dropped(w) => trace != [] && trace[|trace|-1] == FoundEmpty(w)
    case _ => true
  }

  /** The end of a history turn: a written batch, or the queue given up. */
  predicate Settles(e: Event) { e == Dropped(History) || (e.Applied? && e.origin.Backfill? && e.outcome.Fine?) }

  /** A history write ended with a cancellation. */
  predicate StopsHistory(e: Event) {
    e == Quits(History, ContextCancelled) || (e.Applied? && e.origin.Backfill? && e.outcome.Cancelled?)
  }

  /** What the log says about signals is so. */
  predicate Honest(e: Event, s: Shared) {
    && (e == Quits(Live, ContextCancelled) ==> s.cancelled)
    && (e == Quits(History, ContextCancelled) || e == Drains(History, ContextCancelled) ==> s.historyCancelled)
    && ((e.Quits? || e.Drains?) && e.why.ShuttingDown? ==> s.shutdown && (e.from.Live? ==> s.live.stopped))
  }

  predicate Truthful(trace: seq<Event>, s: Shared) { forall e :: e in trace ==> Honest(e, s) }

  lemma StaysTruthful(trace: seq<Event>, s: Shared, t: Shared)
    requires Truthful(trace, s) && Grows(s, t)
    ensures Truthful(trace, t)
  {
  }

  /** An outcome other than Fine has its cause. */
  ghost predicate Caused(outcome: Outcome, trace: seq<Event>, s: Shared) {
    && (outcome.Cancelled? ==> s.cancelled || exists leases :: Applied(Realtime, leases, Cancelled) in trace)
    && (outcome.Broken? ==> Quits(Live, NoTimer) in trace || exists o, leases :: Applied(o, leases, Broken) in trace)
  }

  lemma StaysCaused(outcome: Outcome, before: seq<Event>, after: seq<Event>, s: Shared, t: Shared)
    requires Caused(outcome, before, s) && Remembers(before, after) && Grows(s, t)
    ensures Caused(outcome, after, t)
  {
    assert forall e :: e in before ==> e in after;
  }

  predicate Orderly(trace: seq<Event>, batchMax: nat) {
    trace == [] || (Orderly(trace[..|trace|-1], batchMax) && Follows(trace[..|trace|-1], trace[|trace|-1], batchMax))
  }

  lemma {:induction false} OrderlyAt(trace: seq<Event>, batchMax: nat, i: nat)
    requires Orderly(trace, batchMax) && i < |trace|
    ensures Follows(trace[..i], trace[i], batchMax)
    decreases |trace|
  {
    var rest := trace[..|trace|-1];
    if i < |rest| {
      OrderlyAt(rest, batchMax, i);
      assert rest[i] == trace[i] && rest[..i] == trace[..i];
    }
  }

  predicate LooksAtHistory(e: Event) { (e.Took? || e.FoundEmpty?) && e.from == History }

  /** Position j starts the history batch written at position i: in between the writer
      looks at nothing but the history queue. */
  predicate StartOf(trace: seq<Event>, j: nat, i: nat) {
    j < i <= |trace| && trace[j] == HistoryStart && forall k :: j < k < i ==> LooksAtHistory(trace[k])
  }

  lemma {:induction false} StartedHasStart(trace: seq<Event>, i: nat) returns (j: nat)
    requires i <= |trace| && Started(trace[..i])
    ensures StartOf(trace, j, i)
    decreases i
  {
    var front := trace[..i];
    assert front[..|front|-1] == trace[..i-1];
    if trace[i-1] == HistoryStart {
      return i - 1;
    }
    j := StartedHasStart(trace, i - 1);
  }

  /** At position j the writer had just found no live message, or knew there never will be. */
  predicate LiveGaveWay(trace: seq<Event>, j: nat)
    requires j <= |trace|
  {
    (j > 0 && trace[j-1] == FoundEmpty(Live)) || LiveEnded in trace[..j]
  }

  /** What an orderly log says about each of its batches: a history batch has a start of
      its own, at which live had given way, and no live look, no other batch and no other
      start lies in between. */
  lemma HistoryWaitsForLive(trace: seq<Event>, batchMax: nat, i: nat)
    requires Orderly(trace, batchMax) && i < |trace| && trace[i].Applied?
    ensures trace[i].origin == Backfill ==> exists j: nat :: StartOf(trace, j, i) && LiveGaveWay(trace, j)
    ensures trace[i].origin == Backfill ==> |trace[i].leases| <= 25
    ensures 1 <= |trace[i].leases| <= 50 && trace[i].leases == Open(trace[..i], QueueOf(trace[i].origin))
  {
    OrderlyAt(trace, batchMax, i);
    if trace[i].origin == Backfill {
      var j := StartedHasStart(trace, i);
      OrderlyAt(trace, batchMax, j);
      assert j > 0 ==> trace[..j][j-1] == trace[j-1];
    }
  }

  lemma EventIsTold(taken: seq<nat>, written: seq<nat>, lost: seq<nat>, open: seq<nat>, e: Event, w: Which)
    requires multiset(taken) == multiset(written) + multiset(lost) + multiset(open)
    requires e.Applied? && QueueOf(e.origin) == w ==> e.leases == open
    ensures multiset(NextTaken(taken, e, w))
         == multiset(written + if e.Applied? && QueueOf(e.origin) == w then e.leases else [])
          + multiset(lost + if (e.Quits? || e.Dropped?) && e.from == w then open else []) + multiset(NextOpen(open, e, w))
  {
  }

  /** What is taken from a queue is written, lost or awaits its batch. */
  lemma {:induction false} TakenIsTold(trace: seq<Event>, batchMax: nat, w: Which)
    requires Orderly(trace, batchMax)
    ensures multiset(TakenFrom(trace, w)) == multiset(WrittenFrom(trace, w)) + multiset(LostFrom(trace, w)) + multiset(Open(trace, w))
  {
    if trace != [] {
      var front, e := trace[..|trace|-1], trace[|trace|-1];
      TakenIsTold(front, batchMax, w);
      assert e.Applied? && QueueOf(e.origin) == w ==> e.leases == Open(front, w);
      hide Orderly, Follows;
      EventIsTold(TakenFrom(front, w), WrittenFrom(front, w), LostFrom(front, w), Open(front, w), e, w);
    }
  }

  /** Live messages are written in the order they were taken, all of them but a tail, and
      before the end all but those that await their batch. */
  lemma {:induction false} LiveIsWritten(trace: seq<Event>, batchMax: nat)
    requires Orderly(trace, batchMax)
    ensures WrittenFrom(trace, Live) <= TakenFrom(trace, Live)
    ensures !Over(trace) ==> TakenFrom(trace, Live) == WrittenFrom(trace, Live) + Open(trace, Live)
  {
    if trace != [] {
      var front, e := trace[..|trace|-1], trace[|trace|-1];
      LiveIsWritten(front, batchMax);
      if e.Took? && e.from.Live? && !Over(front) {
        var a, b, c := WrittenFrom(front, Live), Open(front, Live), [e.lease];
        assert a + b + c == a + (b + c);
      }
    }
  }

  /** Two history batches never share a start. */
  lemma OwnStart(trace: seq<Event>, i: nat, later: nat, j: nat)
    requires i < later < |trace| && trace[i].Applied? && StartOf(trace, j, later)
    ensures i < j
  {
    assert !LooksAtHistory(trace[i]);
  }

  predicate IsHistoryStep(e: Event) { e == HistoryStart || (e.Applied? && e.origin == Backfill) }

  /** How often a history batch was started or written. */
  function HistorySteps(trace: seq<Event>): nat {
    if trace == [] then 0 else HistorySteps(trace[..|trace|-1]) + if IsHistoryStep(trace[|trace|-1]) then 1 else 0
  }

  /** A log only grows. */
  predicate Remembers(before: seq<Event>, after: seq<Event>) {
    before <= after && (LiveEnded in before ==> LiveEnded in after)
  }

  /** Since then a queue was found empty and given up. */
  predicate GivenUpSince(before: seq<Event>, after: seq<Event>, w: Which) {
    |before| <= |after| && Dropped(w) in after[|before|..]
  }

  lemma GivenUpStays(a: seq<Event>, b: seq<Event>, c: seq<Event>, w: Which)
    requires GivenUpSince(a, b, w) && Remembers(b, c)
    ensures GivenUpSince(a, c, w)
  {
    assert b[|a|..] <= c[|a|..];
    var i :| 0 <= i < |b| - |a| && b[|a|..][i] == Dropped(w);
    assert c[|a|..][i] == Dropped(w);
  }

  lemma FromTheStart(trace: seq<Event>)
    ensures Remembers([], trace)
  {
  }

  lemma GivenUpEarlier(a: seq<Event>, b: seq<Event>, c: seq<Event>, w: Which)
    requires Remembers(a, b) && GivenUpSince(b, c, w)
    ensures GivenUpSince(a, c, w)
  {
    var i :| 0 <= i < |c| - |b| && c[|b|..][i] == Dropped(w);
    assert c[|a|..][i + |b| - |a|] == Dropped(w);
  }

  /** The writer's ledger: its log, every lease taken from each queue, every release, the
      leases held in the order they were taken, and those of each queue that await their
      batch. */
  datatype Books = Books(trace: seq<Event>, takenLive: seq<nat>, takenHistory: seq<nat>, released: seq<nat>, held: seq<nat>,
                         openLive: seq<nat>, openHistory: seq<nat>, started: bool, over: bool)

  const NO_BOOKS := Books([], [], [], [], [], [], [], false, false)

  /** Every lease taken is released or held; the log is orderly. */
  predicate Kept(b: Books, batchMax: nat) {
    && Orderly(b.trace, batchMax)
    && multiset(b.takenLive) + multiset(b.takenHistory) == multiset(b.released) + multiset(b.held)
    && b.takenLive == TakenFrom(b.trace, Live) && b.takenHistory == TakenFrom(b.trace, History)
    && b.openLive == Open(b.trace, Live) && b.openHistory == Open(b.trace, History) && b.started == Started(b.trace)
    && b.over == Over(b.trace)
  }

  function Logged(b: Books, e: Event): Books {
    b.(trace := b.trace + [e], takenLive := NextTaken(b.takenLive, e, Live), takenHistory := NextTaken(b.takenHistory, e, History),
       openLive := NextOpen(b.openLive, e, Live), openHistory := NextOpen(b.openHistory, e, History),
       started := NextStarted(b.started, e), over := NextOver(b.over, e))
  }

  function TakenOne(b: Books, w: Which, id: nat): Books {
    Logged(b.(held := b.held + [id]), Took(w, id))
  }

  function ReleasedAt(b: Books, k: nat): Books
    requires k < |b.held|
  {
    b.(released := b.released + [b.held[k]], held := b.held[..k] + b.held[k+1..])
  }

  lemma LogKeeps(b: Books, e: Event, batchMax: nat)
    requires Kept(b, batchMax) && Follows(b.trace, e, batchMax) && !e.Took?
    ensures Kept(Logged(b, e), batchMax) && Remembers(b.trace, Logged(b, e).trace)
    ensures HistorySteps(Logged(b, e).trace) == HistorySteps(b.trace) + if IsHistoryStep(e) then 1 else 0
  {
    assert (b.trace + [e])[..|b.trace|] == b.trace;
  }

  predicate CanApply(b: Books, origin: Origin, leases: seq<nat>, batchMax: nat) {
    && 1 <= |leases| && !b.over
    && if origin.Realtime? then leases == b.openLive && |leases| <= MAX_WRITE_BATCH
       else leases == b.openHistory && |leases| <= MAX_HISTORY_BATCH && |leases| <= batchMax && b.started
  }

  lemma ApplyFollows(b: Books, origin: Origin, leases: seq<nat>, outcome: Outcome, batchMax: nat)
    requires Kept(b, batchMax) && CanApply(b, origin, leases, batchMax) && !outcome.Suspended?
    ensures Follows(b.trace, Applied(origin, leases, outcome), batchMax)
  {
  }

  lemma NoTimerFollows(b: Books, batchMax: nat)
    requires Kept(b, batchMax) && |b.openLive| == 1
    ensures Follows(b.trace, Quits(Live, NoTimer), batchMax)
  {
  }

  lemma DropFollows(b: Books, w: Which, batchMax: nat)
    requires b.trace != [] && b.trace[|b.trace|-1] == FoundEmpty(w)
    ensures Follows(b.trace, Dropped(w), batchMax) && forall s :: Honest(Dropped(w), s)
  {
  }

  /** What draining a queue takes. */
  predicate CanDrain(b: Books, w: Which, why: Why) {
    if w.Live? then b.openLive == [] && (why.ShuttingDown? || why.Leaving?)
    else (b.openHistory == [] || why.ContextCancelled?) && !why.NoTimer?
         && (why.WriteCancelled? ==> b.trace != [] && StopsHistory(b.trace[|b.trace|-1]))
  }

  lemma DrainFollows(b: Books, w: Which, why: Why, batchMax: nat)
    requires Kept(b, batchMax) && CanDrain(b, w, why)
    ensures Follows(b.trace, Drains(w, why), batchMax)
  {
  }

  lemma StartFollows(b: Books, batchMax: nat)
    requires Kept(b, batchMax) && !b.over && ((b.trace != [] && b.trace[|b.trace|-1] == FoundEmpty(Live)) || LiveEnded in b.trace)
    ensures Follows(b.trace, HistoryStart, batchMax)
  {
  }

  lemma TakeKeeps(b: Books, w: Which, id: nat, batchMax: nat)
    requires Kept(b, batchMax)
    ensures Kept(TakenOne(b, w, id), batchMax) && Remembers(b.trace, TakenOne(b, w, id).trace)
    ensures HistorySteps(TakenOne(b, w, id).trace) == HistorySteps(b.trace)
  {
    assert (b.trace + [Took(w, id)])[..|b.trace|] == b.trace;
    var t := TakenOne(b, w, id);
    assert multiset(t.takenLive) + multiset(t.takenHistory) == multiset(b.takenLive) + multiset(b.takenHistory) + multiset{id};
    assert multiset(t.held) == multiset(b.held) + multiset{id};
  }

  lemma ReleaseKeeps(b: Books, k: nat, batchMax: nat)
    requires Kept(b, batchMax) && k < |b.held|
    ensures Kept(ReleasedAt(b, k), batchMax)
  {
    assert b.held == b.held[..k] + [b.held[k]] + b.held[k+1..];
  }

  /** What the next moment of a script decides. */
  function Choice(script: seq<Moment>): nat { if script == [] then 0 else script[0].choice }

  /** The moments of a script that have gone by. */
  function Past(whole: seq<Moment>, script: seq<Moment>): seq<Moment>
    requires |script| <= |whole|
  {
    whole[..|whole|-|script|]
  }

  /** In each queue what arrived is, in order, what was taken from it and then what waits
      in it. */
  predicate Conserves(start: Shared, whole: seq<Moment>, script: seq<Moment>, s: Shared, b: Books) {
    && |script| <= |whole| && script == whole[|whole|-|script|..]
    && Arrived(start, Past(whole, script)) == Refilled(s, b.takenLive, b.takenHistory)
  }

  /** Of all the leases that entered a queue each is released, held or still waiting, as
      often as it entered. */
  predicate Accounted(start: Shared, whole: seq<Moment>, script: seq<Moment>, s: Shared, b: Books) {
    && |script| <= |whole|
    && var all := Arrived(start, Past(whole, script));
       multiset(all.live.entries) + multiset(all.history.entries)
       == multiset(b.released) + multiset(b.held) + multiset(s.live.entries) + multiset(s.history.entries)
  }

  lemma KeptAccounts(start: Shared, whole: seq<Moment>, script: seq<Moment>, s: Shared, b: Books, batchMax: nat)
    requires Kept(b, batchMax) && Conserves(start, whole, script, s, b)
    ensures Accounted(start, whole, script, s, b)
  {
    hide Orderly, Open, TakenFrom, Started;
  }

  lemma Opened(b: Books, batchMax: nat)
    requires Kept(b, batchMax)
    ensures Orderly(b.trace, batchMax) && b.openLive == Open(b.trace, Live) && b.openHistory == Open(b.trace, History)
  {
  }

  lemma NothingYet()
    ensures HistorySteps([]) == 0 && NO_BOOKS.trace == [] && NO_BOOKS.held == [] && NO_BOOKS.openLive == [] && NO_BOOKS.openHistory == [] && !NO_BOOKS.over
  {
  }

  lemma TimeConserves(start: Shared, whole: seq<Moment>, script: seq<Moment>, s: Shared, b: Books)
    requires Conserves(start, whole, script, s, b) && script != []
    ensures Conserves(start, whole, script[1..], Later(s, script), b)
  {
    ActsRefilled(s, b.takenLive, b.takenHistory, script[0].actions);
    assert Past(whole, script[1..])[..|whole|-|script|] == Past(whole, script) && whole[|whole|-|script|] == script[0];
  }

  lemma TakeConserves(start: Shared, whole: seq<Moment>, script: seq<Moment>, s: Shared, b: Books, w: Which)
    requires Conserves(start, whole, script, s, b) && s.Of(w).entries != []
    ensures Conserves(start, whole, script, TakenOff(s, w), TakenOne(b, w, s.Of(w).entries[0]))
  {
    hide Arrived, Refilled, TakenOff;
    TakenOffRefilled(s, b.takenLive, b.takenHistory, w);
  }

  lemma LogConserves(start: Shared, whole: seq<Moment>, script: seq<Moment>, s: Shared, b: Books, e: Event)
    requires Conserves(start, whole, script, s, b) && !e.Took?
    ensures Conserves(start, whole, script, s, Logged(b, e))
  {
  }

  /** Why a live batch stopped growing. */
  datatype Gathered = Ready | Stopped | Waiting

  class Writer {
    const batchMax: nat
    const finalLiveLimit: int
    ghost const start: Shared
    ghost const whole: seq<Moment>
    var shared: Shared
    var script: seq<Moment>
    ghost var books: Books

    ghost predicate Valid()
      reads this
    {
      1 <= batchMax <= MAX_WRITE_BATCH && Kept(books, batchMax) && Conserves(start, whole, script, shared, books)
      && Truthful(books.trace, shared)
    }

    /** Time passed, history was added, signals stayed. */
    twostate predicate Moved()
      reads this
    {
      Grows(old(shared), shared) && |script| <= |old(script)| && Remembers(old(books).trace, books.trace)
    }

    /** What the moment consumed last decided. */
    ghost predicate LastChoice(choice: nat)
      reads this
    {
      |script| < |whole| && whole[|whole|-|script|-1].choice == choice
    }

    constructor (batchMax: nat, finalLiveLimit: int, shared: Shared, script: seq<Moment>)
      requires 1 <= batchMax <= MAX_WRITE_BATCH
      ensures Valid() && books == NO_BOOKS && start == shared && whole == script
      ensures this.batchMax == batchMax && this.finalLiveLimit == finalLiveLimit && this.shared == shared && this.script == script
    {
      this.batchMax, this.finalLiveLimit, this.shared, this.script := batchMax, finalLiveLimit, shared, script;
      start, whole, books := shared, script, NO_BOOKS;
    }

    method Tick() returns (choice: nat)
      requires Valid()
      modifies this`shared, this`script
      ensures Valid() && Grows(old(shared), shared)
      ensures script == (if old(script) == [] then [] else old(script)[1..]) && shared == Later(old(shared), old(script))
      ensures choice == Choice(old(script)) && (old(script) != [] ==> LastChoice(choice))
    {
      if script == [] {
        return 0;
      }
      ActionsGrow(shared, script[0].actions);
      TimeConserves(start, whole, script, shared, books);
      StaysTruthful(books.trace, shared, ActAll(shared, script[0].actions));
      hide Conserves, Kept, Grows, Truthful;
      shared := ActAll(shared, script[0].actions);
      choice := script[0].choice;
      script := script[1..];
    }

    ghost method Log(e: Event)
      requires Valid() && Follows(books.trace, e, batchMax) && Honest(e, shared) && !e.Took?
      modifies this`books
      ensures Valid() && books == Logged(old(books), e)
      ensures Remembers(old(books).trace, books.trace)
      ensures HistorySteps(books.trace) == HistorySteps(old(books).trace) + if IsHistoryStep(e) then 1 else 0
    {
      LogKeeps(books, e, batchMax);
      LogConserves(start, whole, script, shared, books, e);
      hide Kept, Conserves, Follows, Logged, Remembers, HistorySteps;
      books := Logged(books, e);
    }

    method TryTake(w: Which) returns (ok: bool, id: nat)
      requires Valid()
      modifies this`shared, this`script, this`books
      ensures Valid() && Moved()
      ensures books == if ok then TakenOne(old(books), w, id) else Logged(old(books), FoundEmpty(w))
      ensures HistorySteps(books.trace) == HistorySteps(old(books).trace)
      ensures var now := Later(old(shared), old(script));
        && ok == (now.Of(w).entries != [])
        && if ok then id == now.Of(w).entries[0] && shared == TakenOff(now, w) else shared == now
      ensures ok ==> |script| < |old(script)| || |shared.Of(w).entries| < |old(shared).Of(w).entries|
    {
      hide Kept, HistorySteps, Conserves;
      var _ := Tick();
      var q := shared.Of(w);
      if q.entries == [] {
        Log(FoundEmpty(w));
        return false, 0;
      }
      id := q.entries[0];
      TakeConserves(start, whole, script, shared, books, w);
      shared := shared.With(w, q.(entries := q.entries[1..]));
      TakeKeeps(books, w, id, batchMax);
      assert Truthful(TakenOne(books, w, id).trace, shared);
      books := TakenOne(books, w, id);
      return true, id;
    }

    /** Releases the lease held in position k. */
    method Release(id: nat, ghost k: nat)
      requires Valid() && k < |books.held| && books.held[k] == id
      modifies this`books
      ensures Valid() && books == ReleasedAt(old(books), k)
    {
      ReleaseKeeps(books, k, batchMax);
      books := ReleasedAt(books, k);
    }

    /** Takes one lease and releases it at once. */
    method DrainOne(w: Which) returns (ok: bool)
      requires Valid()
      modifies this
      ensures Valid() && Moved() && books.held == old(books).held
      ensures HistorySteps(books.trace) == HistorySteps(old(books).trace)
      ensures ok ==> |script| < |old(script)| || |shared.Of(w).entries| < |old(shared).Of(w).entries|
      ensures !ok ==> shared.Of(w).entries == [] && books.trace != [] && books.trace[|books.trace|-1] == FoundEmpty(w)
      ensures w.History? ==> books.openLive == old(books).openLive
      ensures w.Live? ==> books.openHistory == old(books).openHistory
      ensures books.over == old(books).over
    {
      hide Kept, Open, HistorySteps, Conserves, Truthful, Later, Orderly, Started, Over, TakenFrom;
      var id;
      ok, id := TryTake(w);
      if ok {
        Release(id, |books.held| - 1);
      }
    }

    /** Gives up what a queue holds until it is empty; nothing of it awaits a batch any
        more. */
    method DrainAndRelease(w: Which, ghost why: Why)
      requires Valid() && CanDrain(books, w, why) && Honest(Drains(w, why), shared)
      modifies this
      ensures Valid() && Moved() && books.held == old(books).held
      ensures shared.Of(w).entries == [] && GivenUpSince(old(books).trace, books.trace, w)
      ensures HistorySteps(books.trace) == HistorySteps(old(books).trace)
      ensures books.openLive == (if w.Live? then [] else old(books).openLive)
      ensures books.openHistory == (if w.History? then [] else old(books).openHistory)
      ensures books.over == (old(books).over || w.Live? || why.Leaving?)
      ensures books.trace != [] && books.trace[|books.trace|-1] == Dropped(w)
    {
      hide Kept, Open, HistorySteps, Conserves, Orderly, Truthful, Honest;
      DrainFollows(books, w, why, batchMax);
      hide Follows, CanDrain;
      Log(Drains(w, why));
      DrainAll(w);
      DropFollows(books, w, batchMax);
      Log(Dropped(w));
      assert books.trace[|old(books).trace|..][|books.trace|-|old(books).trace|-1] == Dropped(w);
    }

    /** Takes and releases until nothing is left. */
    method DrainAll(w: Which)
      requires Valid()
      modifies this
      ensures Valid() && Moved() && books.held == old(books).held && books.over == old(books).over
      ensures shared.Of(w).entries == [] && books.trace != [] && books.trace[|books.trace|-1] == FoundEmpty(w)
      ensures HistorySteps(books.trace) == HistorySteps(old(books).trace)
      ensures w.History? ==> books.openLive == old(books).openLive
      ensures w.Live? ==> books.openHistory == old(books).openHistory
    {
      hide Kept, Open, HistorySteps, Conserves, Orderly, Truthful;
      var ok := true;
      while ok
        invariant Valid() && Moved() && books.held == old(books).held && books.over == old(books).over
        invariant HistorySteps(books.trace) == HistorySteps(old(books).trace)
        invariant w.History? ==> books.openLive == old(books).openLive
        invariant w.Live? ==> books.openHistory == old(books).openHistory
        invariant !ok ==> shared.Of(w).entries == [] && books.trace != [] && books.trace[|books.trace|-1] == FoundEmpty(w)
        decreases ok, |script|, |shared.Of(w).entries|
      {
        ok := DrainOne(w);
      }
    }

    /** Takes one more lease into the array, if there is one. */
    method Collect(w: Which, leases: array<nat>, count: nat, ghost kept: seq<nat>) returns (ok: bool)
      requires Valid() && count < leases.Length && books.held == kept + leases[..count]
      modifies this`shared, this`script, this`books, leases
      ensures Valid() && Moved() && books.held == kept + leases[..count + if ok then 1 else 0]
      ensures books.openLive == old(books).openLive + if ok && w.Live? then [leases[count]] else []
      ensures books.openHistory == old(books).openHistory + if ok && w.History? then [leases[count]] else []
      ensures w.History? ==> books.started == old(books).started
      ensures books.over == old(books).over && (!ok ==> shared.Of(w).entries == [])
      ensures books.takenLive == old(books).takenLive + if ok && w.Live? then [leases[count]] else []
      ensures leases[..count] == old(leases[..count])
      ensures HistorySteps(books.trace) == HistorySteps(old(books).trace)
    {
      hide Kept, Open, HistorySteps, Conserves;
      var id;
      ok, id := TryTake(w);
      if ok {
        leases[count] := id;
        assert leases[..count+1] == leases[..count] + [id];
      }
    }

    method ReleaseAll(leases: array<nat>, count: nat, ghost kept: seq<nat>)
      requires Valid() && count <= leases.Length && books.held == kept + leases[..count]
      modifies this`books
      ensures Valid() && books == old(books).(released := books.released, held := kept)
    {
      hide Kept, Open, HistorySteps, Conserves;
      for i := 0 to count
        invariant Valid() && books == old(books).(released := books.released, held := kept + leases[i..count])
      {
        Release(leases[i], |kept|);
      }
    }

    /** The log grew by one event. */
    twostate predicate Adds(e: Event)
      reads this
    {
      books.trace == old(books).trace + [e]
    }

    /** Writes one batch and releases its leases, whatever the store answers; unless its
        context is cancelled. */
    method Apply(origin: Origin, leases: array<nat>, count: nat, ghost kept: seq<nat>) returns (outcome: Outcome)
      requires Valid() && 1 <= count <= leases.Length && books.held == kept + leases[..count]
      requires CanApply(books, origin, leases[..count], batchMax)
      modifies this
      ensures Valid() && Moved() && books.held == kept && outcome != Suspended
      ensures origin.Realtime? ==> HistorySteps(books.trace) == HistorySteps(old(books).trace)
      ensures Adds(Applied(origin, old(leases[..count]), outcome)) ||
              (outcome == Cancelled && Adds(Quits(QueueOf(origin), ContextCancelled)) && if origin.Realtime? then shared.cancelled else shared.historyCancelled)
      ensures if origin.Realtime? then books.openLive == [] else books.openHistory == []
      ensures if origin.Realtime? then books.openHistory == old(books).openHistory else books.openLive == old(books).openLive
      ensures books.takenLive == old(books).takenLive && (outcome == Fine ==> !books.over)
      ensures origin.Backfill? && outcome != Broken ==> !books.over
      ensures origin.Realtime? || outcome == Broken ==> Caused(outcome, books.trace, shared)
    {
      hide Kept, Open, HistorySteps, Conserves, Orderly, Started, Over;
      var choice := Tick();
      if if origin.Realtime? then shared.cancelled else shared.historyCancelled {
        Log(Quits(QueueOf(origin), ContextCancelled));
        ReleaseAll(leases, count, kept);
        return Cancelled;
      }
      outcome := if choice % 3 == 0 then Fine else if choice % 3 == 1 then Cancelled else Broken;
      ApplyFollows(books, origin, leases[..count], outcome, batchMax);
      hide Follows;
      Log(Applied(origin, leases[..count], outcome));
      assert books.trace[|books.trace|-1] == Applied(origin, leases[..count], outcome);
      ReleaseAll(leases, count, kept);
    }

    /** Collects a live batch until it is full, the queue ends, the timer fires or
        the context is cancelled. */
    method GatherLive(leases: array<nat>, ghost kept: seq<nat>) returns (why: Gathered, count: nat)
      requires Valid() && leases.Length == MAX_WRITE_BATCH && books.held == kept + leases[..1] && books.openLive == leases[..1]
      modifies this, leases
      ensures Valid() && Moved() && 1 <= count <= batchMax && books.held == kept + leases[..count]
      ensures books.openLive == leases[..count] && books.openHistory == old(books).openHistory && books.over == old(books).over
      ensures leases[0] == old(leases[0]) && books.takenLive == old(books).takenLive + leases[1..count]
      ensures why.Ready? ==> count == batchMax || shared.live.Ended() || LastChoice(1)
      ensures why.Stopped? ==> shared.cancelled && LastChoice(0)
      ensures why.Waiting? ==> script == []
    {
      hide Kept, Open, HistorySteps, Conserves, Truthful, Later, Orderly, Started, Over, TakenFrom;
      count := 1;
      while count < batchMax
        invariant 1 <= count <= batchMax
        invariant Valid() && Moved() && books.held == kept + leases[..count]
        invariant books.openLive == leases[..count] && books.openHistory == old(books).openHistory && books.over == old(books).over
        invariant leases[0] == old(leases[0]) && books.takenLive == old(books).takenLive + leases[1..count]
        decreases batchMax - count, |script|
      {
        var ok := Collect(Live, leases, count, kept);
        if ok {
          assert leases[..count+1] == leases[..count] + [leases[count]];
          assert leases[1..count+1] == leases[1..count] + [leases[count]];
          count := count + 1;
          continue;
        }
        if shared.live.Ended() {
          return Ready, count;
        }
        if script == [] {
          return Waiting, count;
        }
        var choice := Tick();
        if choice == 0 && shared.cancelled {
          return Stopped, count;
        }
        if choice == 1 {
          return Ready, count;
        }
      }
      return Ready, count;
    }

    /** How the batch that a live lease started ended: it was written with all that was
        taken meanwhile, its context was cancelled, or there was no timer to wait with. */
    twostate predicate LiveEnds(first: nat, outcome: Outcome)
      reads this
    {
      || LiveWritten(first, outcome)
      || (books.trace == old(books).trace + [Quits(Live, NoTimer)] && outcome == Broken && batchMax > 1 && Choice(old(script)) == 0)
    }

    twostate predicate LiveWritten(first: nat, outcome: Outcome)
      reads this
    {
      |books.trace| > |old(books).trace| &&
      var e := books.trace[|books.trace|-1];
      || (e.Applied? && e.origin.Realtime? && e.outcome == outcome && e.leases != [] && e.leases[0] == first
          && books.takenLive == old(books).takenLive + e.leases[1..])
      || (e == Quits(Live, ContextCancelled) && outcome == Cancelled && shared.cancelled)
    }

    /** A live message and what joins it until the batch is ready. */
    method WriteLive(first: nat, ghost kept: seq<nat>) returns (outcome: Outcome)
      requires Valid() && books.held == kept + [first] && books.openLive == [first] && !books.over
      modifies this
      ensures Valid() && Moved() && (outcome != Suspended ==> books.held == kept && books.openLive == [])
      ensures books.openHistory == old(books).openHistory && (outcome == Fine ==> !books.over)
      ensures outcome != Suspended ==> LiveEnds(first, outcome) && Caused(outcome, books.trace, shared)
      ensures outcome == Suspended ==> script == []
    {
      hide Kept, Open, HistorySteps, Conserves, Truthful, Orderly, Over;
      var leases := new nat[MAX_WRITE_BATCH];
      leases[0] := first;
      assert leases[..1] == [first];
      if batchMax > 1 {
        var timer := Tick();
        if timer == 0 {
          NoTimerFollows(books, batchMax);
          Log(Quits(Live, NoTimer));
          assert books.trace[|books.trace|-1] == Quits(Live, NoTimer);
          Release(first, |kept|);
          return Broken;
        }
      }
      outcome := WriteGathered(leases, kept);
    }

    method WriteGathered(leases: array<nat>, ghost kept: seq<nat>) returns (outcome: Outcome)
      requires Valid() && leases.Length == MAX_WRITE_BATCH && books.held == kept + leases[..1] && books.openLive == leases[..1] && !books.over
      modifies this, leases
      ensures Valid() && Moved() && (outcome != Suspended ==> books.held == kept && books.openLive == [])
      ensures books.openHistory == old(books).openHistory && (outcome == Fine ==> !books.over)
      ensures outcome != Suspended ==> LiveWritten(old(leases[0]), outcome) && Caused(outcome, books.trace, shared)
      ensures outcome == Suspended ==> script == []
    {
      hide Kept, Open, HistorySteps, Conserves, Truthful, Orderly, Over;
      var why, count := GatherLive(leases, kept);
      match why
      case Waiting => return Suspended;
      case Stopped =>
        Log(Quits(Live, ContextCancelled));
        ReleaseAll(leases, count, kept);
        return Cancelled;
      case Ready =>
        assert leases[..count][1..] == leases[1..count];
        outcome := Apply(Realtime, leases, count, kept);
    }

    /** Takes what the history queue holds, up to the smaller of the two limits. */
    method GatherHistory(leases: array<nat>) returns (count: nat)
      requires Valid() && leases.Length == MAX_HISTORY_BATCH && books.held == leases[..1] && books.openHistory == leases[..1]
      modifies this, leases
      ensures Valid() && Moved() && books.started == old(books).started && books.openLive == old(books).openLive
      ensures 1 <= count <= batchMax && count <= MAX_HISTORY_BATCH && books.held == leases[..count] && books.openHistory == leases[..count]
      ensures books.over == old(books).over && leases[0] == old(leases[0])
      ensures count == batchMax || count == MAX_HISTORY_BATCH || shared.history.entries == []
    {
      hide Kept, Open, HistorySteps, Conserves, Truthful;
      count := 1;
      var limit := if batchMax > MAX_HISTORY_BATCH then MAX_HISTORY_BATCH else batchMax;
      while count < limit
        invariant 1 <= count <= limit
        invariant Valid() && Moved() && books.held == [] + leases[..count] && books.started == old(books).started
        invariant books.openHistory == leases[..count] && books.openLive == old(books).openLive
        invariant books.over == old(books).over && leases[0] == old(leases[0])
      {
        var ok := Collect(History, leases, count, []);
        if !ok {
          return;
        }
        assert leases[..count+1] == leases[..count] + [leases[count]];
        count := count + 1;
      }
    }

    /** How the batch that a history lease started ended: it was written or its context was
        cancelled. */
    twostate predicate HistoryEnds(first: nat, outcome: Outcome)
      reads this
    {
      |books.trace| > |old(books).trace| &&
      var e := books.trace[|books.trace|-1];
      || (e.Applied? && e.origin.Backfill? && e.outcome == outcome && e.leases != [] && e.leases[0] == first)
      || (e == Quits(History, ContextCancelled) && outcome == Cancelled && shared.historyCancelled)
    }

    method WriteHistory(first: nat) returns (outcome: Outcome)
      requires Valid() && books.held == [first] && books.openHistory == [first] && !books.over
      requires (books.trace != [] && books.trace[|books.trace|-1] == FoundEmpty(Live)) || LiveEnded in books.trace
      modifies this
      ensures Valid() && Moved() && books.held == [] && outcome != Suspended && HistoryEnds(first, outcome)
      ensures books.openLive == old(books).openLive && books.openHistory == []
      ensures (outcome != Broken ==> !books.over) && (outcome == Broken ==> Caused(outcome, books.trace, shared))
    {
      hide Kept, Open, HistorySteps, Conserves, Orderly, Started, Truthful, Over;
      StartFollows(books, batchMax);
      hide Follows;
      Log(HistoryStart);
      outcome := WriteStarted(first);
    }

    method WriteStarted(first: nat) returns (outcome: Outcome)
      requires Valid() && books.held == [first] && books.openHistory == [first] && books.started && !books.over
      modifies this
      ensures Valid() && Moved() && books.held == [] && outcome != Suspended && HistoryEnds(first, outcome)
      ensures books.openLive == old(books).openLive && books.openHistory == []
      ensures (outcome != Broken ==> !books.over) && (outcome == Broken ==> Caused(outcome, books.trace, shared))
    {
      hide Kept, Open, HistorySteps, Conserves, Orderly, Started, Follows, Truthful, Over, Caused;
      var leases := new nat[MAX_HISTORY_BATCH];
      leases[0] := first;
      assert leases[..1] == [first];
      var count := GatherHistory(leases);
      outcome := Apply(Backfill, leases, count, []);
    }

    /** Drops history, waits for the live queue to stop and writes one last batch; no
        history batch starts or is written any more. */
    method FinishShutdown(hasPending: bool, pending: nat) returns (outcome: Outcome)
      requires Valid() && Awaits(hasPending, pending)
      requires shared.shutdown
      modifies this
      ensures Valid() && Moved() && books.held == [] && books.openLive == [] && books.openHistory == []
      ensures GivenUpSince(old(books).trace, books.trace, History)
      ensures outcome in {Fine, Broken} ==> shared.live.stopped && shared.live.entries == [] && GivenUpSince(old(books).trace, books.trace, Live)
      ensures Accounted(start, whole, script, shared, books) && Caused(outcome, books.trace, shared)
      ensures HistorySteps(books.trace) == HistorySteps(old(books).trace) && (outcome == Suspended ==> script == [])
    {
      hide Kept, Open, HistorySteps, Conserves, Orderly, Started, GivenUpSince, Accounted, Truthful, Over;
      if hasPending {
        Log(Quits(History, ShuttingDown));
        Release(pending, 0);
      }
      ghost var early := books.trace;
      DrainAndRelease(History, ShuttingDown);
      GivenUpEarlier(old(books).trace, early, books.trace, History);
      outcome := AwaitStop();
      if outcome == Fine {
        ghost var sofar := books.trace;
        outcome := WriteLast();
        GivenUpStays(old(books).trace, sofar, books.trace, History);
        GivenUpEarlier(old(books).trace, sofar, books.trace, Live);
      }
      KeptAccounts(start, whole, script, shared, books, batchMax);
    }

    /** Blocks until the live queue is stopped. */
    method AwaitStop() returns (outcome: Outcome)
      requires Valid()
      modifies this`shared, this`script
      ensures Valid() && Moved() && outcome in {Fine, Cancelled, Suspended}
      ensures outcome == Fine ==> shared.live.stopped
      ensures outcome == Cancelled ==> shared.cancelled
      ensures outcome == Suspended ==> script == []
    {
      hide Kept, Conserves, Truthful;
      while !shared.live.stopped
        invariant Valid() && Moved()
        decreases |script|
      {
        if script == [] {
          return Suspended;
        }
        var choice := Tick();
        if choice == 0 && shared.cancelled {
          return Cancelled;
        }
      }
      return Fine;
    }

    /** One last live batch; the rest of the queue is given up. */
    method WriteLast() returns (outcome: Outcome)
      requires Valid() && books.held == [] && books.openLive == [] && !books.over && shared.shutdown && shared.live.stopped
      modifies this
      ensures Valid() && Moved() && books.held == [] && HistorySteps(books.trace) == HistorySteps(old(books).trace)
      ensures books.openLive == [] && books.openHistory == old(books).openHistory && Caused(outcome, books.trace, shared)
      ensures shared.live.entries == [] && GivenUpSince(old(books).trace, books.trace, Live) && outcome != Suspended
    {
      hide Kept, Open, HistorySteps, Conserves, Orderly, GivenUpSince, Truthful, Over, Caused;
      ghost var first := books.trace;
      outcome := LastBatch();
      ghost var second, before := books.trace, shared;
      DrainAndRelease(Live, ShuttingDown);
      GivenUpEarlier(first, second, books.trace, Live);
      StaysCaused(outcome, second, books.trace, before, shared);
    }

    method GatherLast(leases: array<nat>) returns (count: nat)
      requires Valid() && books.held == [] && books.openLive == [] && leases.Length == MAX_WRITE_BATCH
      modifies this, leases
      ensures Valid() && Moved() && count <= MAX_WRITE_BATCH && books.held == [] + leases[..count] && books.openLive == leases[..count]
      ensures HistorySteps(books.trace) == HistorySteps(old(books).trace)
      ensures books.over == old(books).over && books.openHistory == old(books).openHistory
      ensures count == LastLimit() || shared.live.entries == []
    {
      hide Kept, Open, HistorySteps, Conserves, Truthful;
      var limit := if finalLiveLimit <= 0 || finalLiveLimit > MAX_WRITE_BATCH then MAX_WRITE_BATCH else finalLiveLimit;
      count := 0;
      while count < limit
        invariant 0 <= count <= limit
        invariant Valid() && Moved() && books.held == [] + leases[..count] && books.openLive == leases[..count]
        invariant HistorySteps(books.trace) == HistorySteps(old(books).trace)
        invariant books.over == old(books).over && books.openHistory == old(books).openHistory
      {
        var ok := Collect(Live, leases, count, []);
        if !ok {
          return;
        }
        assert leases[..count+1] == leases[..count] + [leases[count]];
        count := count + 1;
      }
    }

    /** How many live messages the last batch may hold. */
    function LastLimit(): nat { if 0 < finalLiveLimit <= MAX_WRITE_BATCH then finalLiveLimit else MAX_WRITE_BATCH }

    method LastBatch() returns (outcome: Outcome)
      requires Valid() && books.held == [] && books.openLive == [] && !books.over
      modifies this
      ensures Valid() && Moved() && books.held == [] && books.openLive == [] && books.openHistory == old(books).openHistory
      ensures HistorySteps(books.trace) == HistorySteps(old(books).trace) && Caused(outcome, books.trace, shared)
      ensures outcome != Suspended
    {
      hide Kept, Open, Orderly, HistorySteps, Conserves, Truthful, Over;
      var leases := new nat[MAX_WRITE_BATCH];
      var count := GatherLast(leases);
      if count == 0 {
        return Fine;
      }
      outcome := Apply(Realtime, leases, count, []);
    }

    /** Between turns only a pending history lease is held. It alone awaits a batch,
        unless a cancelled history context has given it up already. */
    ghost predicate Awaits(hasPending: bool, pending: nat)
      reads this
    {
      && books.held == (if hasPending then [pending] else []) && books.openLive == [] && !books.over
      && (books.openHistory == books.held || (shared.historyCancelled && books.openHistory == []))
    }

    /** Nothing but a pending history lease is left to release. */
    ghost predicate Leavable(hasPending: bool, pending: nat)
      reads this
    {
      && books.held == (if hasPending then [pending] else []) && books.openLive == []
      && (books.openHistory == books.held || books.openHistory == [])
    }

    /** A queue is given up only when it has ended. */
    ghost predicate EndsNoticed(liveOpen: bool, historyOpen: bool)
      reads this
    {
      && (!liveOpen ==> LiveEnded in books.trace && shared.live.Ended())
      && (!historyOpen ==> shared.history.Ended())
    }

    /** Nothing is left to do: shutdown began, or both queues have ended. */
    ghost predicate Done()
      reads this
    {
      shared.shutdown || (shared.live.Ended() && shared.history.Ended())
    }

    /** How a turn may end: going on with what awaits, or leaving for a cause. */
    ghost predicate Ends(outcome: Outcome, more: bool, hasNow: bool, now: nat)
      reads this
    {
      && (more ==> outcome == Fine && Awaits(hasNow, now))
      && (outcome != Suspended ==> Leavable(hasNow, now) && Caused(outcome, books.trace, shared))
      && (outcome == Fine && !more ==> Done()) && (outcome == Suspended ==> script == [])
    }

    /** One selection of the next history lease; never while one is pending. */
    method SelectHistory() returns (hasPending: bool, pending: nat)
      requires Valid() && Awaits(false, 0)
      modifies this
      ensures Valid() && Moved() && Awaits(hasPending, pending)
    {
      hide Kept, Open, Started, HistorySteps, Conserves, Truthful;
      hasPending, pending := TryTake(History);
    }

    /** What wakes the blocked loop. A wake without its cause is a spurious hint. */
    method Wait(hasPending: bool, pending: nat, liveOpen: bool, historyOpen: bool)
      returns (outcome: Outcome, more: bool, hasNow: bool, now: nat)
      requires Valid() && Awaits(hasPending, pending)
      requires hasPending ==> shared.historyCancelled
      requires script != []
      modifies this
      ensures Valid() && Moved() && Ends(outcome, more, hasNow, now)
      ensures |script| < |old(script)|
      ensures var s, choice := Later(old(shared), old(script)), Choice(old(script));
        && (more <==> !(choice == 0 && s.cancelled) && !(choice == 1 && s.shutdown))
        && (choice == 0 && s.cancelled ==> outcome == Cancelled)
        && (choice == 2 && historyOpen && s.historyCancelled ==> shared.history.entries == [])
    {
      hide Kept, Open, Started, HistorySteps, Conserves, Truthful, Orderly, Over, Follows;
      outcome, hasNow, now := Fine, hasPending, pending;
      var choice := Tick();
      if choice == 0 && shared.cancelled {
        return Cancelled, false, hasNow, now;
      } else if choice == 1 && shared.shutdown {
        outcome := FinishShutdown(hasPending, pending);
        return outcome, false, false, 0;
      } else if choice == 2 && historyOpen {
        if shared.historyCancelled {
          DrainAndRelease(History, ContextCancelled);
        } else {
          hasNow, now := SelectHistory();
        }
      }
      more := true;
    }

    /** A live message, when there is one, starts a live batch at once. */
    method LiveTurn() returns (took: bool, outcome: Outcome)
      requires Valid() && books.openLive == [] && !books.over
      modifies this
      ensures Valid() && Moved() && books.openHistory == old(books).openHistory
      ensures outcome != Suspended ==> books.held == old(books).held && books.openLive == [] && Caused(outcome, books.trace, shared)
      ensures (outcome == Fine ==> !books.over) && (outcome == Suspended ==> script == [])
      ensures !took ==> outcome == Fine && books.trace == old(books).trace + [FoundEmpty(Live)]
    {
      hide Kept, Open, Started, HistorySteps, Conserves, Truthful, Orderly, Over;
      outcome := Fine;
      ghost var kept := books.held;
      var first;
      took, first := TryTake(Live);
      if took {
        outcome := WriteLive(first, kept);
      }
    }

    /** The turn of a pending history lease: the live queue is asked once more, and
        only an empty or ended one lets the history batch start. */
    method HistoryTurn(pending: nat, liveOpen: bool) returns (outcome: Outcome, hasPending: bool)
      requires Valid() && Awaits(true, pending) && books.openHistory == books.held
      requires !liveOpen ==> LiveEnded in books.trace
      modifies this
      ensures Valid() && Moved() && Ends(outcome, outcome == Fine, hasPending, pending)
      ensures outcome == Fine && !hasPending ==> books.trace != [] && Settles(books.trace[|books.trace|-1])
    {
      hide Kept, Open, HistorySteps, Conserves, Orderly, Started, Truthful, Over;
      if liveOpen {
        var took;
        took, outcome := LiveTurn();
        if took {
          return outcome, true;
        }
      }
      outcome := WriteHistory(pending);
      if outcome.Cancelled? {
        var _ := Tick();
        if !shared.cancelled {
          DrainAndRelease(History, WriteCancelled);
          return Fine, false;
        }
      }
      return outcome, false;
    }

    /** A cancelled history context gives up what is pending and what is queued. */
    method DropHistory(hasPending: bool, pending: nat) returns (stillPending: bool)
      requires Valid() && Awaits(hasPending, pending)
      modifies this
      ensures Valid() && Moved() && Awaits(stillPending, pending)
      ensures if Later(old(shared), old(script)).historyCancelled then !stillPending && shared.history.entries == []
              else stillPending == hasPending && books == old(books)
    {
      hide Kept, Open, HistorySteps, Conserves, Orderly, Started, Truthful, Over;
      stillPending := hasPending;
      var _ := Tick();
      if shared.historyCancelled {
        if hasPending {
          Log(Quits(History, ContextCancelled));
          Release(pending, 0);
        }
        DrainAndRelease(History, ContextCancelled);
        stillPending := false;
      }
    }

    method NoticeEnds(liveOpen: bool, historyOpen: bool) returns (liveNow: bool, historyNow: bool)
      requires Valid()
      modifies this`shared, this`script, this`books
      ensures Valid() && Moved() && books.openLive == old(books).openLive && books.openHistory == old(books).openHistory
      ensures books.held == old(books).held && books.over == old(books).over
      ensures !liveNow ==> !liveOpen || (LiveEnded in books.trace && shared.live.Ended())
      ensures !historyNow ==> !historyOpen || shared.history.Ended()
      ensures Later(old(shared), old(script)).live.Ended() ==> !liveNow
      ensures old(shared).history.Ended() ==> !historyNow
    {
      hide Kept, Open, HistorySteps, Conserves, Orderly, Started, Truthful, Over;
      liveNow, historyNow := liveOpen, historyOpen;
      var _ := Tick();
      if liveOpen && shared.live.Ended() {
        liveNow := false;
        Log(LiveEnded);
        assert books.trace[|books.trace|-1] == LiveEnded;
      }
      var _ := Tick();
      if historyOpen && shared.history.Ended() {
        historyNow := false;
      }
    }

    /** Nothing live was found: select history, notice ended queues, or block. */
    method Idle(hasPending: bool, pending: nat, liveOpen: bool, historyOpen: bool)
      returns (outcome: Outcome, more: bool, hasNow: bool, now: nat, liveNow: bool, historyNow: bool)
      requires Valid() && Awaits(hasPending, pending)
      requires hasPending ==> shared.historyCancelled
      requires EndsNoticed(liveOpen, historyOpen)
      modifies this
      ensures Valid() && Moved() && Ends(outcome, more, hasNow, now) && EndsNoticed(liveNow, historyNow)
    {
      hide Kept, Open, HistorySteps, Conserves, Truthful, Orderly, Over, Started;
      outcome, more, hasNow, now, liveNow, historyNow := Fine, true, hasPending, pending, liveOpen, historyOpen;
      if !hasPending && historyOpen && !shared.historyCancelled {
        hasNow, now := SelectHistory();
        if hasNow { return; }
      }
      liveNow, historyNow := NoticeEnds(liveOpen, historyOpen);
      if !liveNow && !historyNow {
        more := false;
      } else if script == [] {
        outcome, more := Suspended, false;
      } else {
        outcome, more, hasNow, now := Wait(hasNow, now, liveNow, historyNow);
      }
    }

    /** One round of the loop. */
    method Round(hasPending: bool, pending: nat, liveOpen: bool, historyOpen: bool)
      returns (outcome: Outcome, more: bool, hasNow: bool, now: nat, liveNow: bool, historyNow: bool)
      requires Valid() && Awaits(hasPending, pending) && script != []
      requires EndsNoticed(liveOpen, historyOpen)
      modifies this
      ensures Valid() && |script| < |old(script)| && Ends(outcome, more, hasNow, now)
      ensures more ==> EndsNoticed(liveNow, historyNow)
      ensures Later(old(shared), old(script)).cancelled ==> outcome == Cancelled && !more && books == old(books)
      ensures Later(old(shared), old(script)).shutdown ==> !more && HistorySteps(books.trace) == HistorySteps(old(books).trace)
      ensures Later(old(shared), old(script)).shutdown && outcome in {Fine, Broken} ==>
                GivenUpSince(old(books).trace, books.trace, History) && GivenUpSince(old(books).trace, books.trace, Live)
    {
      hide Kept, Open, HistorySteps, Conserves, Truthful, Orderly, Over, Started;
      outcome, more, hasNow, now, liveNow, historyNow := Cancelled, false, hasPending, pending, liveOpen, historyOpen;
      var _ := Tick();
      if shared.cancelled {
        return;
      }
      if shared.shutdown {
        outcome := FinishShutdown(hasPending, pending);
        hasNow := false;
        return;
      }
      hasNow := DropHistory(hasPending, pending);
      if liveOpen {
        var took;
        took, outcome := LiveTurn();
        if took {
          more := outcome == Fine;
          return;
        }
      }
      outcome, more, hasNow, now, liveNow, historyNow := HistoryOrIdle(hasNow, now, liveOpen, historyOpen);
    }

    /** No live message was found: write the pending history, or look for some. */
    method HistoryOrIdle(hasPending: bool, pending: nat, liveOpen: bool, historyOpen: bool)
      returns (outcome: Outcome, more: bool, hasNow: bool, now: nat, liveNow: bool, historyNow: bool)
      requires Valid() && Awaits(hasPending, pending)
      requires EndsNoticed(liveOpen, historyOpen)
      modifies this
      ensures Valid() && Moved() && Ends(outcome, more, hasNow, now)
      ensures more ==> EndsNoticed(liveNow, historyNow)
    {
      hide Kept, Open, HistorySteps, Conserves, Truthful, Orderly, Over, Started;
      hasNow, now, liveNow, historyNow := hasPending, pending, liveOpen, historyOpen;
      var _ := Tick();
      if hasPending && !shared.historyCancelled {
        outcome, hasNow := HistoryTurn(pending, liveOpen);
        more := outcome == Fine;
        return;
      }
      outcome, more, hasNow, now, liveNow, historyNow := Idle(hasPending, pending, liveOpen, historyOpen);
    }

    method Loop() returns (outcome: Outcome, hasPending: bool, pending: nat)
      requires Valid() && Awaits(false, 0)
      modifies this
      ensures Valid() && Ends(outcome, false, hasPending, pending)
      ensures outcome == Suspended ==> script == []
      ensures old(shared).shutdown || old(shared).cancelled ==> HistorySteps(books.trace) == HistorySteps(old(books).trace)
      ensures old(shared).cancelled ==> outcome in {Cancelled, Suspended}
    {
      hide Kept, Open, HistorySteps, Conserves, Truthful, Orderly, Over, Started, GivenUpSince, Caused;
      if script != [] { ActionsGrow(shared, script[0].actions); }
      hasPending, pending := false, 0;
      var liveOpen, historyOpen := true, true;
      while script != []
        invariant Valid() && Awaits(hasPending, pending)
        invariant EndsNoticed(liveOpen, historyOpen)
        invariant (old(shared).shutdown || old(shared).cancelled) ==> shared == old(shared) && script == old(script) && books == old(books)
        decreases |script|
      {
        var more;
        outcome, more, hasPending, pending, liveOpen, historyOpen := Round(hasPending, pending, liveOpen, historyOpen);
        if !more { return outcome, hasPending, pending; }
      }
      return Suspended, hasPending, pending;
    }

    /** The goroutine. However it ends, every lease that entered a queue was released, as
        often as it entered, or still waits there; both queues were found empty and given
        up, and every batch started in order. What was taken is in a batch, or was quit or
        drained for the cause in the log, which is so. Without an error it ends only on
        shutdown or when both queues have ended, and each error has its cause. */
    method Run() returns (outcome: Outcome)
      requires Valid() && books == NO_BOOKS
      modifies this
      ensures Orderly(books.trace, batchMax) && Truthful(books.trace, shared) && Conserves(start, whole, script, shared, books)
      ensures Accounted(start, whole, script, shared, books)
      ensures outcome != Suspended ==> books.held == [] && shared.history.entries == []
      ensures outcome != Suspended ==> GivenUpSince([], books.trace, Live) && GivenUpSince([], books.trace, History)
      ensures outcome != Suspended ==> Open(books.trace, Live) == [] == Open(books.trace, History)
      ensures (outcome == Fine ==> Done()) && Caused(outcome, books.trace, shared)
      ensures outcome == Suspended ==> script == []
      ensures old(shared).shutdown || old(shared).cancelled ==> HistorySteps(books.trace) == 0
      ensures old(shared).cancelled ==> outcome in {Cancelled, Suspended}
    {
      hide Kept, Conserves, Truthful, Orderly, Over, GivenUpSince, HistorySteps, Started, Open, TakenFrom, Arrived, Accounted;
      NothingYet();
      var hasPending, pending;
      outcome, hasPending, pending := Loop();
      if !outcome.Suspended? {
        ghost var before, earlier := books.trace, shared;
        Leave(hasPending, pending);
        StaysCaused(outcome, before, books.trace, earlier, shared);
      }
      KeptAccounts(start, whole, script, shared, books, batchMax);
      Opened(books, batchMax);
    }

    /** What the goroutine does on every way out. */
    method Leave(hasPending: bool, pending: nat)
      requires Valid() && Leavable(hasPending, pending)
      modifies this
      ensures Valid() && Moved() && books.held == [] && shared.history.entries == []
      ensures books.openLive == [] && books.openHistory == []
      ensures GivenUpSince([], books.trace, Live) && GivenUpSince([], books.trace, History)
      ensures HistorySteps(books.trace) == HistorySteps(old(books).trace)
    {
      hide Kept, Open, HistorySteps, Conserves, Orderly, GivenUpSince, Truthful, Over;
      if hasPending {
        Log(Quits(History, Leaving));
        Release(pending, 0);
      }
      ghost var first := books.trace;
      DrainAndRelease(Live, Leaving);
      ghost var second := books.trace;
      DrainAndRelease(History, Leaving);
      FromTheStart(first);
      FromTheStart(second);
      GivenUpEarlier([], first, second, Live);
      GivenUpStays([], second, books.trace, Live);
      GivenUpEarlier([], second, books.trace, History);
    }
  }
}
