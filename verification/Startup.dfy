/** The startup handshake of the core: Run and the update publisher race for one
    atomic word, while other components publish and the caller may cancel. */
module Startup {
  datatype Decision = Waiting | Committed | Aborted

  /** Update kinds are mailbox slots; the first one is Ready. */
  const READY: nat := 0

  /** The flags and channels Run and the publisher share; everOpen remembers that
      sends were accepted at some time. */
  datatype Flags = Flags(startup: Decision, accepting: bool, everOpen: bool, parentCancelled: bool,
                         readyPublished: bool, gate: bool, stopped: bool, publisherCancelled: bool)

  datatype Pending = None | Some(kind: nat, lease: nat)

  /** The update mailbox, one slot per kind, and the publisher's leases: taken and
      released are logs, issued numbers the leases. */
  datatype Box = Box(slots: map<nat, nat>, issued: nat, pending: Pending, taken: seq<nat>, released: seq<nat>)

  /** Where the publisher is between two atomic steps. */
  datatype Publisher = Top | FoundNothing | Loaded(seen: Decision) | Won | Cleared | Sending | Leaving | Left {
    predicate PastTheRace() { Won? || Cleared? || Sending? }
    predicate Gone() { Leaving? || Left? }
  }

  /** Where Run is between two atomic steps. */
  datatype Main = Begin | BeginCancelled | ReadyDue | Selecting | SelectCancelled | AwaitReady | Aborting
                | Up | Down | Closed | Ending | Finished {
    predicate Undecided() { Begin? || BeginCancelled? || ReadyDue? || Selecting? || SelectCancelled? }
    predicate Over() { Closed? || Ending? || Finished? }
    predicate Shutting() { Down? || Over() }
    predicate Started() { Up? || Shutting() }
  }

  /** emitted lists the kinds sent to the user interface. */
  datatype Sys = Sys(main: Main, pub: Publisher, flags: Flags, box: Box, emitted: seq<nat>)

  function Initial(): Sys {
    Sys(Begin, Top, Flags(Waiting, false, false, false, false, false, false, false), Box(map[], 0, None, [], []), [])
  }

  datatype MainOp =
    | ParentCancel
    | LookAtParent
    | BeginCas
    | PublishReady(fits: bool)
    | SeeReady
    | SeeCancel
    | SelectCas
    | Abort
    | ShutDown
    | PublishOther(kind: nat, fits: bool)
    | CloseMailbox
    | CancelPublisher
    | Finish

  datatype PubOp =
    | Take(kind: nat)
    | FindNothing
    | Wake
    | LeaveIdle
    | Load
    | Decide
    | AcceptSends
    | CheckStopped
    | Send
    | Reconsider
    | LeaveSending
    | Leave(emit: bool)

  datatype Op = Run(run: MainOp) | Publisher(publisher: PubOp)

  // ---- the mailbox

  predicate First(m: map<nat, nat>, kind: nat) { kind in m && forall k :: k in m ==> kind <= k }

  /** Replace on one slot; the weight may not fit. */
  function Publish(b: Box, kind: nat, fits: bool): Box {
    if !fits then b else b.(slots := b.slots[kind := b.issued], issued := b.issued + 1)
  }

  function TakeSlot(b: Box, kind: nat): Box
    requires kind in b.slots
  {
    b.(pending := Some(kind, b.slots[kind]), slots := b.slots - {kind}, taken := b.taken + [b.slots[kind]])
  }

  function ReleasePending(b: Box): Box {
    if b.pending.None? then b else b.(pending := None, released := b.released + [b.pending.lease])
  }

  function Emit(emitted: seq<nat>, p: Pending): seq<nat> {
    if p.None? then emitted else emitted + [p.kind]
  }

  // ---- Run, its caller and the other components

  predicate RunEnabled(s: Sys, op: MainOp) {
    match op
    case ParentCancel => true
    case LookAtParent => s.main.Begin?
    case BeginCas => s.main.BeginCancelled?
    case PublishReady(_) => s.main.ReadyDue?
    case SeeReady => (s.main.Selecting? || s.main.AwaitReady?) && s.flags.readyPublished
    case SeeCancel => s.main.Selecting? && s.flags.parentCancelled
    case SelectCas => s.main.SelectCancelled?
    case Abort => s.main.Aborting?
    case ShutDown => s.main.Up?
    case PublishOther(kind, _) => kind != READY
    case CloseMailbox => s.main.Down?
    case CancelPublisher => s.main.Closed?
    case Finish => s.main.Ending? && s.pub.Left?
  }

  /** The compare-and-swap from waiting to aborted. */
  function TryAbort(s: Sys, otherwise: Main): Sys {
    if s.flags.startup.Waiting? then s.(main := Aborting, flags := s.flags.(startup := Aborted))
    else s.(main := otherwise)
  }

  function RunStep(s: Sys, op: MainOp): Sys
    requires RunEnabled(s, op)
  {
    match op
    case ParentCancel => s.(flags := s.flags.(parentCancelled := true))
    case LookAtParent => s.(main := if s.flags.parentCancelled then BeginCancelled else ReadyDue)
    case BeginCas => TryAbort(s, ReadyDue)
    case PublishReady(fits) => s.(main := Selecting, box := Publish(s.box, READY, fits && !s.flags.stopped))
    case SeeReady => s.(main := Up, flags := s.flags.(gate := true))
    case SeeCancel => s.(main := SelectCancelled)
    case SelectCas => TryAbort(s, AwaitReady)
    case Abort => s.(main := Up, flags := s.flags.(gate := true))
    case ShutDown => s.(main := Down, flags := s.flags.(accepting := false))
    case PublishOther(kind, fits) => s.(box := Publish(s.box, kind, fits && !s.flags.stopped))
    case CloseMailbox => s.(main := Closed, flags := s.flags.(stopped := true))
    case CancelPublisher => s.(main := Ending, flags := s.flags.(publisherCancelled := true))
    case Finish => s.(main := Finished, flags := s.flags.(accepting := false))
  }

  // ---- the publisher

  predicate PublisherEnabled(s: Sys, op: PubOp) {
    match op
    case Take(kind) => s.pub.Top? && s.box.pending.None? && First(s.box.slots, kind)
    case FindNothing => s.pub.Top? && s.box.pending.None? && s.box.slots == map[]
    case Wake => s.pub.FoundNothing?
    case LeaveIdle => s.pub.FoundNothing? && (s.flags.stopped || s.flags.publisherCancelled)
    case Load => s.pub.Top? && s.box.pending.Some?
    case Decide => s.pub.Loaded? && s.box.pending.Some?
    case AcceptSends => s.pub.Won?
    case CheckStopped => s.pub.Cleared?
    case Send => s.pub.Sending? && s.box.pending.Some?
    case Reconsider => s.pub.Sending?
    case LeaveSending => s.pub.Sending? && s.flags.publisherCancelled
    case Leave(_) => s.pub.Leaving?
  }

  function Drop(s: Sys): Sys { s.(pub := Top, box := ReleasePending(s.box)) }

  /** Ready commits the start by compare-and-swap; others pass a committed one only. */
  function Judge(s: Sys): Sys
    requires s.pub.Loaded? && s.box.pending.Some?
  {
    if s.box.pending.kind == READY && s.pub.seen.Waiting? then
      if s.flags.startup.Waiting? then s.(pub := Won, flags := s.flags.(startup := Committed)) else Drop(s)
    else if !s.pub.seen.Committed? then Drop(s)
    else s.(pub := Cleared)
  }

  function PublisherStep(s: Sys, op: PubOp): Sys
    requires PublisherEnabled(s, op)
  {
    match op
    case Take(kind) => s.(box := TakeSlot(s.box, kind))
    case FindNothing => s.(pub := FoundNothing)
    case Wake => s.(pub := Top)
    case LeaveIdle => s.(pub := Leaving)
    case Load => s.(pub := Loaded(s.flags.startup))
    case Decide => Judge(s)
    case AcceptSends => s.(pub := Cleared, flags := s.flags.(accepting := true, everOpen := true))
    case CheckStopped => s.(pub := if s.flags.stopped then Leaving else Sending)
    case Send =>
      s.(pub := Top, emitted := Emit(s.emitted, s.box.pending), box := ReleasePending(s.box),
         flags := s.flags.(readyPublished := s.flags.readyPublished || s.box.pending.kind == READY))
    case Reconsider => s.(pub := Top)
    case LeaveSending => s.(pub := Leaving)
    case Leave(emit) =>
      s.(pub := Left, emitted := if emit then Emit(s.emitted, s.box.pending) else s.emitted,
         box := ReleasePending(s.box).(slots := map[]))
  }

  predicate Enabled(s: Sys, op: Op) {
    match op
    case Run(o) => RunEnabled(s, o)
    case Publisher(o) => PublisherEnabled(s, o)
  }

  function Step(s: Sys, op: Op): Sys
    requires Enabled(s, op)
  {
    match op
    case Run(o) => RunStep(s, o)
    case Publisher(o) => PublisherStep(s, o)
  }

  // ---- the invariant

  /** Nothing reaches the outside before the publisher won the race. */
  predicate Silent(s: Sys) {
    !s.flags.startup.Committed? ==>
      && s.emitted == [] && !s.flags.everOpen && !s.flags.readyPublished
      && (s.pub.Loaded? ==> !s.pub.seen.Committed?)
      && !s.pub.PastTheRace()
      && (s.pub.Gone() ==> s.box.pending.None?)
  }

  /** Once it won it holds Ready until Ready is out, and sends are open by then. */
  predicate ReadyFirst(s: Sys) {
    && (s.flags.startup.Committed? && s.emitted == [] && !s.pub.Left? ==> s.box.pending.Some? && s.box.pending.kind == READY)
    && (s.flags.startup.Committed? && s.emitted == [] ==> !s.pub.FoundNothing? && (s.pub.Loaded? ==> s.pub.seen.Committed?))
    && (s.flags.startup.Committed? && !s.pub.Won? ==> s.flags.everOpen)
    && (s.pub.Won? ==> s.emitted == [])
    && (s.pub.Loaded? ==> s.pub.seen == s.flags.startup || (s.pub.seen.Waiting? && s.flags.startup.Aborted?))
    && (s.emitted != [] ==> s.emitted[0] == READY)
    && (s.flags.readyPublished ==> s.emitted != [])
  }

  predicate PendingWhere(s: Sys) {
    && (s.pub.Loaded? || s.pub.PastTheRace() ==> s.box.pending.Some?)
    && (s.pub.FoundNothing? || s.pub.Left? ==> s.box.pending.None?)
    && (s.pub.Leaving? ==> s.flags.stopped || s.flags.publisherCancelled)
  }

  /** The gate opens on a decided start; after shutdown begins sends stay closed, and
      before that they are open once the publisher has won and moved on. */
  predicate Gated(s: Sys) {
    && (if s.main.Undecided() then !s.flags.startup.Aborted? else !s.flags.startup.Waiting?)
    && (s.main.Aborting? ==> s.flags.startup.Aborted?)
    && (s.main.AwaitReady? ==> s.flags.startup.Committed?)
    && (s.main.Started() ==> s.flags.startup.Aborted? || s.flags.readyPublished)
    && (s.flags.gate <==> s.main.Started())
    && (s.main.Shutting() ==> !s.flags.accepting)
    && (s.flags.accepting ==> s.flags.everOpen)
    && (s.flags.startup.Committed? && !s.pub.Won? && !s.main.Shutting() ==> s.flags.accepting)
  }

  /** Every lease the publisher took was released once or is the pending one. */
  predicate Balanced(b: Box) {
    multiset(b.taken) == multiset(b.released) + if b.pending.Some? then multiset{b.pending.lease} else multiset{}
  }

  /** Slots hold leases of their own, none of which was taken before. */
  predicate Fresh(b: Box) {
    && (forall i :: 0 <= i < |b.taken| ==> b.taken[i] < b.issued)
    && (forall i, j :: 0 <= i < j < |b.taken| ==> b.taken[i] != b.taken[j])
    && (forall k :: k in b.slots ==> b.slots[k] < b.issued && b.slots[k] !in b.taken)
    && (forall k, l :: k in b.slots && l in b.slots && k != l ==> b.slots[k] != b.slots[l])
  }

  /** Before Run publishes Ready the publisher has nothing to win with. */
  predicate NoReadyYet(s: Sys) {
    s.main.Begin? || s.main.BeginCancelled? || s.main.ReadyDue? ==>
      s.flags.startup.Waiting? && READY !in s.box.slots && (s.box.pending.Some? ==> s.box.pending.kind != READY)
  }

  /** Run ends after it stopped the mailbox, cancelled the publisher and saw it leave. */
  predicate EndsInOrder(s: Sys) {
    && (s.main.Over() ==> s.flags.stopped)
    && (s.main.Ending? || s.main.Finished? ==> s.flags.publisherCancelled)
    && (s.main.Finished? ==> s.pub.Left?)
  }

  predicate Control(s: Sys) { Silent(s) && ReadyFirst(s) && PendingWhere(s) && Gated(s) && NoReadyYet(s) && EndsInOrder(s) }

  predicate Inv(s: Sys) { Control(s) && BoxOk(s.box) }

  lemma RunKeepsControl(s: Sys, op: MainOp)
    requires Control(s) && RunEnabled(s, op)
    ensures Control(RunStep(s, op))
  {
  }

  lemma PublisherKeepsControl(s: Sys, op: PubOp)
    requires Control(s) && PublisherEnabled(s, op)
    ensures Control(PublisherStep(s, op))
  {
  }

  predicate BoxOk(b: Box) { Balanced(b) && Fresh(b) }

  lemma PublishKeepsBox(b: Box, kind: nat, fits: bool)
    requires BoxOk(b)
    ensures BoxOk(Publish(b, kind, fits))
  {
  }

  lemma TakeKeepsBox(b: Box, kind: nat)
    requires BoxOk(b) && kind in b.slots && b.pending.None?
    ensures BoxOk(TakeSlot(b, kind))
  {
  }

  lemma ReleaseKeepsBox(b: Box)
    requires BoxOk(b)
    ensures BoxOk(ReleasePending(b)) && ReleasePending(b).pending.None?
  {
  }

  /** Every step of either side keeps the invariant. */
  lemma StepKeepsInv(s: Sys, op: Op)
    requires Inv(s) && Enabled(s, op)
    ensures Inv(Step(s, op))
  {
    match op
    case Run(o) =>
      RunKeepsControl(s, o);
      if o.PublishReady? { PublishKeepsBox(s.box, READY, o.fits && !s.flags.stopped); }
      if o.PublishOther? { PublishKeepsBox(s.box, o.kind, o.fits && !s.flags.stopped); }
    case Publisher(o) =>
      PublisherKeepsControl(s, o);
      if o.Take? { TakeKeepsBox(s.box, o.kind); }
      ReleaseKeepsBox(s.box);
  }

  // ---- runs

  ghost predicate IsRun(states: seq<Sys>, ops: seq<Op>) {
    && |states| == |ops| + 1 && states[0] == Initial()
    && forall i :: 0 <= i < |ops| ==> Enabled(states[i], ops[i]) && states[i+1] == Step(states[i], ops[i])
  }

  lemma {:induction false} RunKeepsInv(states: seq<Sys>, ops: seq<Op>)
    requires IsRun(states, ops)
    ensures Inv(states[|ops|])
    decreases |ops|
  {
    if ops != [] {
      var n := |ops| - 1;
      RunKeepsInv(states[..|states|-1], ops[..n]);
      StepKeepsInv(states[n], ops[n]);
    }
  }

  lemma RunKeepsDecision(s: Sys, op: MainOp)
    requires RunEnabled(s, op) && !s.flags.startup.Waiting?
    ensures RunStep(s, op).flags.startup == s.flags.startup
  {
    if op.BeginCas? || op.SelectCas? {
      assert TryAbort(s, ReadyDue).flags == s.flags && TryAbort(s, AwaitReady).flags == s.flags;
    } else {
      match op { case PublishReady(_) => case PublishOther(_, _) => case _ => }
    }
  }

  lemma PublisherKeepsDecision(s: Sys, op: PubOp)
    requires PublisherEnabled(s, op) && !s.flags.startup.Waiting?
    ensures PublisherStep(s, op).flags.startup == s.flags.startup
  {
  }

  lemma StepKeepsDecision(s: Sys, op: Op)
    requires Enabled(s, op) && !s.flags.startup.Waiting?
    ensures Step(s, op).flags.startup == s.flags.startup
  {
    match op
    case Run(o) => RunKeepsDecision(s, o);
    case Publisher(o) => PublisherKeepsDecision(s, o);
  }

  /** Commit and abort exclude each other for good: whoever wins the race stays. */
  lemma {:induction false} DecidedOnce(states: seq<Sys>, ops: seq<Op>, i: nat)
    requires IsRun(states, ops) && i <= |ops| && !states[i].flags.startup.Waiting?
    ensures states[|ops|].flags.startup == states[i].flags.startup
    decreases |ops|
  {
    if i < |ops| {
      var n := |ops| - 1;
      DecidedOnce(states[..n+1], ops[..n], i);
      StepKeepsDecision(states[n], ops[n]);
    }
  }

  /** An aborted start emits no update and never accepts a send, now or before. */
  lemma AbortedIsSilent(states: seq<Sys>, ops: seq<Op>)
    requires IsRun(states, ops)
    ensures var s := states[|ops|];
      s.flags.startup.Aborted? ==> s.emitted == [] && !s.flags.everOpen && !s.flags.accepting
  {
    RunKeepsInv(states, ops);
  }

  /** Whatever is emitted, the start was committed and Ready came first. */
  lemma ReadyComesFirst(states: seq<Sys>, ops: seq<Op>)
    requires IsRun(states, ops)
    ensures var s := states[|ops|];
      s.emitted != [] ==> s.flags.startup.Committed? && s.emitted[0] == READY && s.flags.everOpen
  {
    RunKeepsInv(states, ops);
  }

  /** The step that emits the first update finds sends open: a request made upon seeing
      it is not refused for being early. */
  lemma OpenBeforeReady(states: seq<Sys>, ops: seq<Op>, op: Op)
    requires IsRun(states, ops) && Enabled(states[|ops|], op)
    ensures var s := states[|ops|];
      s.emitted == [] && Step(s, op).emitted != [] ==> s.flags.accepting && Step(s, op).flags.accepting && Step(s, op).emitted == [READY]
  {
    RunKeepsInv(states, ops);
  }

  /** Ready commits a start that is still undecided. Once the start is committed no update
      the publisher took is dropped: it stays with the publisher until it is emitted, alone
      and once, or the publisher leaves because the mailbox stopped or its context ended. */
  lemma NothingIsDropped(states: seq<Sys>, ops: seq<Op>, op: Op)
    requires IsRun(states, ops) && Enabled(states[|ops|], op)
    ensures var s := states[|ops|]; var t := Step(s, op);
      && (op == Publisher(Decide) && s.box.pending.kind == READY && s.flags.startup.Waiting? ==> t.flags.startup.Committed?)
      && (s.flags.startup.Committed? && s.box.pending.Some? && t.box.pending != s.box.pending ==>
            || t.emitted == s.emitted + [s.box.pending.kind]
            || (op == Publisher(Leave(false)) && (s.flags.stopped || s.flags.publisherCancelled)))
      && (t.emitted != s.emitted ==>
            s.box.pending.Some? && t.emitted == s.emitted + [s.box.pending.kind] && t.box.pending.None?)
  {
    RunKeepsInv(states, ops);
    hide IsRun, BoxOk;
  }

  /** A published update that fits waits in the slot of its kind, where only a newer one of
      the kind replaces it, until the publisher takes it, lowest kind first, or leaves. */
  lemma PublishedWaits(s: Sys, op: Op, kind: nat)
    requires Inv(s) && Enabled(s, op)
    ensures var t := Step(s, op); var fits := op.Run? && !s.flags.stopped &&
        ((op.run.PublishReady? && op.run.fits && kind == READY) || (op.run.PublishOther? && op.run.fits && op.run.kind == kind));
      && (fits ==> kind in t.box.slots && t.box.slots[kind] == s.box.issued && t.box.issued == s.box.issued + 1)
      && (!fits && kind in s.box.slots && !t.pub.Left? ==>
            || (kind in t.box.slots && t.box.slots[kind] == s.box.slots[kind])
            || (s.box.pending.None? && t.box.pending == Some(kind, s.box.slots[kind]) && forall k :: k in s.box.slots ==> kind <= k))
      && (kind in t.box.slots ==> fits || kind in s.box.slots)
  {
    hide Control, BoxOk;
  }

  /** Components start only after the race is decided; once Run has begun to shut
      down, the publisher can no longer reopen sends. */
  lemma GateAndShutdown(states: seq<Sys>, ops: seq<Op>)
    requires IsRun(states, ops)
    ensures var s := states[|ops|];
      && (s.flags.gate ==> s.flags.startup.Aborted? || (s.flags.startup.Committed? && s.emitted != []))
      && (s.main.Shutting() ==> !s.flags.accepting)
  {
    RunKeepsInv(states, ops);
  }

  /** The caller was gone before Run looked, or the start was aborted since. */
  predicate LostCause(s: Sys) {
    s.flags.parentCancelled && (s.main.Begin? || s.main.BeginCancelled? || s.flags.startup.Aborted?)
  }

  lemma LostCauseStays(s: Sys, op: Op)
    requires Inv(s) && Enabled(s, op) && LostCause(s)
    ensures LostCause(Step(s, op))
  {
    hide BoxOk, Silent, ReadyFirst, Gated, EndsInOrder;
    if s.flags.startup.Aborted? {
      StepKeepsDecision(s, op);
      hide NoReadyYet, PendingWhere;
      assert Step(s, op).flags.parentCancelled;
    } else if op.Publisher? {
      assert Step(s, op).main == s.main;
    }
  }

  /** A caller who cancels before Run first looks has an aborted start for sure: the
      components start on it, and no update is emitted. */
  lemma {:induction false} CancelledEarlyAborts(states: seq<Sys>, ops: seq<Op>, i: nat)
    requires IsRun(states, ops) && i <= |ops| && states[i].main.Begin? && states[i].flags.parentCancelled
    ensures var s := states[|ops|]; LostCause(s) && s.emitted == [] && (s.flags.gate ==> s.flags.startup.Aborted?)
    decreases |ops|
  {
    RunKeepsInv(states, ops);
    if i < |ops| {
      var n := |ops| - 1;
      RunKeepsInv(states[..n+1], ops[..n]);
      CancelledEarlyAborts(states[..n+1], ops[..n], i);
      LostCauseStays(states[n], ops[n]);
    }
    hide BoxOk, ReadyFirst, PendingWhere, EndsInOrder;
  }

  /** When Run returns the publisher has left, the mailbox is stopped and sends are closed. */
  lemma FinishedMeansLeft(states: seq<Sys>, ops: seq<Op>)
    requires IsRun(states, ops)
    ensures var s := states[|ops|]; s.main.Finished? ==>
      s.pub.Left? && s.flags.stopped && s.flags.publisherCancelled && !s.flags.accepting && s.flags.gate
      && multiset(s.box.released) == multiset(s.box.taken)
  {
    RunKeepsInv(states, ops);
  }

  /** Each lease the publisher took is released at most once, and when it has left,
      exactly once. */
  lemma LeasesReleasedOnce(states: seq<Sys>, ops: seq<Op>, k: nat)
    requires IsRun(states, ops) && k < |states[|ops|].box.taken|
    ensures var s := states[|ops|];
      && multiset(s.box.released)[s.box.taken[k]] <= 1
      && (s.pub.Left? ==> multiset(s.box.released) == multiset(s.box.taken))
      && (s.pub.Left? ==> multiset(s.box.released)[s.box.taken[k]] == 1)
  {
    RunKeepsInv(states, ops);
    DistinctOnce(states[|ops|].box.taken, k);
  }

  lemma DistinctOnce(xs: seq<nat>, k: nat)
    requires k < |xs| && forall i, j :: 0 <= i < j < |xs| ==> xs[i] != xs[j]
    ensures multiset(xs)[xs[k]] == 1
  {
    assert xs == xs[..k] + [xs[k]] + xs[k+1..];
    assert xs[k] !in xs[..k] && xs[k] !in xs[k+1..];
  }
}
