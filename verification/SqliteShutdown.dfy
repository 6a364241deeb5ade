/** Submitting to the SQLite writer and shutting it down, with submitters, the
    closer and the writer goroutine interleaved in any order. */
module SqliteShutdown {
  import opened SqliteWriter

  /** Where a call of submitResult is. The first three hold the enqueue wait group. */
  datatype Phase = Enqueuing | Admitted | Refused | Waiting | Answered | Failed

  datatype Submitter = Submitter(writes: nat, phase: Phase)

  datatype Pc = Looping | Draining | Done

  /** A request carries the index of its submitter; admitted lists the requests in
      the order they entered the channel. */
  datatype Sys = Sys(accepting: bool, stop: bool, pc: Pc, submitters: seq<Submitter>,
                     queue: seq<Request>, log: Log, admitted: seq<Request>)

  datatype Op =
    | Begin(writes: nat)
    | Enqueue(who: nat)
    | GiveUp(who: nat)
    | EnqueueDone(who: nat)
    | TakeAck(who: nat)
    | EndAccepting
    | CloseStop
    | ReceiveOne
    | Flush
    | SeeStop
    | Finish

  function Initial(): Sys { Sys(true, false, Looping, [], [], Log([], []), []) }

  predicate In(s: Sys, i: nat, phase: Phase) { i < |s.submitters| && s.submitters[i].phase == phase }

  /** The wait group counts the calls between beginEnqueue and Done. */
  predicate HoldsGroup(p: Phase) { p.Enqueuing? || p.Admitted? || p.Refused? }

  predicate GroupEmpty(s: Sys) { forall i :: 0 <= i < |s.submitters| ==> !HoldsGroup(s.submitters[i].phase) }

  predicate Enabled(s: Sys, op: Op) {
    match op
    case Begin(_) => true
    case Enqueue(i) => In(s, i, Enqueuing) && |s.queue| < QUEUE_CAPACITY
    case GiveUp(i) => In(s, i, Enqueuing)
    case EnqueueDone(i) => In(s, i, Admitted) || In(s, i, Refused)
    case TakeAck(i) => In(s, i, Waiting) && AckCount(s, i) > 0
    case EndAccepting => s.accepting
    case CloseStop => !s.accepting && !s.stop && GroupEmpty(s)
    case ReceiveOne => !s.pc.Done? && s.queue != []
    case Flush => !s.pc.Done?
    case SeeStop => s.pc.Looping? && s.stop
    case Finish => s.pc.Draining? && s.queue == []
  }

  function To(s: Sys, i: nat, phase: Phase): seq<Submitter>
    requires i < |s.submitters|
  {
    s.submitters[i := s.submitters[i].(phase := phase)]
  }

  function Step(s: Sys, op: Op): Sys
    requires Enabled(s, op)
  {
    match op
    case Begin(w) =>
      s.(submitters := s.submitters + [Submitter(w, if 1 <= w <= MAX_BATCH_WRITES && s.accepting then Enqueuing else Failed)])
    case Enqueue(i) =>
      var r := Request(i, s.submitters[i].writes);
      s.(submitters := To(s, i, Admitted), queue := s.queue + [r], admitted := s.admitted + [r])
    case GiveUp(i) => s.(submitters := To(s, i, Refused))
    case EnqueueDone(i) => s.(submitters := To(s, i, if In(s, i, Admitted) then Waiting else Failed))
    case TakeAck(i) => s.(submitters := To(s, i, Answered))
    case EndAccepting => s.(accepting := false)
    case CloseStop => s.(stop := true)
    case ReceiveOne => s.(queue := s.queue[1..], log := Receive(s.log, s.queue[0]))
    case Flush => s.(log := Close(s.log))
    case SeeStop => s.(pc := Draining)
    case Finish => s.(log := Close(s.log), pc := Done)
  }

  /** Acknowledgements put in a submitter's mailbox: one per request of its in a
      closed transaction. */
  function AckCount(s: Sys, i: nat): nat { Carried(Flat(s.log.closed), i) }

  function Carried(rs: seq<Request>, i: nat): nat {
    if rs == [] then 0 else Carried(rs[..|rs|-1], i) + if rs[|rs|-1].id == i then 1 else 0
  }

  predicate Handed(p: Phase) { p.Admitted? || p.Waiting? || p.Answered? }

  /** Admitted requests are the received ones followed by the queued ones, each
      from a submitter of its own. */
  predicate Ordered(s: Sys) {
    && s.admitted == Received(s.log) + s.queue
    && AllFit(s.admitted)
    && forall i, j :: 0 <= i < j < |s.admitted| ==> s.admitted[i].id != s.admitted[j].id
  }

  /** The admitted requests are those of the submitters past the channel. */
  predicate Owners(s: Sys) {
    && (forall k :: 0 <= k < |s.admitted| ==> s.admitted[k].id < |s.submitters| && Handed(s.submitters[s.admitted[k].id].phase))
    && (forall i :: 0 <= i < |s.submitters| && Handed(s.submitters[i].phase) ==> Request(i, s.submitters[i].writes) in s.admitted)
    && (forall i :: 0 <= i < |s.submitters| && !s.submitters[i].phase.Failed? ==> 1 <= s.submitters[i].writes <= MAX_BATCH_WRITES)
  }

  /** Stop closes only after the last enqueuer left, and the writer ends empty. */
  predicate Ended(s: Sys) {
    && (s.stop ==> !s.accepting && GroupEmpty(s))
    && (!s.pc.Looping? ==> s.stop)
    && (s.pc.Done? ==> s.queue == [] && s.log.open == [])
  }

  predicate Inv(s: Sys) { Sound(s.log) && Ordered(s) && Owners(s) && Ended(s) }

  lemma EnqueueKeeps(s: Sys, i: nat)
    requires Inv(s) && Enabled(s, Enqueue(i))
    ensures Inv(Step(s, Enqueue(i)))
  {
    var t := Step(s, Enqueue(i));
    assert forall k :: 0 <= k < |s.admitted| ==> s.admitted[k].id != i;
    assert t.admitted[|s.admitted|] == Request(i, s.submitters[i].writes);
    forall j | 0 <= j < |t.submitters| && Handed(t.submitters[j].phase)
      ensures Request(j, t.submitters[j].writes) in t.admitted
    {
      if j != i { assert Request(j, s.submitters[j].writes) in s.admitted; }
    }
    assert !s.stop;
  }

  lemma PhaseKeeps(s: Sys, op: Op)
    requires Inv(s) && Enabled(s, op) && (op.GiveUp? || op.EnqueueDone? || op.TakeAck?)
    ensures Inv(Step(s, op))
  {
    var t := Step(s, op);
    forall j | 0 <= j < |t.submitters| && Handed(t.submitters[j].phase)
      ensures Request(j, t.submitters[j].writes) in t.admitted
    {
      assert Handed(s.submitters[j].phase);
    }
    if op.GiveUp? { assert !s.stop; }
    if op.EnqueueDone? { assert !s.stop; }
  }

  lemma ReceiveOrder(l: Log, queue: seq<Request>)
    requires Sound(l) && AllFit(queue) && queue != []
    ensures Sound(Receive(l, queue[0])) && Received(Receive(l, queue[0])) + queue[1..] == Received(l) + queue
  {
    ReceiveKeeps(l, queue[0]);
    assert queue == [queue[0]] + queue[1..];
  }

  lemma ReceiveOneKeeps(s: Sys)
    requires Inv(s) && Enabled(s, ReceiveOne)
    ensures Inv(Step(s, ReceiveOne))
  {
    QueuedFit(s.admitted, Received(s.log), s.queue);
    ReceiveOrder(s.log, s.queue);
    var t := Step(s, ReceiveOne);
    assert t.admitted == s.admitted && t.submitters == s.submitters;
    assert Ordered(t) && Owners(t);
  }

  lemma QueuedFit(all: seq<Request>, received: seq<Request>, queue: seq<Request>)
    requires all == received + queue && AllFit(all)
    ensures AllFit(queue)
  {
    forall k | 0 <= k < |queue| ensures queue[k].Fits() {
      assert queue[k] == all[|received| + k];
    }
  }

  lemma CloseKeepsInv(s: Sys, op: Op)
    requires Inv(s) && Enabled(s, op) && (op.Flush? || op.Finish?)
    ensures Inv(Step(s, op))
  {
    CloseKeeps(s.log);
  }

  /** Every step of every goroutine keeps the invariant. */
  lemma StepKeepsInv(s: Sys, op: Op)
    requires Inv(s) && Enabled(s, op)
    ensures Inv(Step(s, op))
  {
    match op
    case Begin(w) =>
      forall j | 0 <= j < |Step(s, op).submitters| && Handed(Step(s, op).submitters[j].phase)
        ensures Request(j, Step(s, op).submitters[j].writes) in s.admitted
      {
        assert j < |s.submitters|;
      }
    case Enqueue(i) => EnqueueKeeps(s, i);
    case GiveUp(_) => PhaseKeeps(s, op);
    case EnqueueDone(_) => PhaseKeeps(s, op);
    case TakeAck(_) => PhaseKeeps(s, op);
    case EndAccepting =>
    case CloseStop =>
    case SeeStop =>
    case ReceiveOne => ReceiveOneKeeps(s);
    case _ => CloseKeepsInv(s, op);
  }

  // ---- runs

  ghost predicate IsRun(states: seq<Sys>, ops: seq<Op>) {
    |states| == |ops| + 1 && forall i :: 0 <= i < |ops| ==> Enabled(states[i], ops[i]) && states[i+1] == Step(states[i], ops[i])
  }

  lemma {:induction false} RunKeepsInv(states: seq<Sys>, ops: seq<Op>)
    requires IsRun(states, ops) && Inv(states[0])
    ensures Inv(states[|ops|])
    decreases |ops|
  {
    if ops != [] {
      var n := |ops| - 1;
      RunKeepsInv(states[..|states|-1], ops[..n]);
      StepKeepsInv(states[n], ops[n]);
    }
  }

  /** Distinct submitters: a batch prefix carries each of them at most once. */
  lemma {:induction false} CarriedOnce(rs: seq<Request>, i: nat)
    requires forall j, k :: 0 <= j < k < |rs| ==> rs[j].id != rs[k].id
    ensures Carried(rs, i) == if exists k :: 0 <= k < |rs| && rs[k].id == i then 1 else 0
  {
    if rs != [] {
      var rest := rs[..|rs|-1];
      CarriedOnce(rest, i);
      if k :| 0 <= k < |rs| && rs[k].id == i {
        if k < |rest| { assert rest[k].id == i; }
      }
      assert forall k :: 0 <= k < |rest| ==> rest[k] == rs[k];
    }
  }

  /** Whatever happened before, once the writer is done every admitted request has
      been acknowledged exactly once and no other request ever was. */
  lemma ShutdownDrains(states: seq<Sys>, ops: seq<Op>, i: nat)
    requires IsRun(states, ops) && states[0] == Initial() && i < |states[|ops|].submitters|
    ensures var s := states[|ops|]; s.pc.Done? ==>
              && Flat(s.log.closed) == s.admitted
              && AckCount(s, i) == (if Handed(s.submitters[i].phase) then 1 else 0)
              && !HoldsGroup(s.submitters[i].phase)
  {
    RunKeepsInv(states, ops);
    if states[|ops|].pc.Done? { DoneMeans(states[|ops|], i); }
  }

  lemma DoneMeans(s: Sys, i: nat)
    requires Inv(s) && s.pc.Done? && i < |s.submitters|
    ensures Flat(s.log.closed) == s.admitted && !HoldsGroup(s.submitters[i].phase)
    ensures AckCount(s, i) == (if Handed(s.submitters[i].phase) then 1 else 0)
  {
    assert Received(s.log) == Flat(s.log.closed);
    CarriedOnce(s.admitted, i);
    if Handed(s.submitters[i].phase) {
      var k :| 0 <= k < |s.admitted| && s.admitted[k] == Request(i, s.submitters[i].writes);
    }
  }

  lemma AcksOfPrefix(s: Sys, i: nat)
    requires Ordered(s)
    ensures AckCount(s, i) <= 1
  {
    var closed := Flat(s.log.closed);
    assert forall k :: 0 <= k < |closed| ==> closed[k] == s.admitted[k];
    CarriedOnce(closed, i);
  }

  /** A mailbox of capacity one never fills twice, so answering never blocks. */
  lemma AtMostOneAck(states: seq<Sys>, ops: seq<Op>, i: nat)
    requires IsRun(states, ops) && states[0] == Initial()
    ensures AckCount(states[|ops|], i) <= 1
  {
    RunKeepsInv(states, ops);
    AcksOfPrefix(states[|ops|], i);
  }

  /** A call is let in exactly while requests are accepted and if its size is legal. */
  lemma BeginLetsIn(s: Sys, writes: nat)
    ensures var t := Step(s, Begin(writes));
      && |t.submitters| == |s.submitters| + 1 && t.submitters[..|s.submitters|] == s.submitters
      && t.submitters[|s.submitters|] == Submitter(writes, if s.accepting && 1 <= writes <= 50 then Enqueuing else Failed)
      && t.queue == s.queue && t.log == s.log
  {
  }

  /** A flush answers every request received so far, each once; a waiting submitter among
      them can take its answer. */
  lemma FlushAnswers(states: seq<Sys>, ops: seq<Op>, k: nat)
    requires IsRun(states, ops) && states[0] == Initial() && Enabled(states[|ops|], Flush)
    requires k < |Received(states[|ops|].log)|
    ensures var s := states[|ops|]; var t := Step(s, Flush); var i := Received(s.log)[k].id;
      && t.log.open == [] && AckCount(t, i) == 1
      && (In(s, i, Waiting) ==> Enabled(t, TakeAck(i)))
  {
    RunKeepsInv(states, ops);
    hide IsRun, Inv;
    Flushed(states[|ops|], k);
  }

  lemma Flushed(s: Sys, k: nat)
    requires Inv(s) && Enabled(s, Flush) && k < |Received(s.log)|
    ensures var t := Step(s, Flush); var i := Received(s.log)[k].id;
      t.log.open == [] && AckCount(t, i) == 1 && (In(s, i, Waiting) ==> Enabled(t, TakeAck(i)))
  {
    CloseKeeps(s.log);
    hide Owners, Ended, Sound, Close;
    var closed := Flat(Close(s.log).closed);
    assert closed == Received(s.log);
    assert forall j :: 0 <= j < |closed| ==> closed[j] == s.admitted[j];
    CarriedOnce(closed, closed[k].id);
  }

  /** After the stop channel closes nothing is ever admitted again. */
  lemma {:induction false} NothingAfterStop(states: seq<Sys>, ops: seq<Op>, from: nat)
    requires IsRun(states, ops) && states[0] == Initial() && from <= |ops| && states[from].stop
    ensures states[|ops|].stop && states[|ops|].admitted == states[from].admitted
    decreases |ops|
  {
    if from < |ops| {
      var n := |ops| - 1;
      NothingAfterStop(states[..|states|-1], ops[..n], from);
      RunKeepsInv(states[..|states|-1], ops[..n]);
      hide Inv, Step, Enabled;
      StopStays(states[n], ops[n]);
    }
  }

  lemma StopStays(s: Sys, op: Op)
    requires Inv(s) && Enabled(s, op) && s.stop
    ensures Step(s, op).stop && Step(s, op).admitted == s.admitted
  {
    hide Owners, Ordered, Sound;
  }
}
