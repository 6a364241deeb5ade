/** Sending text: queue capacity is reserved before the transport is asked, so a
    successful transport can always be admitted. */
module Send {
  import opened QueueMachine
  import opened QueueErrors

  const MAX_INT: int := 0x7FFF_FFFF_FFFF_FFFF
  const MAX_EVENT_BYTES: int := 32 * 1024
  const ENVELOPE_BYTES: int := 256

  function Sum(parts: seq<int>): int {
    if parts == [] then 0 else Sum(parts[..|parts|-1]) + parts[|parts|-1]
  }

  predicate NonNegative(parts: seq<int>) {
    forall i :: 0 <= i < |parts| ==> parts[i] >= 0
  }

  lemma {:induction false} SumGrows(parts: seq<int>, n: nat)
    requires NonNegative(parts) && n <= |parts|
    ensures 0 <= Sum(parts[..n]) <= Sum(parts)
    decreases |parts|
  {
    if n < |parts| {
      var p := parts[..|parts|-1];
      assert p[..n] == parts[..n];
      SumGrows(p, n);
    } else {
      assert parts[..n] == parts;
      if parts != [] {
        SumGrows(parts[..|parts|-1], |parts| - 1);
        assert parts[..|parts|-1][..|parts|-1] == parts[..|parts|-1];
      }
    }
  }

  /** A sum of sizes in 64-bit integers that reports overflow and negative parts. */
  method CheckedByteSum(parts: seq<int>) returns (total: int, ok: bool)
    ensures ok <==> NonNegative(parts) && Sum(parts) <= MAX_INT
    ensures ok ==> total == Sum(parts)
  {
    total := 0;
    for i := 0 to |parts|
      invariant NonNegative(parts[..i]) && total == Sum(parts[..i]) && 0 <= total <= MAX_INT
    {
      assert parts[..i+1][..i] == parts[..i];
      if parts[i] < 0 || total > MAX_INT - parts[i] {
        if parts[i] >= 0 && NonNegative(parts) { SumGrows(parts, i + 1); }
        return 0, false;
      }
      total := total + parts[i];
    }
    assert parts[..|parts|] == parts;
    return total, true;
  }

  /** The charge of one event, or -1 when it exceeds the hard limit. */
  function EventBytes(messageBytes: int): (bytes: int)
    ensures bytes != -1 ==> 0 < bytes <= MAX_EVENT_BYTES
  {
    if 0 <= messageBytes <= MAX_EVENT_BYTES - ENVELOPE_BYTES then messageBytes + ENVELOPE_BYTES else -1
  }

  method NormalizedEventByteSize(messageBytes: int) returns (bytes: int)
    requires -MAX_INT <= messageBytes <= MAX_INT
    ensures bytes == EventBytes(messageBytes)
  {
    var total, ok := CheckedByteSum([ENVELOPE_BYTES, messageBytes]);
    assert [ENVELOPE_BYTES, messageBytes][..1] == [ENVELOPE_BYTES];
    assert Sum([ENVELOPE_BYTES, messageBytes]) == ENVELOPE_BYTES + messageBytes by {
      assert Sum([ENVELOPE_BYTES]) == ENVELOPE_BYTES;
    }
    if !ok || total > MAX_EVENT_BYTES {
      return -1;
    }
    return total;
  }

  datatype Kind = Busy | Cancelled | Closed | Malformed | Degraded | Broken

  /** What the transport answers: an event with the size of its message and whether
      it is the requested text, or an error. */
  datatype Answer<T> = Sent(event: T, messageBytes: int, matches: bool) | Refused(cancelled: bool)

  datatype Outcome = Admitted | Error(kind: Kind)

  /** The caller's side of one send: admission flag, request validity, send slot,
      and whether the context was cancelled before and after reserving. */
  datatype Call<T> = Call(accepting: bool, valid: bool, cancelledBefore: bool, slotFree: bool, cancelledAfter: bool,
                          answer: Answer<T>)

  /** before is the queue when the transport has answered; after is the queue when
      the send returns. */
  datatype SendRun<T> = SendRun(outcome: Outcome, before: Sys<T>, after: Sys<T>)

  /** Other goroutines may run any sections between the reservation and the
      transport's answer, but only the sender ends its own reservation. */
  ghost predicate Meanwhile<T>(s0: Sys<T>, others: seq<Op<T>>)
    requires Inv(s0)
  {
    StepKeepsInv(s0, Reserve(MAX_EVENT_BYTES));
    var s1 := Step(s0, Reserve(MAX_EVENT_BYTES)).0;
    Runnable(s1, others) && forall op :: op in others ==> Foreign(op, |s0.permits|)
  }

  ghost function SendText<T>(s0: Sys<T>, call: Call<T>, others: seq<Op<T>>): SendRun<T>
    requires Inv(s0) && Meanwhile(s0, others)
  {
    if !call.accepting then SendRun(Error(Closed), s0, s0)
    else if !call.valid then SendRun(Error(Malformed), s0, s0)
    else if call.cancelledBefore then SendRun(Error(Cancelled), s0, s0)
    else if !call.slotFree then SendRun(Error(Busy), s0, s0)
    else
      StepKeepsInv(s0, Reserve(MAX_EVENT_BYTES));
      var r := Step(s0, Reserve(MAX_EVENT_BYTES));
      if r.1.Failed? then
        SendRun(Error(if r.1.error == QueueFull then Busy else if r.1.error == QueueStopped then Closed else Broken), s0, s0)
      else
        var p := |s0.permits|;
        RunConserves(r.0, others);
        ForeignRunKeepsReservation(r.0, others, p);
        var mid := RunAll(r.0, others);
        ReservationReleases(mid, p);
        var abandoned := RunAll(mid, Abandon(p));
        if call.cancelledAfter then SendRun(Error(Cancelled), mid, abandoned)
        else match call.answer
          case Refused(cancelled) => SendRun(Error(if cancelled then Cancelled else Degraded), mid, abandoned)
          case Sent(event, messageBytes, matches) =>
            if EventBytes(messageBytes) == -1 || !matches then SendRun(Error(Malformed), mid, abandoned)
            else
              var c := Step(mid, Commit(p, event, EventBytes(messageBytes)));
              if c.1 == Done then SendRun(Admitted, mid, c.0) else SendRun(Error(Broken), mid, abandoned)
  }

  /** Calls that get as far as a reservation. */
  ghost predicate Reserves<T>(s0: Sys<T>, call: Call<T>)
    requires Inv(s0)
  {
    call.accepting && call.valid && !call.cancelledBefore && call.slotFree && Step(s0, Reserve(MAX_EVENT_BYTES)).1 == Done
  }

  /** A send is admitted exactly when it got its reservation and the transport
      delivered a valid matching event: the commit itself never fails. Then the
      event is in the queue once; otherwise entries, reservations and bytes are
      as if the send had not been. */
  lemma SendIsAllOrNothing<T>(s0: Sys<T>, call: Call<T>, others: seq<Op<T>>)
    requires Inv(s0) && Meanwhile(s0, others)
    ensures var run := SendText(s0, call, others);
            && (run.outcome == Admitted <==>
                Reserves(s0, call) && !call.cancelledAfter && call.answer.Sent? && call.answer.matches
                && EventBytes(call.answer.messageBytes) != -1)
            && (run.outcome == Admitted ==>
                && Values(run.after.items) == Values(run.before.items) + [call.answer.event]
                && run.after.reservations == run.before.reservations - 1
                && run.after.used == run.before.used - MAX_EVENT_BYTES + EventBytes(call.answer.messageBytes))
            && (run.outcome != Admitted ==>
                && run.after.items == run.before.items
                && (Reserves(s0, call) ==>
                    && run.after.reservations == run.before.reservations - 1
                    && run.after.used == run.before.used - MAX_EVENT_BYTES
                    && Owns(run.after, |s0.permits|, Gone))
                && (!Reserves(s0, call) ==> run.after == s0))
            && (s0.capacity >= MAX_EVENT_BYTES ==> run.outcome != Error(Broken))
  {
    hide Inv, Runnable, RunAll, Foreign;
    if Reserves(s0, call) {
      StepKeepsInv(s0, Reserve(MAX_EVENT_BYTES));
      var s1, p := Step(s0, Reserve(MAX_EVENT_BYTES)).0, |s0.permits|;
      RunConserves(s1, others);
      ForeignRunKeepsReservation(s1, others, p);
      var mid := RunAll(s1, others);
      ReservationReleases(mid, p);
      if call.answer.Sent? && EventBytes(call.answer.messageBytes) != -1 {
        CommitCannotFail(mid, p, call.answer.event, EventBytes(call.answer.messageBytes));
      }
    }
  }

  /** The queue has a slot for one more entry. */
  predicate SlotLeft<T>(s: Sys<T>) { |s.items| + s.reservations < s.slots }

  /** The queue has the bytes that one event may need at most. */
  predicate BytesLeft<T>(s: Sys<T>) { s.used + MAX_EVENT_BYTES <= s.capacity }

  /** The call passes every check before the queue is asked. */
  predicate Asks<T>(call: Call<T>) { call.accepting && call.valid && !call.cancelledBefore && call.slotFree }

  /** The transport is asked. */
  predicate Transported<T>(s0: Sys<T>, call: Call<T>) {
    Asks(call) && !s0.stopped && SlotLeft(s0) && BytesLeft(s0) && !call.cancelledAfter
  }

  /** Which error a send reports: each kind has exactly its own causes. */
  lemma SendReports<T>(s0: Sys<T>, call: Call<T>, others: seq<Op<T>>)
    requires Inv(s0) && Meanwhile(s0, others)
    ensures var o, tight := SendText(s0, call, others).outcome, s0.capacity < MAX_EVENT_BYTES;
      && (o == Error(Closed) <==> !call.accepting || (Asks(call) && s0.stopped))
      && (o == Error(Cancelled) <==>
            || (call.accepting && call.valid && call.cancelledBefore)
            || (Asks(call) && !s0.stopped && SlotLeft(s0) && BytesLeft(s0) && call.cancelledAfter)
            || (Transported(s0, call) && call.answer.Refused? && call.answer.cancelled))
      && (o == Error(Busy) <==>
            || (call.accepting && call.valid && !call.cancelledBefore && !call.slotFree)
            || (Asks(call) && !s0.stopped && (!SlotLeft(s0) || (!tight && !BytesLeft(s0)))))
      && (o == Error(Degraded) <==> Transported(s0, call) && call.answer.Refused? && !call.answer.cancelled)
      && (o == Error(Malformed) <==>
            || (call.accepting && !call.valid)
            || (Transported(s0, call) && call.answer.Sent?
                && !(call.answer.matches && 0 <= call.answer.messageBytes <= 32512)))
      && (o == Error(Broken) <==> Asks(call) && !s0.stopped && SlotLeft(s0) && tight)
  {
    SendIsAllOrNothing(s0, call, others);
    ReserveAnswers(s0);
    hide Inv, Runnable, RunAll, Foreign, Step;
  }

  lemma ReserveAnswers<T>(s: Sys<T>)
    requires Inv(s)
    ensures 0 <= s.used
    ensures Step(s, Reserve(MAX_EVENT_BYTES)).1 ==
      if s.stopped then Failed(QueueStopped)
      else if !SlotLeft(s) then Failed(QueueFull)
      else if s.capacity < MAX_EVENT_BYTES then Failed(InvalidWeight)
      else if !BytesLeft(s) then Failed(QueueFull) else Done
  {
    ChargedNonNegative(s.permits);
  }

  /** With nobody else running, a failed send leaves the queue as it was. */
  lemma FailedSendRestores<T>(s0: Sys<T>, call: Call<T>)
    requires Inv(s0) && Meanwhile(s0, []) && SendText(s0, call, []).outcome != Admitted
    ensures var after := SendText(s0, call, []).after;
            after.items == s0.items && after.reservations == s0.reservations && after.used == s0.used
  {
    SendIsAllOrNothing(s0, call, []);
  }
}
