/** The history transformer: it receives jobs from three channels into four slots,
    walks them in priority order and releases each of them once. */
module HistoryJobs {
  import opened HistorySource

  datatype Slot = Idle | Busy(job: Job)

  /** One record of one job, as it travels on the history queue. */
  datatype Record = Record(id: nat, index: nat)

  /** The records of one job, in the order they were put. */
  function Of(out: seq<Record>, id: nat): seq<Record> {
    if out == [] then [] else Of(out[..|out|-1], id) + if out[|out|-1].id == id then [out[|out|-1]] else []
  }

  function Span(id: nat, from: nat, n: nat): seq<Record> {
    seq(n, i requires 0 <= i < n => Record(id, from + i))
  }

  lemma {:induction false} OfSpan(out: seq<Record>, id: nat, from: nat, n: nat, other: nat)
    ensures Of(out + Span(id, from, n), other) == Of(out, other) + if other == id then Span(id, from, n) else []
  {
    var all := out + Span(id, from, n);
    if n == 0 {
      assert all == out;
    } else {
      OfSpan(out, id, from, n - 1, other);
      assert all[..|all|-1] == out + Span(id, from, n - 1);
      assert Span(id, from, n) == Span(id, from, n - 1) + [Record(id, from + n - 1)];
    }
  }

  lemma {:induction false} OfJoin(out: seq<Record>, more: seq<Record>, id: nat)
    ensures Of(out + more, id) == Of(out, id) + Of(more, id)
  {
    var all := out + more;
    if more == [] {
      assert all == out;
    } else {
      OfJoin(out, more[..|more|-1], id);
      assert all[..|all|-1] == out + more[..|more|-1];
    }
  }

  lemma SpansJoin(id: nat, from: nat, n: nat)
    ensures Span(id, 0, from) + Span(id, from, n) == Span(id, 0, from + n)
  {
  }

  // ---- slots

  /** Two slots for metadata, one on demand, one for bulk. */
  function Home(i: nat): nat { if i < 2 then 0 else i - 1 }

  ghost predicate Slotted(slots: seq<Slot>, id: nat) {
    exists i :: 0 <= i < |slots| && slots[i].Busy? && slots[i].job.id == id
  }

  ghost predicate SlotsOk(slots: seq<Slot>, held: set<nat>, cs: seq<Cursor>) {
    && |slots| == MAX_ACTIVE_JOBS
    && (forall i :: 0 <= i < |slots| && slots[i].Busy? ==>
          Category(slots[i].job.kind) == Home(i) && slots[i].job.id in held && Walks(cs, slots[i].job))
    && (forall i, j :: 0 <= i < j < |slots| && slots[i].Busy? && slots[j].Busy? ==> slots[i].job.id != slots[j].job.id)
    && (forall id :: id in held ==> Slotted(slots, id))
  }

  // ---- delivery

  function Sent(sent: map<nat, nat>, id: nat): nat { if id in sent then sent[id] else 0 }

  /** Each job's records on the queue are 0, 1, 2, ... without gap or repetition. */
  ghost predicate InOrder(out: seq<Record>, sent: map<nat, nat>) {
    forall id :: Of(out, id) == Span(id, 0, Sent(sent, id))
  }

  /** Every active cursor stands right behind the records already put. */
  ghost predicate InStep(s: State, sent: map<nat, nat>) {
    && (forall id :: id in sent ==> id in s.counts && sent[id] <= s.counts[id])
    && (forall i :: 0 <= i < |s.cursors| && s.cursors[i].Active? ==> s.cursors[i].index == Sent(sent, s.cursors[i].job.id))
  }

  ghost predicate Live(cs: seq<Cursor>, id: nat) {
    exists i :: 0 <= i < |cs| && cs[i].Active? && cs[i].job.id == id
  }

  ghost predicate Retired(s: State, id: nat) { id in s.ids && !Live(s.cursors, id) }

  lemma StaysLive(cs: seq<Cursor>, i: nat, c: Cursor, id: nat)
    requires i < |cs| && Live(cs, id)
    requires cs[i].Active? && cs[i].job.id == id ==> c.Active? && c.job.id == id
    ensures Live(cs[i := c], id)
  {
    var j :| 0 <= j < |cs| && cs[j].Active? && cs[j].job.id == id;
    assert cs[i := c][j].Active? && cs[i := c][j].job.id == id;
  }

  /** A received job is held or released, never both; a released one never returns, and
      one not released still has its cursor. */
  ghost predicate Once(s: State, received: set<nat>, released: set<nat>) {
    && received == released + s.held && released !! s.held
    && (forall id :: id in released ==> Retired(s, id))
    && (forall id :: id in s.ids && id !in released ==> Live(s.cursors, id))
  }

  /** All records of a job are on the queue: 0 to its count, in order, each once. */
  ghost predicate Complete(out: seq<Record>, counts: map<nat, nat>, id: nat) {
    id in counts && Of(out, id) == Span(id, 0, counts[id])
  }

  /** A completed job was released, and all its records are on the queue. */
  ghost predicate Delivered(out: seq<Record>, completed: set<nat>, released: set<nat>, counts: map<nat, nat>) {
    forall id :: id in completed ==> id in released && Complete(out, counts, id)
  }

  function CountOf(counts: map<nat, nat>, id: nat): nat { if id in counts then counts[id] else 0 }

  /** Of every job a front of its records is on the queue, and nothing else. */
  ghost predicate Fronts(out: seq<Record>, counts: map<nat, nat>) {
    forall id :: |Of(out, id)| <= CountOf(counts, id) && Of(out, id) == Span(id, 0, |Of(out, id)|)
  }

  lemma AdmitInStep(s: State, i: nat, spec: Spec, sent: map<nat, nat>, received: set<nat>, released: set<nat>, slots: seq<Slot>)
    requires Ok(s) && IsFirstFree(s.cursors, i) && Admissible(s, spec)
    requires InStep(s, sent) && Once(s, received, released) && SlotsOk(slots, s.held, s.cursors)
    ensures var t := Admit(s, i, spec);
      InStep(t, sent) && Once(t, received, released) && SlotsOk(slots, t.held, t.cursors)
  {
    var t := Admit(s, i, spec);
    forall id | id in released ensures Retired(t, id) {
      assert Retired(s, id);
    }
    AdmitLive(s, i, spec, released);
    forall k | 0 <= k < |slots| && slots[k].Busy? ensures Walks(t.cursors, slots[k].job) {
      var j: nat :| IsCursorOf(s.cursors, j, slots[k].job);
      assert IsCursorOf(t.cursors, j, slots[k].job);
    }
  }

  lemma AdmitLive(s: State, i: nat, spec: Spec, released: set<nat>)
    requires TokensOk(s) && |s.channels| == 3 && IsFirstFree(s.cursors, i) && Admissible(s, spec)
    requires forall id :: id in s.ids && id !in released ==> Live(s.cursors, id)
    ensures var t := Admit(s, i, spec);
      forall id :: id in t.ids && id !in released ==> Live(t.cursors, id)
  {
    var t := Admit(s, i, spec);
    forall id | id in t.ids && id !in released ensures Live(t.cursors, id) {
      if id == spec.job.id {
        assert t.cursors[i].job.id == id;
      } else {
        StaysLive(s.cursors, i, t.cursors[i], id);
      }
    }
  }

  lemma WalkingIsNotRetired(s: State, job: Job)
    requires Walks(s.cursors, job)
    ensures !Retired(s, job.id)
  {
  }

  /** A job still in a channel was never received before. */
  lemma ReceiveOnce(s: State, k: nat, received: set<nat>, released: set<nat>)
    requires Ok(s) && k < 3 && s.channels[k] != [] && Once(s, received, released)
    ensures s.channels[k][0].id !in received
    ensures Once(Receive(s, k), received + {s.channels[k][0].id}, released)
  {
    var job := s.channels[k][0];
    ReceiveKeeps(s, k);
    WalkingIsNotRetired(s, job);
    var t := Receive(s, k);
    forall id | id in released ensures Retired(t, id) {
      assert Retired(s, id);
    }
  }

  /** A release takes a held job, once, and it can never be received again. */
  lemma ReleaseOnce(s: State, i: nat, received: set<nat>, released: set<nat>)
    requires Ok(s) && i < |s.cursors| && s.cursors[i].Active? && Once(s, received, released)
    requires s.cursors[i].job.id in s.held
    ensures s.cursors[i].job.id !in released && Once(Release(s, i), received, released + {s.cursors[i].job.id})
  {
    var t, job := Release(s, i), s.cursors[i].job;
    forall id | id in released + {job.id} ensures Retired(t, id) {
      if id in released { assert Retired(s, id); }
    }
    forall id | id in t.ids && id !in released + {job.id} ensures Live(t.cursors, id) {
      StaysLive(s.cursors, i, Free, id);
    }
  }

  lemma ReleaseSlot(s: State, i: nat, slots: seq<Slot>, n: nat)
    requires Ok(s) && i < |s.cursors| && s.cursors[i].Active?
    requires SlotsOk(slots, s.held, s.cursors) && n < |slots| && slots[n] == Busy(s.cursors[i].job)
    ensures SlotsOk(slots[n := Idle], Release(s, i).held, Release(s, i).cursors)
  {
    var t, after := Release(s, i), slots[n := Idle];
    forall k | 0 <= k < |slots| && k != n && slots[k].Busy? ensures Walks(t.cursors, slots[k].job) {
      var j: nat :| IsCursorOf(s.cursors, j, slots[k].job);
      assert IsCursorOf(t.cursors, j, slots[k].job);
    }
    forall id | id in t.held ensures Slotted(after, id) {
      assert Slotted(slots, id);
      var k :| 0 <= k < |slots| && slots[k].Busy? && slots[k].job.id == id;
      assert after[k] == slots[k];
    }
  }

  lemma ReceiveInStep(s: State, k: nat, sent: map<nat, nat>)
    requires InStep(s, sent) && k < |s.channels| && s.channels[k] != []
    ensures InStep(Receive(s, k), sent)
  {
  }

  lemma PlaceSlot(s: State, slots: seq<Slot>, n: nat, k: nat)
    requires Ok(s) && SlotsOk(slots, s.held, s.cursors) && k < 3 && s.channels[k] != []
    requires n < |slots| && slots[n].Idle? && Home(n) == k
    ensures SlotsOk(slots[n := Busy(s.channels[k][0])], Receive(s, k).held, s.cursors)
  {
    ReceiveKeeps(s, k);
    assert Category(s.channels[k][0].kind) == k;
    hide Ok;
    var after := slots[n := Busy(s.channels[k][0])];
    forall id | id in Receive(s, k).held ensures Slotted(after, id) {
      if id == s.channels[k][0].id {
        assert after[n].job.id == id;
      } else {
        assert Slotted(slots, id);
        var j :| 0 <= j < |slots| && slots[j].Busy? && slots[j].job.id == id;
        assert after[j] == slots[j];
      }
    }
  }

  lemma AdvanceSlots(s: State, i: nat, r: Next, received: set<nat>, released: set<nat>, slots: seq<Slot>)
    requires Ok(s) && i < |s.cursors| && s.cursors[i].Active? && r.Chunk? && Moves(s, Advance(s, i, r.from + r.n), i, r)
    requires Once(s, received, released) && SlotsOk(slots, s.held, s.cursors)
    ensures var t := Advance(s, i, r.from + r.n);
      Once(t, received, released) && SlotsOk(slots, t.held, t.cursors)
  {
    var t := Advance(s, i, r.from + r.n);
    forall id | id in released ensures Retired(t, id) {
      assert Retired(s, id);
    }
    forall id | id in t.ids && id !in released ensures Live(t.cursors, id) {
      StaysLive(s.cursors, i, t.cursors[i], id);
    }
    forall k | 0 <= k < |slots| && slots[k].Busy? ensures Walks(t.cursors, slots[k].job) {
      var j: nat :| IsCursorOf(s.cursors, j, slots[k].job);
      assert IsCursorOf(t.cursors, j, slots[k].job);
    }
  }

  /** With the chunk in flight the records are again in step with the cursor. */
  lemma ChunkInStep(s: State, i: nat, job: Job, r: Next, sent: map<nat, nat>, out: seq<Record>)
    requires Ok(s) && IsCursorOf(s.cursors, i, job) && r.Chunk? && Moves(s, Advance(s, i, r.from + r.n), i, r)
    requires InStep(s, sent) && InOrder(out, sent)
    ensures var sentNow := sent[job.id := r.from + r.n];
      InStep(Advance(s, i, r.from + r.n), sentNow) && InOrder(out + Span(job.id, r.from, r.n), sentNow)
  {
    var sentNow := sent[job.id := r.from + r.n];
    forall id ensures Of(out + Span(job.id, r.from, r.n), id) == Span(id, 0, Sent(sentNow, id)) {
      OfSpan(out, job.id, r.from, r.n, id);
      SpansJoin(job.id, r.from, r.n);
    }
  }

  lemma PutDelivered(out: seq<Record>, id: nat, from: nat, n: nat, completed: set<nat>, released: set<nat>, counts: map<nat, nat>)
    requires Delivered(out, completed, released, counts) && id !in released
    ensures Delivered(out + Span(id, from, n), completed, released, counts)
  {
    forall other | other in completed ensures Of(out + Span(id, from, n), other) == Of(out, other) {
      OfSpan(out, id, from, n, other);
    }
  }

  /** A log with one entry for every member of a set. */
  ghost predicate Tally(log: seq<nat>, ids: set<nat>) { multiset(log) == multiset(ids) }

  lemma TallyAdds(log: seq<nat>, ids: set<nat>, id: nat)
    requires Tally(log, ids) && id !in ids
    ensures Tally(log + [id], ids + {id})
  {
    assert multiset(ids + {id}) == multiset(ids) + multiset{id};
  }

  // ---- everything at once

  /** The transformer's ghost ledger: records generated per job, the chunk taken from
      the source but not yet put, jobs received, released and completed. */
  datatype Ledger = Ledger(sent: map<nat, nat>, inFlight: seq<Record>, received: set<nat>, released: set<nat>,
                           completed: set<nat>)

  ghost predicate Sound(s: State, slots: seq<Slot>, out: seq<Record>, l: Ledger) {
    && Ok(s) && SlotsOk(slots, s.held, s.cursors) && Once(s, l.received, l.released)
    && InStep(s, l.sent) && InOrder(out + l.inFlight, l.sent) && Delivered(out, l.completed, l.released, s.counts)
    && Tally(s.receivedLog, l.received) && Tally(s.releasedLog, l.released)
  }

  lemma AdmitSound(s: State, slots: seq<Slot>, out: seq<Record>, l: Ledger, i: nat, spec: Spec)
    requires Sound(s, slots, out, l) && IsFirstFree(s.cursors, i) && Admissible(s, spec)
    ensures Sound(Admit(s, i, spec), slots, out, l)
  {
    AdmitKeeps(s, i, spec);
    AdmitInStep(s, i, spec, l.sent, l.received, l.released, slots);
  }

  /** Receiving into a free slot of the channel; the job is new. */
  lemma ReceiveSound(s: State, slots: seq<Slot>, out: seq<Record>, l: Ledger, k: nat, n: nat)
    requires Sound(s, slots, out, l) && k < 3 && s.channels[k] != []
    requires n < |slots| && slots[n].Idle? && Home(n) == k
    ensures s.channels[k][0].id !in l.received
    ensures Sound(Receive(s, k), slots[n := Busy(s.channels[k][0])], out, l.(received := l.received + {s.channels[k][0].id}))
  {
    ReceiveKeeps(s, k);
    ReceiveOnce(s, k, l.received, l.released);
    TallyAdds(s.receivedLog, l.received, s.channels[k][0].id);
    ReceiveInStep(s, k, l.sent);
    PlaceSlot(s, slots, n, k);
  }

  /** Releasing the job of a slot; it was never released before. */
  lemma ReleaseSound(s: State, slots: seq<Slot>, out: seq<Record>, l: Ledger, i: nat, n: nat)
    requires Sound(s, slots, out, l) && n < |slots| && slots[n].Busy? && IsCursorOf(s.cursors, i, slots[n].job)
    ensures slots[n].job.id !in l.released
    ensures Sound(Release(s, i), slots[n := Idle], out, l.(released := l.released + {slots[n].job.id}))
  {
    ReleaseKeeps(s, i);
    ReleaseOnce(s, i, l.received, l.released);
    TallyAdds(s.releasedLog, l.released, slots[n].job.id);
    ReleaseSlot(s, i, slots, n);
  }

  /** The ledger after a chunk was generated: it is in flight. */
  function WithChunk(l: Ledger, id: nat, r: Next): Ledger
    requires r.Chunk?
  {
    l.(sent := l.sent[id := r.from + r.n], inFlight := Span(id, r.from, r.n))
  }

  lemma MoveSound(s: State, slots: seq<Slot>, out: seq<Record>, l: Ledger, i: nat, job: Job, r: Next)
    requires Sound(s, slots, out, l) && l.inFlight == [] && IsCursorOf(s.cursors, i, job)
    requires r.Chunk? && Moves(s, Advance(s, i, r.from + r.n), i, r)
    ensures Sound(Advance(s, i, r.from + r.n), slots, out, WithChunk(l, job.id, r))
  {
    hide Ok, SlotsOk, Once, InStep, InOrder, Delivered, Tally;
    assert out + l.inFlight == out;
    AdvanceKeeps(s, i, r.from + r.n);
    ChunkInStep(s, i, job, r, l.sent, out);
    AdvanceSlots(s, i, r, l.received, l.released, slots);
  }

  /** A chunk continues its job, and is done exactly when it is the last one. */
  lemma ChunkSound(s: State, t: State, slots: seq<Slot>, out: seq<Record>, l: Ledger, job: Job, r: Next)
    requires Sound(s, slots, out, l) && l.inFlight == [] && Generated(s, t, job, r)
    ensures Sound(t, slots, out, WithChunk(l, job.id, r)) && (r.n == 0 ==> r.done)
    ensures job.id in t.counts && (r.done <==> r.from + r.n == t.counts[job.id])
  {
    assert CursorsOk(s);
    hide Sound;
    var i: nat :| IsCursorOf(s.cursors, i, job) && Moves(s, t, i, r);
    MoveSound(s, slots, out, l, i, job, r);
    assert Counted(s, s.cursors[i]);
  }

  lemma PutSound(s: State, slots: seq<Slot>, out: seq<Record>, l: Ledger, id: nat, from: nat, n: nat)
    requires Sound(s, slots, out, l) && l.inFlight == Span(id, from, n) && id !in l.released
    ensures Sound(s, slots, out + Span(id, from, n), l.(inFlight := []))
  {
    PutDelivered(out, id, from, n, l.completed, l.released, s.counts);
    assert out + l.inFlight + [] == out + l.inFlight;
  }

  /** A released job of which as many records were put as it generates is complete. */
  lemma CompleteSound(s: State, slots: seq<Slot>, out: seq<Record>, l: Ledger, id: nat)
    requires Sound(s, slots, out, l) && l.inFlight == [] && id in l.released
    requires id in s.counts && Sent(l.sent, id) == s.counts[id]
    ensures Sound(s, slots, out, l.(completed := l.completed + {id}))
  {
    assert out + l.inFlight == out;
  }

  /** Of every job a front of its records was put, and of a completed one all. */
  lemma SoundFronts(s: State, slots: seq<Slot>, out: seq<Record>, l: Ledger)
    requires Sound(s, slots, out, l)
    ensures Fronts(out, s.counts) && forall id :: id in l.completed ==> Complete(out, s.counts, id)
  {
    hide Ok, SlotsOk, Once, Tally;
    forall id ensures |Of(out, id)| <= CountOf(s.counts, id) && Of(out, id) == Span(id, 0, |Of(out, id)|) {
      OfJoin(out, l.inFlight, id);
      assert Of(out, id) == Span(id, 0, Sent(l.sent, id))[..|Of(out, id)|];
    }
  }

  /** No job is released twice; and when none is held, those released are those received. */
  lemma SoundLogs(s: State, slots: seq<Slot>, out: seq<Record>, l: Ledger)
    requires Sound(s, slots, out, l)
    ensures forall id :: multiset(s.releasedLog)[id] <= 1
    ensures s.held == {} ==> multiset(s.releasedLog) == multiset(s.receivedLog)
  {
    if s.held == {} {
      assert l.received == l.released;
    }
  }

  /** Every admitted job has all its records on the queue and was released. */
  ghost predicate AllComplete(s: State, out: seq<Record>) {
    forall id :: id in s.ids ==> Complete(out, s.counts, id) && id in s.releasedLog
  }

  /** When nothing is held and no job waits, every job ever admitted was released. */
  lemma AllReleased(s: State, slots: seq<Slot>, out: seq<Record>, l: Ledger)
    requires Sound(s, slots, out, l) && s.held == {} && s.channels == [[], [], []] && l.completed == l.released
    ensures AllComplete(s, out)
  {
    NothingLeaks(s);
    forall id | id in s.ids ensures id in l.released && id in s.releasedLog {
      assert id in multiset(l.released);
      assert id in multiset(s.releasedLog);
    }
  }

  ghost predicate Grown(before: map<nat, nat>, after: map<nat, nat>) {
    forall id :: id in before ==> id in after && after[id] == before[id]
  }

  /** A channel is given up only when it is closed and empty. */
  ghost predicate Shut(open: seq<bool>, closed: bool, channels: seq<seq<Job>>) {
    && |open| == |channels| == 3
    && forall k :: 0 <= k < 3 && !open[k] ==> closed && channels[k] == []
  }

  lemma SlotFacts(s: State, slots: seq<Slot>, out: seq<Record>, l: Ledger, n: nat)
    requires Sound(s, slots, out, l) && n < |slots| && slots[n].Busy?
    ensures slots[n].job.id in s.held && slots[n].job.id !in l.released && Walks(s.cursors, slots[n].job) && Ok(s)
  {
  }

  predicate Vacant(slots: seq<Slot>) { forall i :: 0 <= i < |slots| ==> slots[i].Idle? }

  function Dropped(l: Ledger, id: nat): Ledger {
    l.(received := l.received + {id}, released := l.released + {id})
  }

  /** Receiving and releasing in one go, as if through a free slot. */
  lemma DropSound(s: State, slots: seq<Slot>, out: seq<Record>, l: Ledger, k: nat, i: nat)
    requires Sound(s, slots, out, l) && Vacant(slots) && k < 3 && s.channels[k] != []
    requires IsCursorOf(s.cursors, i, s.channels[k][0])
    ensures Ok(Receive(s, k)) && Sound(Release(Receive(s, k), i), slots, out, Dropped(l, s.channels[k][0].id))
  {
    assert |slots| == MAX_ACTIVE_JOBS && |s.channels| == 3;
    ReceiveKeeps(s, k);
    hide Sound, Ok;
    var n := if k == 0 then 0 else k + 1;
    var job := s.channels[k][0];
    var filled := slots[n := Busy(job)];
    ReceiveSound(s, slots, out, l, k, n);
    ReleaseSound(Receive(s, k), filled, out, l.(received := l.received + {job.id}), i, n);
    assert filled[n := Idle] == slots;
  }

  lemma VacantHoldsNothing(s: State, slots: seq<Slot>, out: seq<Record>, l: Ledger)
    requires Sound(s, slots, out, l) && Vacant(slots)
    ensures s.held == {} && l.received == l.released
  {
    forall id ensures id !in s.held {
      assert id in s.held ==> Slotted(slots, id);
    }
  }

  // ---- the goroutine

  /** What the rest of the program does: admissions, the end of the source's run,
      cancellation. A moment of it passes before every look at shared state. */
  datatype Action = TryAdmit(spec: Spec) | FinishRun | Cancel

  datatype Moment = Moment(actions: seq<Action>, choice: nat)

  /** Refused is the history queue's answer to a chunk, Broken the source's to a request for
      one. */
  datatype Outcome = Fine | Cancelled | Refused | Broken | Suspended

  /** A request for the next chunk of a job. */
  datatype Request = NoRequest | Request(at: State, job: Job, interrupted: bool)

  class Transformer {
    const source: FakeSource
    const slots: array<Slot>
    const chunkRecords: int
    const chunkBytes: int
    var out: seq<Record>
    var script: seq<Moment>
    var cancelled: bool
    var channelOpen: seq<bool>
    ghost var ledger: Ledger
    ghost var last: Request

    /** The last request was for an active job; it was interrupted, or the job could not move
        within the limits. */
    ghost predicate Failed()
      reads this
    {
      && last.Request? && Walks(last.at.cursors, last.job)
      && (last.interrupted || Fails(last.at, source.bytes, last.job, chunkRecords, chunkBytes))
    }

    /** An outcome other than Fine has its cause. */
    ghost predicate Caused(outcome: Outcome)
      reads this
    {
      && (outcome == Cancelled ==> cancelled) && (outcome == Suspended ==> script == [])
      && (outcome == Refused ==> ledger.inFlight != []) && (outcome == Broken ==> Failed())
    }

    ghost predicate Valid()
      reads this, slots, source, source.cursors
    {
      && slots.Length == MAX_ACTIVE_JOBS
      && Sound(source.View(), slots[..], out, ledger)
      && Shut(channelOpen, source.admissionClosed, source.channels)
    }

    /** What the rest of the program leaves alone: it admits jobs while admission is
        open, and neither receives nor releases. */
    twostate predicate Undisturbed()
      reads source, source.cursors
    {
      && source.held == old(source.held) && Grown(old(source.counts), source.counts)
      && source.receivedLog == old(source.receivedLog) && source.releasedLog == old(source.releasedLog)
      && (old(source.admissionClosed) ==> source.admissionClosed && source.View() == old(source.View()))
    }

    /** The run is over: no slot is busy, no job can come, every released job is complete. */
    ghost predicate Over()
      reads this, slots, source
    {
      && Vacant(slots[..]) && ledger.completed == ledger.released
      && source.admissionClosed && source.channels == [[], [], []]
    }

    constructor (source: FakeSource, chunkRecords: int, chunkBytes: int, script: seq<Moment>)
      requires source.Proper() && source.held == {} && source.lifetimeIds == [] && source.receivedLog == [] == source.releasedLog
      ensures Valid() && fresh(slots) && out == [] && ledger == Ledger(map[], [], {}, {}, {})
      ensures this.source == source && this.script == script
    {
      this.source, this.chunkRecords, this.chunkBytes, this.script := source, chunkRecords, chunkBytes, script;
      slots := new Slot[MAX_ACTIVE_JOBS](_ => Idle);
      out, cancelled, channelOpen := [], false, [true, true, true];
      ledger, last := Ledger(map[], [], {}, {}, {}), NoRequest;
    }

    method Act(a: Action)
      requires Valid()
      modifies this`cancelled, source, source.cursors
      ensures Valid() && Undisturbed() && (old(cancelled) ==> cancelled)
    {
      match a
      case TryAdmit(spec) =>
        ghost var s := source.View();
        var r := source.TryHistory(spec);
        if r == Admitted {
          ghost var i: nat :| IsFirstFree(s.cursors, i) && source.View() == Admit(s, i, spec);
          AdmitSound(s, slots[..], out, ledger, i, spec);
          assert Grown(s.counts, Admit(s, i, spec).counts);
        }
      case FinishRun => source.FinishRun();
      case Cancel => cancelled := true;
    }

    method Tick() returns (choice: nat)
      requires Valid()
      modifies this`cancelled, this`script, source, source.cursors
      ensures Valid() && Undisturbed() && (old(cancelled) ==> cancelled)
      ensures script == if old(script) == [] then [] else old(script)[1..]
      ensures old(script) == [] ==> source.channels == old(source.channels)
    {
      if script == [] {
        return 0;
      }
      var moment := script[0];
      script := script[1..];
      for i := 0 to |moment.actions|
        invariant Valid() && Undisturbed() && script == old(script)[1..] && (old(cancelled) ==> cancelled)
      {
        Act(moment.actions[i]);
      }
      return moment.choice;
    }

    /** Releases the job in a slot; it was held and never released before. */
    method ReleaseAt(n: nat)
      requires Valid() && n < slots.Length && slots[n].Busy?
      modifies this`ledger, slots, source, source.cursors
      ensures Valid() && slots[..] == old(slots[..])[n := Idle]
      ensures old(slots[n].job.id !in ledger.released)
      ensures ledger == old(ledger.(released := ledger.released + {slots[n].job.id}))
      ensures source.counts == old(source.counts)
    {
      hide Tally;
      ghost var s, busy, job := source.View(), slots[..], slots[n].job;
      hide Sound, Ok, Steady, Tally, Category;
      SlotFacts(s, busy, out, ledger, n);
      OkIsSteady(s);
      source.ReleaseHistory(slots[n].job);
      ghost var i: nat :| IsCursorOf(s.cursors, i, job) && source.View() == Release(s, i);
      ReleaseSound(s, busy, out, ledger, i, n);
      hide Release, Walks;
      slots[n] := Idle;
      assert slots[..] == busy[n := Idle];
      ledger := ledger.(released := ledger.released + {job.id});
      assert source.View() == Release(s, i);
    }

    /** The free slots of a channel. */
    function Room(k: nat): nat
      requires slots.Length == MAX_ACTIVE_JOBS && k < 3
      reads slots
    {
      if k == 0 then Bit(slots[0].Idle?) + Bit(slots[1].Idle?) else Bit(slots[k+1].Idle?)
    }

    method FirstFree(k: nat) returns (n: int)
      requires slots.Length == MAX_ACTIVE_JOBS && k < 3
      ensures n >= 0 ==> n < slots.Length && Home(n) == k && slots[n].Idle?
      ensures n < 0 ==> Room(k) == 0
    {
      for i := 0 to slots.Length
        invariant forall j :: 0 <= j < i && Home(j) == k ==> slots[j].Busy?
      {
        if Home(i) == k && slots[i].Idle? {
          return i;
        }
      }
      return -1;
    }

    /** Puts a job into the first free slot of its channel; there is one. */
    method Place(k: nat, job: Job) returns (n: nat)
      requires slots.Length == MAX_ACTIVE_JOBS && k < 3 && Room(k) > 0
      modifies slots
      ensures n < slots.Length && Home(n) == k && old(slots[n].Idle?)
      ensures slots[..] == old(slots[..])[n := Busy(job)] && Room(k) < old(Room(k))
    {
      var free := FirstFree(k);
      if free < 0 {
        assert false;
      }
      slots[free] := Busy(job);
      return free;
    }

    /** Receives the next job of a channel with a free slot. The job is new, of the
        expected class, and the slot exists. */
    method AdmitJob(k: nat)
      requires Valid() && k < 3 && source.channels[k] != [] && Room(k) > 0
      modifies this`ledger, slots, source`channels, source`held, source`receivedLog
      ensures Valid() && Room(k) < old(Room(k))
      ensures old(source.channels[k][0].id !in ledger.received)
      ensures ledger == old(ledger.(received := ledger.received + {source.channels[k][0].id}))
    {
      hide Ok, Steady, SlotsOk, Once, InStep, InOrder, Delivered, Tally;
      ghost var s, before := source.View(), slots[..];
      OkIsSteady(s);
      var job := source.ReceiveJob(k);
      if Category(job.kind) != k {
        assert false;
      }
      var n := Place(k, job);
      ReceiveSound(s, before, out, ledger, k, n);
      ledger := ledger.(received := ledger.received + {job.id});
      assert source.View() == Receive(s, k);
    }

    /** Fills the free slots of a channel with what is waiting in it. */
    method DrainChannel(k: nat)
      requires Valid() && k < 3
      modifies this`ledger, this`cancelled, this`script, this`channelOpen, slots, source, source.cursors
      ensures Valid() && |script| <= |old(script)| && ledger == old(ledger).(received := ledger.received)
      ensures Room(k) == 0 || !channelOpen[k] || source.channels[k] == []
    {
      hide Ok, SlotsOk, Once, InStep, InOrder, Delivered, Tally;
      while Room(k) > 0 && channelOpen[k]
        invariant Valid() && |script| <= |old(script)| && ledger == old(ledger).(received := ledger.received)
        decreases Room(k)
      {
        var _ := Tick();
        if source.channels[k] != [] {
          AdmitJob(k);
        } else if source.admissionClosed {
          channelOpen := channelOpen[k := false];
          return;
        } else {
          return;
        }
      }
    }

    method FirstActive() returns (n: int)
      requires slots.Length == MAX_ACTIVE_JOBS
      ensures n >= 0 ==> n < slots.Length && slots[n].Busy? && forall j :: 0 <= j < n ==> slots[j].Idle?
      ensures n < 0 ==> forall j :: 0 <= j < slots.Length ==> slots[j].Idle?
    {
      for i := 0 to slots.Length
        invariant forall j :: 0 <= j < i ==> slots[j].Idle?
      {
        if slots[i].Busy? {
          return i;
        }
      }
      return -1;
    }

    /** Whether as many records of a slot's job are generated as it has. */
    ghost predicate AtEnd(n: nat, done: bool)
      reads this, slots, source
    {
      && n < slots.Length && slots[n].Busy? && slots[n].job.id in source.counts
      && (done <==> Sent(ledger.sent, slots[n].job.id) == source.counts[slots[n].job.id])
    }

    /** Generates the next chunk of an active job; it is then in flight. */
    method Generate(n: nat, interrupted: bool) returns (r: Next)
      requires Valid() && ledger.inFlight == [] && n < slots.Length && slots[n].Busy?
      modifies this`ledger, source.cursors
      ensures r.Fault? <==> interrupted || Fails(old(source.View()), source.bytes, slots[n].job, chunkRecords, chunkBytes)
      ensures Valid() && (r.Chunk? && r.n == 0 ==> r.done)
      ensures r.Chunk? ==> AtEnd(n, r.done)
      ensures ledger == if r.Fault? then old(ledger) else WithChunk(old(ledger), slots[n].job.id, r)
    {
      ghost var s := source.View();
      var job := slots[n].job;
      assert Ok(s);
      OkIsSteady(s);
      hide Sound, Ok, Steady, Fails, AsLongAsAllowed, Generated, Tally, Undisturbed;
      r := source.NextHistory(job, chunkRecords, chunkBytes, interrupted);
      if r.Chunk? {
        ChunkSound(s, source.View(), slots[..], out, ledger, job, r);
        ledger := WithChunk(ledger, job.id, r);
      }
    }

    /** Puts the chunk in flight. */
    method Put(n: nat, r: Next)
      requires Valid() && n < slots.Length && slots[n].Busy? && r.Chunk?
      requires ledger.inFlight == Span(slots[n].job.id, r.from, r.n)
      modifies this`out, this`ledger
      ensures Valid() && out == old(out + ledger.inFlight) && ledger == old(ledger).(inFlight := [])
    {
      SlotFacts(source.View(), slots[..], out, ledger, n);
      PutSound(source.View(), slots[..], out, ledger, slots[n].job.id, r.from, r.n);
      out := out + Span(slots[n].job.id, r.from, r.n);
      ledger := ledger.(inFlight := []);
    }

    /** A job whose records are all on the queue is released and complete. */
    method Finish(n: nat)
      requires Valid() && ledger.inFlight == [] && n < slots.Length && slots[n].Busy? && AtEnd(n, true)
      modifies this`ledger, slots, source, source.cursors
      ensures Valid() && ledger.inFlight == [] && out == old(out)
      ensures old(slots[n].job.id) in ledger.completed && slots[n].Idle?
      ensures old(ledger.completed == ledger.released) ==> ledger.completed == ledger.released
    {
      hide Ok, SlotsOk, Once, InStep, InOrder, Delivered, Tally;
      ghost var id := slots[n].job.id;
      ReleaseAt(n);
      CompleteSound(source.View(), slots[..], out, ledger, id);
      ledger := ledger.(completed := ledger.completed + {id});
    }

    /** One chunk of the job in a slot: generated, put, and when it was the last one
        the job is released and complete. */
    method Work(n: nat) returns (outcome: Outcome)
      requires Valid() && ledger.inFlight == [] && n < slots.Length && slots[n].Busy?
      modifies this, slots, source, source.cursors
      ensures Valid() && (outcome == Fine ==> ledger.inFlight == []) && outcome in {Fine, Cancelled, Refused, Broken}
      ensures |script| <= |old(script)| && Caused(outcome)
      ensures outcome == Fine && old(ledger.completed == ledger.released) ==> ledger.completed == ledger.released
    {
      hide Sound, Fails, Grown;
      var interrupted := Tick();
      SlotFacts(source.View(), slots[..], out, ledger, n);
      hide Walks, Ok;
      last := Request(source.View(), slots[n].job, interrupted == 0);
      var r := Generate(n, interrupted == 0);
      if r.Fault? {
        ReleaseAt(n);
        return Broken;
      }
      if r.n == 0 && !r.done {
        assert false;
      }
      outcome := Deliver(n, r);
    }

    /** Puts a generated chunk; after the last one the job is released and complete. */
    method Deliver(n: nat, r: Next) returns (outcome: Outcome)
      requires Valid() && n < slots.Length && slots[n].Busy? && r.Chunk? && ledger.inFlight == Span(slots[n].job.id, r.from, r.n)
      requires AtEnd(n, r.done)
      modifies this, slots, source, source.cursors
      ensures Valid() && outcome in {Fine, Cancelled, Refused}
      ensures |script| <= |old(script)| && Caused(outcome)
      ensures if outcome == Fine then ledger.inFlight == [] && out == old(out + ledger.inFlight) else out == old(out)
      ensures outcome == Fine && r.done ==> old(slots[n].job.id) in ledger.completed && slots[n].Idle?
      ensures outcome == Fine && old(ledger.completed == ledger.released) ==> ledger.completed == ledger.released
    {
      hide Sound, Fails;
      var refused := Tick();
      if r.n > 0 && refused == 0 {
        return if cancelled then Cancelled else Refused;
      }
      Put(n, r);
      if r.done {
        Finish(n);
      }
      return Fine;
    }

    /** Receives on the blocking select, where every slot is free. */
    method Select() returns (outcome: Outcome)
      requires Valid() && ledger.inFlight == [] && forall j :: 0 <= j < slots.Length ==> slots[j].Idle?
      modifies this, slots, source, source.cursors
      ensures Valid() && ledger.inFlight == [] && |script| <= |old(script)|
      ensures ledger == old(ledger).(received := ledger.received)
      ensures outcome in {Fine, Cancelled, Suspended} && Caused(outcome)
    {
      if script == [] {
        return Suspended;
      }
      var k := Tick();
      if k < 3 && channelOpen[k] {
        if source.channels[k] != [] {
          AdmitJob(k);
        } else if source.admissionClosed {
          channelOpen := channelOpen[k := false];
        }
      } else if cancelled {
        return Cancelled;
      }
      return Fine;
    }

    method Loop() returns (outcome: Outcome)
      requires Valid() && ledger.inFlight == [] && ledger.completed == ledger.released
      modifies this, slots, source, source.cursors
      ensures Valid() && (outcome == Fine ==> Over()) && Caused(outcome)
      ensures old(cancelled) ==> outcome in {Cancelled, Suspended} && out == old(out)
    {
      hide Ok, Sound, Fails, Failed, Steady, Tally;
      while script != []
        invariant Valid() && ledger.inFlight == [] && ledger.completed == ledger.released
        invariant old(cancelled) ==> cancelled && out == old(out)
        decreases |script|
      {
        var _ := Tick();
        if cancelled {
          return Cancelled;
        }
        DrainChannel(0);
        DrainChannel(1);
        DrainChannel(2);
        var n := FirstActive();
        if n >= 0 {
          outcome := Work(n);
        } else if channelOpen == [false, false, false] {
          assert !channelOpen[0] && !channelOpen[1] && !channelOpen[2];
          assert source.channels == [[], [], []];
          return Fine;
        } else {
          outcome := Select();
        }
        if outcome != Fine { return outcome; }
      }
      return Suspended;
    }

    /** A job still waiting in a channel is received and released at once. */
    method DropJob(k: nat)
      requires Valid() && k < 3 && source.channels[k] != [] && Vacant(slots[..])
      modifies this`ledger, source, source.cursors
      ensures Valid() && |source.channels[k]| < |old(source.channels[k])|
      ensures ledger == old(ledger).(received := ledger.received, released := ledger.released)
    {
      hide Ok, Steady, SlotsOk, Once, InStep, InOrder, Delivered, Tally;
      ghost var s := source.View();
      OkIsSteady(s);
      var job := source.ReceiveJob(k);
      ghost var t := source.View();
      source.ReleaseHistory(job);
      ghost var i: nat :| IsCursorOf(t.cursors, i, job) && source.View() == Release(t, i);
      DropSound(s, slots[..], out, ledger, k, i);
      ledger := Dropped(ledger, job.id);
    }

    method DrainRest(k: nat)
      requires Valid() && k < 3 && Vacant(slots[..])
      modifies this`ledger, this`cancelled, this`script, source, source.cursors
      ensures Valid() && (old(Over()) ==> Over()) && (old(cancelled) ==> cancelled) && (old(script) == [] ==> script == [])
      ensures ledger == old(ledger).(received := ledger.received, released := ledger.released)
    {
      hide Ok, SlotsOk, Once, InStep, InOrder, Delivered, Tally;
      while true
        invariant Valid() && (old(Over()) ==> Over()) && (old(cancelled) ==> cancelled) && (old(script) == [] ==> script == [])
        invariant ledger == old(ledger).(received := ledger.received, released := ledger.released)
        decreases |script|, |source.channels[k]|
      {
        var _ := Tick();
        if source.channels[k] == [] {
          return;
        }
        DropJob(k);
      }
    }

    method ReleaseSlots()
      requires Valid()
      modifies this`ledger, slots, source, source.cursors
      ensures Valid() && Vacant(slots[..]) && (old(Over()) ==> Over())
      ensures ledger == old(ledger).(received := ledger.received, released := ledger.released)
    {
      hide Ok, SlotsOk, Once, InStep, InOrder, Delivered, Tally;
      for n := 0 to slots.Length
        invariant Valid() && (old(Over()) ==> Over())
        invariant ledger == old(ledger).(received := ledger.received, released := ledger.released)
        invariant forall j :: 0 <= j < n ==> slots[j].Idle?
      {
        if slots[n].Busy? {
          ghost var before := slots[..];
          ReleaseAt(n);
          assert forall j :: 0 <= j < n ==> slots[..][j] == before[j];
        }
      }
    }

    /** The goroutine. On every way out it called ReleaseHistory exactly once for each
        job it received. Of every job a front of its records was put, in order, each
        once; of a completed job all of them. A run that ends without an error has
        completed every job the source ever admitted. */
    method Run() returns (outcome: Outcome)
      requires Valid() && ledger == Ledger(map[], [], {}, {}, {})
      modifies this, slots, source, source.cursors
      ensures Valid() && Fronts(out, source.counts)
      ensures forall id :: id in ledger.completed ==> Complete(out, source.counts, id)
      ensures outcome != Suspended ==> source.held == {} && multiset(source.releasedLog) == multiset(source.receivedLog)
      ensures forall id :: multiset(source.releasedLog)[id] <= 1
      ensures outcome == Fine ==> source.admissionClosed && AllComplete(source.View(), out)
      ensures Caused(outcome) && (old(cancelled) ==> outcome in {Cancelled, Suspended} && out == old(out))
    {
      hide Ok, SlotsOk, Once, InStep, InOrder, Delivered, Tally;
      outcome := Loop();
      if !outcome.Suspended? {
        ReleaseSlots();
        DrainRest(0);
        DrainRest(1);
        DrainRest(2);
        VacantHoldsNothing(source.View(), slots[..], out, ledger);
        if outcome.Fine? {
          AllReleased(source.View(), slots[..], out, ledger);
        }
      }
      SoundFronts(source.View(), slots[..], out, ledger);
      SoundLogs(source.View(), slots[..], out, ledger);
    }
  }
}
