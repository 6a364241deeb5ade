/** The batching writer of the SQLite store: one goroutine groups queued requests
    into transactions, and shutdown drains what was admitted. */
module SqliteWriter {
  const QUEUE_CAPACITY: nat := 64
  const MAX_BATCH_WRITES: nat := 50

  /** A queued request; only its number of logical writes matters. */
  datatype Request = Request(id: nat, writes: nat) {
    predicate Fits() { 1 <= writes <= MAX_BATCH_WRITES }
  }

  /** The open batch and the transactions already closed, oldest first. */
  datatype Log = Log(closed: seq<seq<Request>>, open: seq<Request>)

  function Writes(rs: seq<Request>): nat {
    if rs == [] then 0 else Writes(rs[..|rs|-1]) + rs[|rs|-1].writes
  }

  function Flat(ts: seq<seq<Request>>): seq<Request> {
    if ts == [] then [] else Flat(ts[..|ts|-1]) + ts[|ts|-1]
  }

  function Close(l: Log): Log {
    if l.open == [] then l else Log(l.closed + [l.open], [])
  }

  /** Receiving one request: the open batch is closed first when it would overflow. */
  function Receive(l: Log, r: Request): Log {
    var m := if Writes(l.open) + r.writes > MAX_BATCH_WRITES then Close(l) else l;
    Log(m.closed, m.open + [r])
  }

  /** Every request the log ever received, in order. */
  function Received(l: Log): seq<Request> { Flat(l.closed) + l.open }

  predicate AllFit(rs: seq<Request>) { forall i :: 0 <= i < |rs| ==> rs[i].Fits() }

  /** Transactions are nonempty and within the write limit. */
  predicate Sound(l: Log) {
    && AllFit(l.open) && Writes(l.open) <= MAX_BATCH_WRITES
    && forall t :: 0 <= t < |l.closed| ==> l.closed[t] != [] && AllFit(l.closed[t]) && Writes(l.closed[t]) <= MAX_BATCH_WRITES
  }

  /** Each request writes at least once, so a batch has at most as many requests. */
  lemma {:induction false} CountWithinWrites(rs: seq<Request>)
    requires AllFit(rs)
    ensures |rs| <= Writes(rs)
  {
    if rs != [] { CountWithinWrites(rs[..|rs|-1]); }
  }

  lemma OpenFits(l: Log)
    requires Sound(l)
    ensures Writes(l.open) <= MAX_BATCH_WRITES
  {
  }

  lemma ClosedAlready(l: Log)
    ensures l.open == [] ==> Close(l) == l
  {
  }

  lemma CloseKeeps(l: Log)
    requires Sound(l)
    ensures Sound(Close(l)) && Received(Close(l)) == Received(l) && Close(l).open == []
  {
    if l.open != [] { assert Close(l).closed[..|l.closed|] == l.closed; }
  }

  lemma AddKeeps(l: Log, r: Request)
    requires Sound(l) && r.Fits() && Writes(l.open) + r.writes <= MAX_BATCH_WRITES
    ensures var m := Log(l.closed, l.open + [r]);
      Sound(m) && Received(m) == Received(l) + [r] && Writes(m.open) == Writes(l.open) + r.writes
  {
    assert (l.open + [r])[..|l.open|] == l.open;
  }

  lemma ReceiveKeeps(l: Log, r: Request)
    requires Sound(l) && r.Fits()
    ensures Sound(Receive(l, r)) && Received(Receive(l, r)) == Received(l) + [r]
  {
    CloseKeeps(l);
    var m := if Writes(l.open) + r.writes > MAX_BATCH_WRITES then Close(l) else l;
    AddKeeps(m, r);
  }

  // ---- why transactions close

  /** The number of requests in the first n transactions. */
  function End(l: Log, n: nat): nat
    requires n <= |l.closed|
  {
    |Flat(l.closed[..n])|
  }

  /** The transaction ends at a cut, is full, or the next request does not fit. */
  predicate HasReason(l: Log, cuts: set<int>, t: nat)
    requires t < |l.closed|
  {
    var n := End(l, t + 1);
    || n in cuts || Writes(l.closed[t]) == MAX_BATCH_WRITES
    || (n < |Received(l)| && Writes(l.closed[t]) + Received(l)[n].writes > MAX_BATCH_WRITES)
  }

  /** No transaction goes across a cut, and every one has its reason to end. */
  ghost predicate Grouped(l: Log, cuts: set<int>) {
    && (forall t: nat :: t < |l.closed| ==> HasReason(l, cuts, t))
    && (forall n :: n in cuts ==> exists t: nat :: t <= |l.closed| && End(l, t) == n)
  }

  lemma EndIsWithin(l: Log, t: nat)
    requires t <= |l.closed|
    ensures End(l, t) <= |Flat(l.closed)| <= |Received(l)|
    ensures t == |l.closed| ==> End(l, t) == |Flat(l.closed)|
    decreases |l.closed| - t
  {
    if t == |l.closed| {
      assert l.closed[..t] == l.closed;
    } else {
      assert l.closed[..t+1][..t] == l.closed[..t];
      EndIsWithin(l, t + 1);
    }
  }

  /** Receiving more, or cutting more, takes no reason away. */
  lemma ReasonStays(l: Log, m: Log, cuts: set<int>, more: set<int>, t: nat)
    requires t < |l.closed| && l.closed <= m.closed && Received(l) <= Received(m) && cuts <= more && HasReason(l, cuts, t)
    ensures HasReason(m, more, t)
  {
    assert m.closed[..t+1] == l.closed[..t+1];
  }

  lemma CutsStay(l: Log, m: Log, cuts: set<int>, n: nat)
    requires Grouped(l, cuts) && l.closed <= m.closed && n in cuts
    ensures exists t: nat :: t <= |m.closed| && End(m, t) == n
  {
    var t: nat :| t <= |l.closed| && End(l, t) == n;
    assert m.closed[..t] == l.closed[..t] && End(m, t) == n;
  }

  lemma GroupedGrows(l: Log, m: Log, cuts: set<int>)
    requires Grouped(l, cuts) && l.closed <= m.closed && Received(l) <= Received(m)
    requires forall t: nat :: |l.closed| <= t < |m.closed| ==> HasReason(m, cuts, t)
    ensures Grouped(m, cuts)
  {
    forall t: nat | t < |m.closed| ensures HasReason(m, cuts, t) {
      if t < |l.closed| { ReasonStays(l, m, cuts, cuts, t); }
    }
    forall n | n in cuts ensures exists t: nat :: t <= |m.closed| && End(m, t) == n { CutsStay(l, m, cuts, n); }
  }

  lemma CloseEnd(l: Log)
    requires Sound(l)
    ensures l.closed <= Close(l).closed && |Close(l).closed| <= |l.closed| + 1
    ensures End(Close(l), |Close(l).closed|) == |Received(l)|
  {
    CloseKeeps(l);
    EndIsWithin(Close(l), |Close(l).closed|);
  }

  lemma NothingGrouped()
    ensures Grouped(Log([], []), {})
  {
  }

  lemma GroupedClose(l: Log, cuts: set<int>)
    requires Sound(l) && Grouped(l, cuts) && (Writes(l.open) == MAX_BATCH_WRITES || |Received(l)| in cuts)
    ensures Grouped(Close(l), cuts)
  {
    CloseKeeps(l);
    CloseEnd(l);
    GroupedGrows(l, Close(l), cuts);
  }

  /** A cut is made by closing what is open. */
  lemma GroupedCut(l: Log, cuts: set<int>)
    requires Sound(l) && Grouped(l, cuts)
    ensures Grouped(Close(l), cuts + {|Received(l)|})
  {
    var m, more := Close(l), cuts + {|Received(l)|};
    CloseKeeps(l);
    CloseEnd(l);
    forall t: nat | t < |m.closed| ensures HasReason(m, more, t) {
      if t < |l.closed| { ReasonStays(l, m, cuts, more, t); }
    }
    forall n | n in more ensures exists t: nat :: t <= |m.closed| && End(m, t) == n {
      if n in cuts { CutsStay(l, m, cuts, n); }
    }
  }

  lemma GroupedReceive(l: Log, r: Request, cuts: set<int>)
    requires Sound(l) && r.Fits() && Grouped(l, cuts)
    ensures Grouped(Receive(l, r), cuts)
  {
    var m := Receive(l, r);
    ReceiveKeeps(l, r);
    CloseEnd(l);
    if Writes(l.open) + r.writes > MAX_BATCH_WRITES && l.open != [] {
      assert m.closed == Close(l).closed;
      assert End(m, |m.closed|) == |Received(l)| && Received(m)[|Received(l)|] == r;
      assert m.closed[|l.closed|] == l.open;
    }
    GroupedGrows(l, m, cuts);
  }

  // ---- acknowledgements

  datatype Outcome = Committed | RolledBack

  /** What a request is told: the transaction that carried it and how that ended. */
  datatype Ack = Ack(request: Request, transaction: nat, outcome: Outcome)

  function AcksOf(t: seq<Request>, n: nat, outcome: Outcome): seq<Ack> {
    seq(|t|, i requires 0 <= i < |t| => Ack(t[i], n, outcome))
  }

  function Acks(ts: seq<seq<Request>>, outcome: nat -> Outcome): seq<Ack> {
    if ts == [] then [] else
      Acks(ts[..|ts|-1], outcome) + AcksOf(ts[|ts|-1], |ts| - 1, outcome(|ts| - 1))
  }

  /** Every transaction answers its own requests, each once and in order. */
  lemma {:induction false} AcksAnswerOnce(ts: seq<seq<Request>>, outcome: nat -> Outcome)
    ensures var acks := Acks(ts, outcome);
      && |acks| == |Flat(ts)|
      && forall i :: 0 <= i < |acks| ==>
           && acks[i].request == Flat(ts)[i]
           && acks[i].transaction < |ts| && acks[i].request in ts[acks[i].transaction]
           && acks[i].outcome == outcome(acks[i].transaction)
  {
    if ts != [] {
      var n := |ts| - 1;
      var rest := ts[..n];
      AcksAnswerOnce(rest, outcome);
      var last := AcksOf(ts[n], n, outcome(n));
      forall i | 0 <= i < |last|
        ensures last[i].request == ts[n][i] && last[i].request in ts[n]
      {
      }
    }
  }

  // ---- the writer goroutine

  datatype Slot = Empty | Pending(request: Request)

  /** What the environment and the select do next: a submitter's request arrives
      in the channel, or one of the ready branches is taken. */
  datatype Event = Arrive(request: Request) | Queue | Timer | Stop

  /** The channel's door, seen from outside: how many requests wait behind it and which
      ones it ever let in. */
  datatype Door = Door(waiting: nat, admitted: seq<Request>, stopped: bool)

  predicate Admits(waiting: nat, r: Request) { r.Fits() && waiting < QUEUE_CAPACITY }

  function Pass(d: Door, e: Event): Door {
    if d.stopped then d else
      match e
      case Arrive(r) => if Admits(d.waiting, r) then d.(waiting := d.waiting + 1, admitted := d.admitted + [r]) else d
      case Queue => if d.waiting > 0 then d.(waiting := d.waiting - 1) else d
      case Timer => d
      case Stop => d.(waiting := 0, stopped := true)
  }

  /** What the events alone say about the door, whatever happens to the requests behind it. */
  function AtDoor(events: seq<Event>): Door {
    if events == [] then Door(0, [], false) else Pass(AtDoor(events[..|events|-1]), events[|events|-1])
  }

  /** How many requests came through the door. */
  function Through(d: Door): int { |d.admitted| - d.waiting }

  function CutOf(d: Door, e: Event): set<int> {
    if e.Timer? then {Through(d)} else if e.Stop? then {|d.admitted|} else {}
  }

  /** The cuts that the events make in what was received: a fired timer and a stop end
      what is open, a stop after all that was admitted. */
  function Cuts(events: seq<Event>): set<int> {
    if events == [] then {} else
      var front, e := events[..|events|-1], events[|events|-1];
      var d := AtDoor(front);
      Cuts(front) + if d.stopped then {} else CutOf(d, e)
  }

  /** Nothing is cut after a stop. */
  lemma {:induction false} CutsEnded(events: seq<Event>, i: nat)
    requires i <= |events| && AtDoor(events[..i]).stopped
    ensures Cuts(events) == Cuts(events[..i])
    decreases |events|
  {
    if i < |events| {
      var front := events[..|events|-1];
      assert front[..i] == events[..i];
      StoppedStays(front, i);
      CutsEnded(front, i);
    } else {
      assert events[..i] == events;
    }
  }

  lemma {:induction false} StoppedStays(events: seq<Event>, i: nat)
    requires i <= |events| && AtDoor(events[..i]).stopped
    ensures AtDoor(events) == AtDoor(events[..i])
    decreases |events|
  {
    if i < |events| {
      var front := events[..|events|-1];
      assert front[..i] == events[..i];
      StoppedStays(front, i);
    } else {
      assert events[..i] == events;
    }
  }

  /** One answer for every request, in order. */
  predicate Answers(acks: seq<Ack>, requests: seq<Request>) {
    |acks| == |requests| && forall i :: 0 <= i < |acks| ==> acks[i].request == requests[i]
  }

  /** The requests of the open batch, then cleared slots. */
  predicate Filled(slots: seq<Slot>, open: seq<Request>) {
    && |open| <= |slots|
    && (forall i :: 0 <= i < |open| ==> slots[i] == Pending(open[i]))
    && (forall i :: |open| <= i < |slots| ==> slots[i] == Empty)
  }

  lemma FilledNext(slots: seq<Slot>, open: seq<Request>, r: Request)
    requires Filled(slots, open) && |open| < |slots|
    ensures Filled(slots[|open| := Pending(r)], open + [r])
  {
  }

  class BatchWriter {
    const batch: array<Slot>
    var requestCount: nat
    var logicalWrites: nat
    var armed: bool
    var queue: seq<Request>
    var acks: seq<Ack>
    var transactions: nat
    const outcome: nat -> Outcome
    ghost var log: Log

    ghost predicate Valid()
      reads this, batch
    {
      && batch.Length == MAX_BATCH_WRITES
      && Sound(log) && AllFit(queue)
      && requestCount == |log.open| && Filled(batch[..], log.open)
      && logicalWrites == Writes(log.open)
      && transactions == |log.closed| && acks == Acks(log.closed, outcome)
    }

    constructor (outcome: nat -> Outcome)
      ensures Valid() && log == Log([], []) && queue == [] && !armed
    {
      batch := new Slot[MAX_BATCH_WRITES](_ => Empty);
      requestCount, logicalWrites, transactions, armed, queue, acks := 0, 0, 0, false, [], [];
      this.outcome := outcome;
      log := Log([], []);
    }

    method Add(r: Request)
      requires Valid() && r.Fits() && Writes(log.open) + r.writes <= MAX_BATCH_WRITES
      modifies this`requestCount, this`logicalWrites, this`armed, this`log, batch
      ensures Valid() && log == Log(old(log).closed, old(log).open + [r])
      ensures Received(log) == old(Received(log)) + [r]
      ensures armed == (old(armed) || old(requestCount) == 0)
    {
      CountWithinWrites(log.open);
      FilledNext(batch[..], log.open, r);
      ghost var slots := batch[..];
      batch[requestCount] := Pending(r);
      assert batch[..] == slots[requestCount := Pending(r)];
      requestCount := requestCount + 1;
      logicalWrites := logicalWrites + r.writes;
      if requestCount == 1 { armed := true; }
      AddKeeps(log, r);
      log := Log(log.closed, log.open + [r]);
    }

    /** Commits the open batch and answers its requests; the slots are cleared. */
    method Flush()
      requires Valid()
      modifies this`requestCount, this`logicalWrites, this`armed, this`acks, this`transactions, this`log, batch
      ensures Valid() && log == Close(old(log)) && requestCount == 0
      ensures Received(log) == old(Received(log))
      ensures armed == (old(armed) && old(requestCount) == 0)
    {
      CloseKeeps(log);
      if requestCount == 0 {
        return;
      }
      armed := false;
      ghost var answered := acks;
      ghost var all := AcksOf(log.open, |log.closed|, outcome(|log.closed|));
      var transaction := transactions;
      transactions := transactions + 1;
      for index := 0 to requestCount
        modifies this`acks, batch
        invariant acks == answered + all[..index]
        invariant forall i :: index <= i < requestCount ==> batch[i] == Pending(log.open[i])
        invariant forall i :: 0 <= i < index || requestCount <= i < batch.Length ==> batch[i] == Empty
      {
        acks := acks + [Ack(batch[index].request, transaction, outcome(transaction))];
        assert all[..index+1] == all[..index] + [all[index]];
        batch[index] := Empty;
      }
      assert all[..|all|] == all;
      assert Close(log).closed[..|log.closed|] == log.closed;
      log := Close(log);
      requestCount, logicalWrites := 0, 0;
    }

    /** One receive from the channel, as in the select and in the drain. */
    method ReceiveNext()
      requires Valid() && queue != []
      modifies this, batch
      ensures Valid() && queue == old(queue)[1..] && log == Receive(old(log), old(queue)[0])
      ensures Received(log) + queue == old(Received(log) + queue)
      ensures requestCount > 0 && (old(armed == (requestCount > 0)) ==> armed)
    {
      var pending := queue[0];
      assert Received(log) + queue == Received(log) + [pending] + queue[1..];
      queue := queue[1..];
      if logicalWrites + pending.writes > MAX_BATCH_WRITES {
        Flush();
      }
      Add(pending);
    }

    /** Nothing is enqueued once stop is closed: empty the channel, then finish. */
    method DrainAndStop(ghost cuts: set<int>)
      requires Valid() && Grouped(log, cuts)
      modifies this, batch
      ensures Valid() && queue == [] && log.open == [] && Grouped(log, cuts + {|Received(log)|})
      ensures Received(log) == old(Received(log) + queue)
      ensures old(armed == (requestCount > 0)) ==> armed == (requestCount > 0)
    {
      ghost var all := Received(log) + queue;
      hide Sound, Filled, Acks, Received, Writes, Grouped;
      while queue != []
        invariant Valid() && Received(log) + queue == all && Grouped(log, cuts)
        invariant old(armed == (requestCount > 0)) ==> armed == (requestCount > 0)
        decreases |queue|
      {
        GroupedReceive(log, queue[0], cuts);
        ReceiveNext();
        if logicalWrites == MAX_BATCH_WRITES {
          GroupedClose(log, cuts);
          Flush();
        }
      }
      GroupedCut(log, cuts);
      CloseKeeps(log);
      Flush();
    }

    /** A submitter's send: a request of no or too many writes is refused, and a full
        channel takes none. */
    method Enqueue(r: Request)
      requires Valid()
      modifies this`queue
      ensures Valid()
      ensures queue == if Admits(|old(queue)|, r) then old(queue) + [r] else old(queue)
      ensures Received(log) + queue == old(Received(log) + queue) + if Admits(|old(queue)|, r) then [r] else []
    {
      if r.Fits() && |queue| < QUEUE_CAPACITY {
        queue := queue + [r];
      }
    }

    /** The door as it stands: what was received or waits was let in. */
    ghost function Behind(stopped: bool): Door
      reads this
    {
      Door(|queue|, Received(log) + queue, stopped)
    }

    ghost predicate Running()
      reads this, batch
    {
      Valid() && armed == (requestCount > 0) && |queue| <= QUEUE_CAPACITY
    }

    /** The cut an event makes, read off what is behind the door. */
    ghost function CutBy(event: Event): set<int>
      reads this
    {
      if event.Timer? then {|Received(log)|} else if event.Stop? then {|Received(log) + queue|} else {}
    }

    /** One turn of the select. A fired timer answers everything received so far. */
    method React(event: Event, ghost cuts: set<int>) returns (stopped: bool)
      requires Running() && Grouped(log, cuts)
      modifies this, batch
      ensures Running() && Behind(stopped) == Pass(old(Behind(false)), event)
      ensures Grouped(log, cuts + old(CutBy(event)))
      ensures stopped || event.Timer? ==> log.open == [] && Answers(acks, Received(log))
      ensures stopped ==> queue == []
    {
      hide Sound, Filled, Acks, Received, Writes, Grouped;
      ghost var same := cuts + {};
      assert same == cuts;
      match event
      case Arrive(request) =>
        Enqueue(request);
        return false;
      case Queue =>
        if queue != [] {
          GroupedReceive(log, queue[0], cuts);
          ReceiveNext();
        }
        return false;
      case Timer =>
        GroupedCut(log, cuts);
        CloseKeeps(log);
        ClosedAlready(log);
        if armed { Flush(); }
        AllAnswered();
        return false;
      case Stop =>
        DrainAndStop(cuts);
        AllAnswered();
        return true;
    }

    /** With nothing open everything received is answered. */
    lemma AllAnswered()
      requires Valid() && log.open == []
      ensures Answers(acks, Received(log))
    {
      AcksAnswerOnce(log.closed, outcome);
    }

    /** The loop, for any order of arrivals and ready branches. A Queue event on an
        empty channel, or a Timer event while no batch is open, is not ready. What was
        admitted is in the transactions, the open batch or the channel, in order and
        nothing else; the answers are those of the transactions, a fired timer and a stop
        leave nothing before them unanswered, and a transaction ends only there, at its
        limit, or when the next request does not fit. */
    method Run(events: seq<Event>) returns (stopped: bool)
      requires Valid() && log == Log([], []) && queue == [] && !armed
      modifies this, batch
      ensures Running() && Behind(stopped) == AtDoor(events)
      ensures Grouped(log, Cuts(events)) && Writes(log.open) < MAX_BATCH_WRITES
      ensures Answers(acks, Flat(log.closed)) && forall n :: n in Cuts(events) ==> n <= |acks|
      ensures stopped ==> queue == [] && log.open == [] && Answers(acks, AtDoor(events).admitted)
    {
      hide Sound, Filled, Acks, Grouped;
      NothingGrouped();
      var i := 0;
      while true
        invariant 0 <= i <= |events|
        invariant Running() && Behind(false) == AtDoor(events[..i]) && Grouped(log, Cuts(events[..i]))
        decreases |events| - i, logicalWrites
      {
        if logicalWrites == MAX_BATCH_WRITES {
          GroupedClose(log, Cuts(events[..i]));
          Flush();
          continue;
        }
        if i == |events| {
          break;
        }
        ghost var cuts := Cuts(events[..i]);
        assert CutBy(events[i]) == CutOf(AtDoor(events[..i]), events[i]);
        stopped := React(events[i], cuts);
        i := i + 1;
        assert events[..i][..i-1] == events[..i-1];
        if stopped {
          StoppedStays(events, i);
          CutsEnded(events, i);
          CutsAnswered(Cuts(events));
          return;
        }
      }
      assert events[..i] == events;
      OpenFits(log);
      CutsAnswered(Cuts(events));
      return false;
    }

    lemma CutsAnswered(cuts: set<int>)
      requires Valid() && Grouped(log, cuts)
      ensures Answers(acks, Flat(log.closed)) && forall n :: n in cuts ==> n <= |acks|
    {
      AcksAnswerOnce(log.closed, outcome);
      forall n | n in cuts ensures n <= |acks| {
        var t: nat :| t <= |log.closed| && End(log, t) == n;
        EndIsWithin(log, t);
      }
    }
  }
}
