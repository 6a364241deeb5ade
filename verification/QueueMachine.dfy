/** The weighted bounded queue as a machine whose steps are the mutex sections of
    queue.go and budget.go. Any number of goroutines may interleave them. */
module QueueMachine {
  import opened QueueErrors

  /** Where a permit is: held by a putter, behind a reservation, in the ring, in a
      taken lease, or somewhere in Release, whose flag flips before the budget
      is locked. */
  datatype Phase = Held | Reserved | Queued | Leased | Releasing | Gone

  datatype Permit = Permit(weight: int, phase: Phase)

  datatype Item<T> = Item(value: T, permit: nat)

  /** permits lists every permit ever issued; put and taken log the values that
      entered and left the ring. */
  datatype Sys<T> = Sys(capacity: int, slots: nat, used: int, permits: seq<Permit>, items: seq<Item<T>>,
                        reservations: int, stopped: bool, put: seq<T>, taken: seq<T>)

  datatype Op<T> =
    | Acquire(weight: int)
    | PutReserved(permit: nat, value: T, weight: int)
    | Take
    | BeginRelease(permit: nat)
    | EndRelease(permit: nat)
    | Reserve(weight: int)
    | Commit(permit: nat, value: T, weight: int)
    | ReleaseReservation(permit: nat)
    | Replace(permit: nat, weight: int)
    | Close

  function Owns<T>(s: Sys<T>, p: nat, phase: Phase): bool {
    p < |s.permits| && s.permits[p].phase == phase
  }

  /** Calls the program can make: each touches only a permit its caller owns. A
      lease or held permit may be released any number of times. */
  predicate Enabled<T>(s: Sys<T>, op: Op<T>) {
    match op
    case PutReserved(p, _, _) => Owns(s, p, Held)
    case BeginRelease(p) => p < |s.permits| && s.permits[p].phase in {Held, Leased, Releasing, Gone}
    case EndRelease(p) => Owns(s, p, Releasing)
    case Commit(p, _, _) => Owns(s, p, Reserved)
    case ReleaseReservation(p) => Owns(s, p, Reserved)
    case Replace(p, _) => p < |s.permits| && s.permits[p].phase in {Held, Releasing, Gone}
    case _ => true
  }

  function Mark(ps: seq<Permit>, p: nat, phase: Phase): seq<Permit>
    requires p < |ps|
  {
    ps[p := ps[p].(phase := phase)]
  }

  function TryAcquire<T>(s: Sys<T>, weight: int, phase: Phase): (Sys<T>, Result) {
    if weight <= 0 || weight > s.capacity then (s, Failed(InvalidWeight))
    else if s.used > s.capacity - weight then (s, Failed(QueueFull))
    else (s.(used := s.used + weight, permits := s.permits + [Permit(weight, phase)]), Done)
  }

  /** Trades a live permit for one of another weight, which takes its place. */
  function TryReplace<T>(s: Sys<T>, p: nat, weight: int, phase: Phase): (Sys<T>, Result)
    requires p < |s.permits|
  {
    var extra := weight - s.permits[p].weight;
    if weight <= 0 || weight > s.capacity then (s, Failed(InvalidWeight))
    else if s.permits[p].phase in {Releasing, Gone} then (s, Failed(PermitReleased))
    else if extra > 0 && s.used > s.capacity - extra then (s, Failed(QueueFull))
    else (s.(used := s.used + extra, permits := Mark(s.permits, p, Gone) + [Permit(weight, phase)]), Done)
  }

  // ---- the invariant

  function Charge(p: Permit): int { if p.phase.Gone? then 0 else p.weight }

  /** The weight of every permit not yet discharged. */
  function Charged(ps: seq<Permit>): int {
    if ps == [] then 0 else Charged(ps[..|ps|-1]) + Charge(ps[|ps|-1])
  }

  function InPhase(ps: seq<Permit>, phase: Phase): set<nat> {
    set p: nat | p < |ps| && ps[p].phase == phase
  }

  function Values<T>(items: seq<Item<T>>): seq<T> { seq(|items|, i requires 0 <= i < |items| => items[i].value) }

  ghost function PermitsOf<T>(items: seq<Item<T>>): set<nat> { set e | e in items :: e.permit }

  predicate DistinctPermits<T>(items: seq<Item<T>>) {
    forall i, j :: 0 <= i < j < |items| ==> items[i].permit != items[j].permit
  }

  /** The byte accounts: used is the weight of the undischarged permits. */
  predicate Accounts(used: int, capacity: int, ps: seq<Permit>) {
    && used == Charged(ps) && used <= capacity
    && forall p :: 0 <= p < |ps| ==> 0 < ps[p].weight <= capacity
  }

  /** Each queued permit is in the ring exactly once, each reserved one is counted. */
  ghost predicate Slots<T>(items: seq<Item<T>>, reservations: int, slots: nat, ps: seq<Permit>) {
    && DistinctPermits(items)
    && PermitsOf(items) == InPhase(ps, Queued)
    && reservations == |InPhase(ps, Reserved)|
    && |items| + reservations <= slots
  }

  ghost predicate Inv<T>(s: Sys<T>) {
    && Accounts(s.used, s.capacity, s.permits)
    && Slots(s.items, s.reservations, s.slots, s.permits)
    && s.put == s.taken + Values(s.items)
  }

  lemma InRing<T>(s: Sys<T>, i: nat)
    requires Inv(s) && i < |s.items|
    ensures Owns(s, s.items[i].permit, Queued)
  {
    assert s.items[i] in s.items;
    assert s.items[i].permit in PermitsOf(s.items);
  }

  ghost function Step<T>(s: Sys<T>, op: Op<T>): (Sys<T>, Result)
    requires Inv(s) && Enabled(s, op)
  {
    match op
    case Acquire(weight) => TryAcquire(s, weight, Held)
    case PutReserved(p, value, weight) =>
      if weight <= 0 || weight != s.permits[p].weight then (s, Failed(InvalidWeight))
      else if s.stopped then (s, Failed(QueueStopped))
      else if |s.items| + s.reservations == s.slots then (s, Failed(QueueFull))
      else (s.(items := s.items + [Item(value, p)], permits := Mark(s.permits, p, Queued), put := s.put + [value]), Done)
    case Take =>
      if s.items == [] then (s, Failed(QueueStopped))
      else InRing(s, 0); (s.(items := s.items[1..], permits := Mark(s.permits, s.items[0].permit, Leased),
               taken := s.taken + [s.items[0].value]), Done)
    case BeginRelease(p) =>
      if s.permits[p].phase in {Releasing, Gone} then (s, Failed(PermitReleased))
      else (s.(permits := Mark(s.permits, p, Releasing)), Done)
    case EndRelease(p) =>
      if s.permits[p].weight <= 0 || s.used < s.permits[p].weight then (s.(permits := Mark(s.permits, p, Gone)), Failed(PermitReleased))
      else (s.(used := s.used - s.permits[p].weight, permits := Mark(s.permits, p, Gone)), Done)
    case Reserve(weight) =>
      if weight <= 0 then (s, Failed(InvalidWeight))
      else if s.stopped then (s, Failed(QueueStopped))
      else if |s.items| + s.reservations == s.slots then (s, Failed(QueueFull))
      else
        var r := TryAcquire(s, weight, Reserved);
        if r.1 == Done then (r.0.(reservations := s.reservations + 1), Done) else r
    case Commit(p, value, weight) =>
      if weight <= 0 then (s, Failed(InvalidWeight))
      else if s.reservations <= 0 || |s.items| >= s.slots then (s, Failed(Invariant))
      else
        var r := TryReplace(s, p, weight, Queued);
        if r.1 == Done then
          (r.0.(items := s.items + [Item(value, |s.permits|)], reservations := s.reservations - 1, put := s.put + [value]), Done)
        else r
    case ReleaseReservation(p) =>
      if s.reservations <= 0 then (s, Failed(Invariant))
      else (s.(reservations := s.reservations - 1, permits := Mark(s.permits, p, Held)), Done)
    case Replace(p, weight) => TryReplace(s, p, weight, Held)
    case Close => (s.(stopped := true), Done)
  }


  // ---- bookkeeping lemmas

  lemma ChargedSnoc(ps: seq<Permit>, p: Permit)
    ensures Charged(ps + [p]) == Charged(ps) + Charge(p)
  {
    assert (ps + [p])[..|ps|] == ps;
  }

  lemma {:induction false} ChargedUpdate(ps: seq<Permit>, i: nat, q: Permit)
    requires i < |ps|
    ensures Charged(ps[i := q]) == Charged(ps) - Charge(ps[i]) + Charge(q)
  {
    var n := |ps| - 1;
    if i == n {
      assert ps[i := q][..n] == ps[..n];
    } else {
      ChargedUpdate(ps[..n], i, q);
      assert ps[i := q][..n] == ps[..n][i := q];
    }
  }

  lemma {:induction false} ChargeAtMost(ps: seq<Permit>, i: nat)
    requires i < |ps| && forall p :: 0 <= p < |ps| ==> ps[p].weight > 0
    ensures 0 <= Charge(ps[i]) <= Charged(ps)
  {
    var n := |ps| - 1;
    if i < n { ChargeAtMost(ps[..n], i); } else if n > 0 { ChargeAtMost(ps[..n], 0); }
  }

  lemma PhaseSnoc(ps: seq<Permit>, p: Permit, phase: Phase)
    ensures InPhase(ps + [p], phase) == InPhase(ps, phase) + if p.phase == phase then {|ps|} else {}
  {
  }

  lemma PhaseMark(ps: seq<Permit>, i: nat, to: Phase, phase: Phase)
    requires i < |ps|
    ensures InPhase(Mark(ps, i, to), phase) == InPhase(ps, phase) - {i} + if to == phase then {i} else {}
  {
  }

  /** A permit outside the ring and the reservations moves: the slots are as before. */
  lemma MarkElsewhere<T>(items: seq<Item<T>>, reservations: int, slots: nat, ps: seq<Permit>, i: nat, to: Phase)
    requires Slots(items, reservations, slots, ps) && i < |ps|
    requires ps[i].phase !in {Queued, Reserved} && to !in {Queued, Reserved}
    ensures Slots(items, reservations, slots, Mark(ps, i, to))
  {
    PhaseMark(ps, i, to, Queued);
    PhaseMark(ps, i, to, Reserved);
  }

  lemma SnocElsewhere<T>(items: seq<Item<T>>, reservations: int, slots: nat, ps: seq<Permit>, p: Permit)
    requires Slots(items, reservations, slots, ps) && p.phase !in {Queued, Reserved}
    ensures Slots(items, reservations, slots, ps + [p])
  {
    PhaseSnoc(ps, p, Queued);
    PhaseSnoc(ps, p, Reserved);
  }

  lemma SlotsReserve<T>(items: seq<Item<T>>, reservations: int, slots: nat, ps: seq<Permit>, p: Permit)
    requires Slots(items, reservations, slots, ps) && p.phase == Reserved && |items| + reservations < slots
    ensures Slots(items, reservations + 1, slots, ps + [p])
  {
    PhaseSnoc(ps, p, Queued);
    PhaseSnoc(ps, p, Reserved);
  }

  lemma ItemsSnoc<T>(items: seq<Item<T>>, e: Item<T>)
    ensures Values(items + [e]) == Values(items) + [e.value]
    ensures PermitsOf(items + [e]) == PermitsOf(items) + {e.permit}
    ensures DistinctPermits(items) && e.permit !in PermitsOf(items) ==> DistinctPermits(items + [e])
  {
    assert forall x :: x in items + [e] <==> x in items || x == e;
  }

  lemma ItemsTail<T>(items: seq<Item<T>>)
    requires items != [] && DistinctPermits(items)
    ensures Values(items) == [items[0].value] + Values(items[1..])
    ensures PermitsOf(items[1..]) == PermitsOf(items) - {items[0].permit}
    ensures DistinctPermits(items[1..])
  {
    assert items == [items[0]] + items[1..];
    assert forall x :: x in items <==> x == items[0] || x in items[1..];
    forall x | x in items[1..] ensures x.permit != items[0].permit {
      var i :| 0 <= i < |items[1..]| && items[1..][i] == x;
    }
  }

  lemma SlotsPut<T>(items: seq<Item<T>>, reservations: int, slots: nat, ps: seq<Permit>, e: Item<T>)
    requires Slots(items, reservations, slots, ps) && |items| + reservations < slots
    requires e.permit < |ps| && ps[e.permit].phase !in {Queued, Reserved}
    ensures Slots(items + [e], reservations, slots, Mark(ps, e.permit, Queued))
  {
    PhaseMark(ps, e.permit, Queued, Queued);
    PhaseMark(ps, e.permit, Queued, Reserved);
    assert e.permit !in InPhase(ps, Queued);
    ItemsSnoc(items, e);
  }

  lemma SlotsTake<T>(items: seq<Item<T>>, reservations: int, slots: nat, ps: seq<Permit>)
    requires Slots(items, reservations, slots, ps) && items != []
    requires items[0].permit < |ps| && ps[items[0].permit].phase == Queued
    ensures Slots(items[1..], reservations, slots, Mark(ps, items[0].permit, Leased))
  {
    PhaseMark(ps, items[0].permit, Leased, Queued);
    PhaseMark(ps, items[0].permit, Leased, Reserved);
    ItemsTail(items);
  }

  lemma SlotsUnreserve<T>(items: seq<Item<T>>, reservations: int, slots: nat, ps: seq<Permit>, p: nat, to: Phase)
    requires Slots(items, reservations, slots, ps)
    requires p < |ps| && ps[p].phase == Reserved && to !in {Queued, Reserved}
    ensures reservations > 0 && Slots(items, reservations - 1, slots, Mark(ps, p, to))
  {
    PhaseMark(ps, p, to, Queued);
    PhaseMark(ps, p, to, Reserved);
    assert p in InPhase(ps, Reserved);
  }

  lemma SlotsIssue<T>(items: seq<Item<T>>, reservations: int, slots: nat, ps: seq<Permit>, e: Item<T>, q: Permit)
    requires Slots(items, reservations, slots, ps) && |items| + reservations < slots
    requires e.permit == |ps| && q.phase == Queued
    ensures Slots(items + [e], reservations, slots, ps + [q])
  {
    PhaseSnoc(ps, q, Queued);
    PhaseSnoc(ps, q, Reserved);
    assert |ps| !in InPhase(ps, Queued);
    ItemsSnoc(items, e);
  }

  // ---- every section keeps the accounts

  lemma AccountsSnoc(used: int, capacity: int, ps: seq<Permit>, p: Permit)
    requires Accounts(used, capacity, ps) && 0 < p.weight <= capacity - used && !p.phase.Gone?
    requires used >= 0
    ensures Accounts(used + p.weight, capacity, ps + [p])
  {
    ChargedSnoc(ps, p);
  }

  lemma AccountsMark(used: int, capacity: int, ps: seq<Permit>, i: nat, to: Phase)
    requires Accounts(used, capacity, ps) && i < |ps| && !ps[i].phase.Gone?
    ensures 0 < ps[i].weight <= used
    ensures Accounts(if to.Gone? then used - ps[i].weight else used, capacity, Mark(ps, i, to))
  {
    ChargeAtMost(ps, i);
    ChargedUpdate(ps, i, ps[i].(phase := to));
  }

  lemma {:induction false} ChargedNonNegative(ps: seq<Permit>)
    requires forall p :: 0 <= p < |ps| ==> ps[p].weight > 0
    ensures Charged(ps) >= 0
  {
    if ps != [] { ChargedNonNegative(ps[..|ps|-1]); }
  }

  // ---- every step keeps the invariant

  lemma AcquireKeeps<T>(s: Sys<T>, weight: int)
    requires Inv(s)
    ensures Inv(Step(s, Acquire(weight)).0)
  {
    if TryAcquire(s, weight, Held).1 == Done {
      ChargedNonNegative(s.permits);
      AccountsSnoc(s.used, s.capacity, s.permits, Permit(weight, Held));
      SnocElsewhere(s.items, s.reservations, s.slots, s.permits, Permit(weight, Held));
    }
  }

  lemma ReserveKeeps<T>(s: Sys<T>, weight: int)
    requires Inv(s)
    ensures Inv(Step(s, Reserve(weight)).0)
  {
    if Step(s, Reserve(weight)).1 == Done {
      var p := Permit(weight, Reserved);
      ChargedNonNegative(s.permits);
      AccountsSnoc(s.used, s.capacity, s.permits, p);
      SlotsReserve(s.items, s.reservations, s.slots, s.permits, p);
    }
  }

  lemma PutKeeps<T>(s: Sys<T>, p: nat, value: T, weight: int)
    requires Inv(s) && Owns(s, p, Held)
    ensures Inv(Step(s, PutReserved(p, value, weight)).0)
  {
    if Step(s, PutReserved(p, value, weight)).1 == Done {
      AccountsMark(s.used, s.capacity, s.permits, p, Queued);
      SlotsPut(s.items, s.reservations, s.slots, s.permits, Item(value, p));
      ItemsSnoc(s.items, Item(value, p));
    }
  }

  lemma TakeKeeps<T>(s: Sys<T>)
    requires Inv(s)
    ensures Inv(Step(s, Take).0)
  {
    if s.items != [] {
      InRing(s, 0);
      AccountsMark(s.used, s.capacity, s.permits, s.items[0].permit, Leased);
      SlotsTake(s.items, s.reservations, s.slots, s.permits);
      ItemsTail(s.items);
    }
  }

  lemma BeginReleaseKeeps<T>(s: Sys<T>, p: nat)
    requires Inv(s) && Enabled(s, BeginRelease(p))
    ensures Inv(Step(s, BeginRelease(p)).0)
  {
    if s.permits[p].phase in {Held, Leased} {
      AccountsMark(s.used, s.capacity, s.permits, p, Releasing);
      MarkElsewhere(s.items, s.reservations, s.slots, s.permits, p, Releasing);
    }
  }

  /** The budget is never short when a release reaches it. */
  lemma EndReleaseKeeps<T>(s: Sys<T>, p: nat)
    requires Inv(s) && Enabled(s, EndRelease(p))
    ensures Inv(Step(s, EndRelease(p)).0) && Step(s, EndRelease(p)).1 == Done
  {
    AccountsMark(s.used, s.capacity, s.permits, p, Gone);
    MarkElsewhere(s.items, s.reservations, s.slots, s.permits, p, Gone);
  }

  /** Trading a live permit within the capacity. */
  lemma AccountsTrade(used: int, capacity: int, ps: seq<Permit>, i: nat, weight: int, phase: Phase)
    requires Accounts(used, capacity, ps) && i < |ps| && !ps[i].phase.Gone? && !phase.Gone?
    requires 0 < weight <= capacity && used + weight - ps[i].weight <= capacity
    ensures Accounts(used + weight - ps[i].weight, capacity, Mark(ps, i, Gone) + [Permit(weight, phase)])
  {
    AccountsMark(used, capacity, ps, i, Gone);
    AccountsSnoc(used - ps[i].weight, capacity, Mark(ps, i, Gone), Permit(weight, phase));
  }

  lemma ReplaceKeeps<T>(s: Sys<T>, p: nat, weight: int)
    requires Inv(s) && Enabled(s, Replace(p, weight))
    ensures Inv(Step(s, Replace(p, weight)).0)
  {
    if TryReplace(s, p, weight, Held).1 == Done {
      AccountsTrade(s.used, s.capacity, s.permits, p, weight, Held);
      MarkElsewhere(s.items, s.reservations, s.slots, s.permits, p, Gone);
      SnocElsewhere(s.items, s.reservations, s.slots, Mark(s.permits, p, Gone), Permit(weight, Held));
    }
  }

  lemma CommitKeeps<T>(s: Sys<T>, p: nat, value: T, weight: int)
    requires Inv(s) && Owns(s, p, Reserved)
    ensures Inv(Step(s, Commit(p, value, weight)).0)
  {
    if Step(s, Commit(p, value, weight)).1 == Done {
      assert s.used <= s.capacity;
      hide Accounts, Slots;
      var e, q := Item(value, |s.permits|), Permit(weight, Queued);
      AccountsTrade(s.used, s.capacity, s.permits, p, weight, Queued);
      SlotsUnreserve(s.items, s.reservations, s.slots, s.permits, p, Gone);
      SlotsIssue(s.items, s.reservations - 1, s.slots, Mark(s.permits, p, Gone), e, q);
      ItemsSnoc(s.items, e);
    }
  }

  lemma ReleaseReservationKeeps<T>(s: Sys<T>, p: nat)
    requires Inv(s) && Owns(s, p, Reserved)
    ensures Inv(Step(s, ReleaseReservation(p)).0) && Step(s, ReleaseReservation(p)).1 == Done
  {
    AccountsMark(s.used, s.capacity, s.permits, p, Held);
    SlotsUnreserve(s.items, s.reservations, s.slots, s.permits, p, Held);
  }

  /** Conservation: whatever the interleaving, one section keeps the accounts. */
  lemma StepKeepsInv<T>(s: Sys<T>, op: Op<T>)
    requires Inv(s) && Enabled(s, op)
    ensures Inv(Step(s, op).0)
  {
    match op
    case Acquire(weight) => AcquireKeeps(s, weight);
    case PutReserved(p, value, weight) => PutKeeps(s, p, value, weight);
    case Take => TakeKeeps(s);
    case BeginRelease(p) => BeginReleaseKeeps(s, p);
    case EndRelease(p) => EndReleaseKeeps(s, p);
    case Reserve(weight) => ReserveKeeps(s, weight);
    case Commit(p, value, weight) => CommitKeeps(s, p, value, weight);
    case ReleaseReservation(p) => ReleaseReservationKeeps(s, p);
    case Replace(p, weight) => ReplaceKeeps(s, p, weight);
    case Close =>
  }

  // ---- whole runs, in any interleaving

  ghost predicate Runnable<T>(s: Sys<T>, ops: seq<Op<T>>)
    requires Inv(s)
    decreases |ops|
  {
    ops == [] || (Enabled(s, ops[0]) && (StepKeepsInv(s, ops[0]); Runnable(Step(s, ops[0]).0, ops[1..])))
  }

  ghost function RunAll<T>(s: Sys<T>, ops: seq<Op<T>>): Sys<T>
    requires Inv(s) && Runnable(s, ops)
    decreases |ops|
  {
    if ops == [] then s else StepKeepsInv(s, ops[0]); RunAll(Step(s, ops[0]).0, ops[1..])
  }

  predicate Empty<T>(s: Sys<T>) {
    s.used == 0 && s.permits == [] && s.items == [] && s.reservations == 0 && s.put == [] && s.taken == []
  }

  lemma EmptyHasInv<T>(s: Sys<T>)
    requires Empty(s) && s.capacity > 0
    ensures Inv(s)
  {
    assert InPhase(s.permits, Queued) == {} && InPhase(s.permits, Reserved) == {};
    assert Values(s.items) == [];
  }

  /** One section: permits are never reissued or revived, values are only appended
      to the logs. */
  ghost predicate Follows<T>(s: Sys<T>, t: Sys<T>) {
    && t.capacity == s.capacity && t.slots == s.slots
    && s.put <= t.put && s.taken <= t.taken
    && |s.permits| <= |t.permits|
    && forall p :: 0 <= p < |s.permits| ==>
         t.permits[p].weight == s.permits[p].weight && (Owns(s, p, Gone) ==> Owns(t, p, Gone))
  }

  lemma StepFollows<T>(s: Sys<T>, op: Op<T>)
    requires Inv(s) && Enabled(s, op)
    ensures Follows(s, Step(s, op).0)
  {
    if op.Take? && s.items != [] { InRing(s, 0); }
  }

  /** Over every run: the accounts balance, no entry or reservation exceeds the
      slots, what has left is a prefix of what was put, the ring holds the rest in
      order, and a discharged permit stays discharged. */
  lemma {:induction false} RunConserves<T>(s: Sys<T>, ops: seq<Op<T>>)
    requires Inv(s) && Runnable(s, ops)
    ensures var t := RunAll(s, ops);
            && Inv(t) && Follows(s, t)
            && t.used == Charged(t.permits) <= t.capacity
            && |t.items| + t.reservations <= t.slots
            && t.put == t.taken + Values(t.items)
    decreases |ops|
  {
    if ops != [] {
      var t := Step(s, ops[0]).0;
      StepKeepsInv(s, ops[0]);
      StepFollows(s, ops[0]);
      RunConserves(t, ops[1..]);
      FollowsTrans(s, t, RunAll(t, ops[1..]));
    }
  }

  lemma FollowsTrans<T>(a: Sys<T>, b: Sys<T>, c: Sys<T>)
    requires Follows(a, b) && Follows(b, c)
    ensures Follows(a, c)
  {
    assert a.put == b.put[..|a.put|] && b.put == c.put[..|b.put|];
    assert a.taken == b.taken[..|a.taken|] && b.taken == c.taken[..|b.taken|];
  }

  /** The permits an operation discharges: each was live before, so with
      Follows no permit is ever discharged twice. */
  lemma DischargeFreesOnce<T>(s: Sys<T>, op: Op<T>, p: nat)
    requires Inv(s) && Enabled(s, op) && p < |s.permits|
    ensures Owns(s, p, Gone) ==> (op == BeginRelease(p) || (op.Replace? && op.permit == p && 0 < op.weight <= s.capacity)) ==>
              Step(s, op) == (s, Failed(PermitReleased))
    ensures !Owns(s, p, Gone) && Owns(Step(s, op).0, p, Gone) ==>
              Step(s, op).1 == Done && (op == EndRelease(p) || ((op.Commit? || op.Replace?) && op.permit == p))
  {
    if op.Take? && s.items != [] { InRing(s, 0); }
    if op == EndRelease(p) { EndReleaseKeeps(s, p); }
  }

  // ---- reservations

  /** Only its owner ends a reservation. */
  predicate Foreign<T>(op: Op<T>, p: nat) {
    !((op.Commit? || op.ReleaseReservation?) && op.permit == p)
  }

  lemma ForeignKeepsReservation<T>(s: Sys<T>, op: Op<T>, p: nat)
    requires Inv(s) && Enabled(s, op) && Owns(s, p, Reserved) && Foreign(op, p)
    ensures Owns(Step(s, op).0, p, Reserved) && Step(s, op).0.permits[p].weight == s.permits[p].weight
  {
    if op.Take? && s.items != [] { InRing(s, 0); }
  }

  lemma {:induction false} ForeignRunKeepsReservation<T>(s: Sys<T>, ops: seq<Op<T>>, p: nat)
    requires Inv(s) && Runnable(s, ops) && Owns(s, p, Reserved)
    requires forall op :: op in ops ==> Foreign(op, p)
    ensures Owns(RunAll(s, ops), p, Reserved) && RunAll(s, ops).permits[p].weight == s.permits[p].weight
    decreases |ops|
  {
    if ops != [] {
      StepKeepsInv(s, ops[0]);
      assert ops[0] in ops;
      ForeignKeepsReservation(s, ops[0], p);
      ForeignRunKeepsReservation(Step(s, ops[0]).0, ops[1..], p);
    }
  }

  /** Once capacity is reserved, a value no heavier than the reservation always
      commits: into a full-looking or even a stopped queue. */
  lemma CommitCannotFail<T>(s: Sys<T>, p: nat, value: T, weight: int)
    requires Inv(s) && Owns(s, p, Reserved) && 0 < weight <= s.permits[p].weight
    ensures var (t, r) := Step(s, Commit(p, value, weight));
            && r == Done
            && Values(t.items) == Values(s.items) + [value]
            && t.reservations == s.reservations - 1
            && t.used == s.used - s.permits[p].weight + weight
  {
    SlotsUnreserve(s.items, s.reservations, s.slots, s.permits, p, Gone);
    ItemsSnoc(s.items, Item(value, |s.permits|));
  }

  lemma RunCons<T>(s: Sys<T>, op: Op<T>, rest: seq<Op<T>>)
    requires Inv(s) && Enabled(s, op)
    requires Inv(Step(s, op).0) && Runnable(Step(s, op).0, rest)
    ensures Runnable(s, [op] + rest) && RunAll(s, [op] + rest) == RunAll(Step(s, op).0, rest)
  {
    assert ([op] + rest)[1..] == rest;
  }

  function Abandon<T>(p: nat): seq<Op<T>> { [ReleaseReservation(p)] + ([BeginRelease(p)] + ([EndRelease(p)] + [])) }

  /** Giving a reservation up returns its slot and its bytes. */
  lemma ReservationReleases<T>(s: Sys<T>, p: nat)
    requires Inv(s) && Owns(s, p, Reserved)
    ensures Runnable(s, Abandon(p))
    ensures var t := RunAll(s, Abandon(p));
            && t.items == s.items && t.reservations == s.reservations - 1
            && t.used == s.used - s.permits[p].weight && Owns(t, p, Gone)
  {
    hide Accounts, Slots;
    ReleaseReservationKeeps(s, p);
    var a := Step(s, ReleaseReservation(p)).0;
    BeginReleaseKeeps(a, p);
    var b := Step(a, BeginRelease(p)).0;
    EndReleaseKeeps(b, p);
    RunCons(b, EndRelease(p), []);
    RunCons(a, BeginRelease(p), [EndRelease(p)] + []);
    RunCons(s, ReleaseReservation(p), [BeginRelease(p)] + ([EndRelease(p)] + []));
  }
}
