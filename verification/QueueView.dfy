/** What callers see of the weighted queue, and how each operation changes it. The
    objects of BoundedQueue and the machine of QueueMachine both follow it, so what holds
    over all interleavings of the machine is said of the objects' mutex sections. */
module QueueView {
  import opened QueueErrors
  import M = QueueMachine

  datatype View<T> = View(capacity: int, slots: nat, used: int, reservations: int, stopped: bool, values: seq<T>)

  /** An operation with what it is handed: the weight behind a permit and whether that
      permit is spent. */
  datatype Act<T> =
    | Puts(value: T, weight: int, owned: int, spent: bool)
    | Takes
    | Frees(owned: int, spent: bool)
    | Reserves(weight: int)
    | Commits(value: T, weight: int, owned: int)
    | GivesBack(owned: int)
    | Closes

  /** Charging a new permit against the capacity. */
  function Charged(used: int, capacity: int, weight: int): (int, Result) {
    if weight <= 0 || weight > capacity then (used, Failed(InvalidWeight))
    else if used + weight > capacity then (used, Failed(QueueFull)) else (used + weight, Done)
  }

  /** Trading a permit for one of another weight. */
  function Traded(used: int, capacity: int, weight: int, owned: int, spent: bool): (int, Result) {
    if weight <= 0 || weight > capacity then (used, Failed(InvalidWeight))
    else if spent then (used, Failed(PermitReleased))
    else if weight > owned && used + weight - owned > capacity then (used, Failed(QueueFull))
    else (used + weight - owned, Done)
  }

  /** Discharging a permit. */
  function Freed(used: int, owned: int, spent: bool): (int, Result) {
    if spent then (used, Failed(PermitReleased)) else (used - owned, Done)
  }

  function Acts<T>(v: View<T>, a: Act<T>): (View<T>, Result) {
    match a
    case Puts(value, weight, owned, spent) =>
      if spent || weight <= 0 || weight != owned then (v, Failed(InvalidWeight))
      else if v.stopped then (v, Failed(QueueStopped))
      else if |v.values| + v.reservations == v.slots then (v, Failed(QueueFull))
      else (v.(values := v.values + [value]), Done)
    case Takes =>
      if v.values == [] then (v, Failed(QueueStopped)) else (v.(values := v.values[1..]), Done)
    case Frees(owned, spent) => var (used, r) := Freed(v.used, owned, spent); (v.(used := used), r)
    case Reserves(weight) =>
      if weight <= 0 then (v, Failed(InvalidWeight))
      else if v.stopped then (v, Failed(QueueStopped))
      else if |v.values| + v.reservations == v.slots then (v, Failed(QueueFull))
      else
        var (used, r) := Charged(v.used, v.capacity, weight);
        if r == Done then (v.(used := used, reservations := v.reservations + 1), Done) else (v, r)
    case Commits(value, weight, owned) =>
      var (used, r) := Traded(v.used, v.capacity, weight, owned, false);
      if r == Done then (v.(used := used, reservations := v.reservations - 1, values := v.values + [value]), Done) else (v, r)
    case GivesBack(owned) => (v.(used := v.used - owned, reservations := v.reservations - 1), Done)
    case Closes => (v.(stopped := true), Done)
  }

  // ---- the machine follows the view

  function Seen<T>(s: M.Sys<T>): View<T> { View(s.capacity, s.slots, s.used, s.reservations, s.stopped, M.Values(s.items)) }

  ghost function Stepped<T>(s: M.Sys<T>, op: M.Op<T>): (View<T>, Result)
    requires M.Inv(s) && M.Enabled(s, op)
  {
    (Seen(M.Step(s, op).0), M.Step(s, op).1)
  }

  lemma PutSeen<T>(s: M.Sys<T>, p: nat, value: T, weight: int)
    requires M.Inv(s) && M.Enabled(s, M.PutReserved(p, value, weight))
    ensures Stepped(s, M.PutReserved(p, value, weight)) == Acts(Seen(s), Puts(value, weight, s.permits[p].weight, false))
  {
    M.ItemsSnoc(s.items, M.Item(value, p));
  }

  lemma TakeSeen<T>(s: M.Sys<T>)
    requires M.Inv(s)
    ensures Stepped(s, M.Take) == Acts(Seen(s), Takes)
  {
    if s.items != [] { M.ItemsTail(s.items); }
  }

  lemma ReserveSeen<T>(s: M.Sys<T>, weight: int)
    requires M.Inv(s)
    ensures Stepped(s, M.Reserve(weight)) == Acts(Seen(s), Reserves(weight))
  {
  }

  lemma CommitSeen<T>(s: M.Sys<T>, p: nat, value: T, weight: int)
    requires M.Inv(s) && M.Enabled(s, M.Commit(p, value, weight))
    ensures Stepped(s, M.Commit(p, value, weight)) == Acts(Seen(s), Commits(value, weight, s.permits[p].weight))
  {
    M.SlotsUnreserve(s.items, s.reservations, s.slots, s.permits, p, M.Gone);
    M.ItemsSnoc(s.items, M.Item(value, |s.permits|));
  }

  lemma CloseSeen<T>(s: M.Sys<T>)
    requires M.Inv(s)
    ensures Stepped(s, M.Close) == Acts(Seen(s), Closes)
  {
  }

  /** A release is two sections, the flag and the budget; together they free the weight
      once. */
  lemma ReleaseSeen<T>(s: M.Sys<T>, p: nat)
    requires M.Inv(s) && M.Enabled(s, M.BeginRelease(p))
    ensures var t := M.Step(s, M.BeginRelease(p)).0;
      if s.permits[p].phase in {M.Releasing, M.Gone} then Stepped(s, M.BeginRelease(p)) == Acts(Seen(s), Frees(s.permits[p].weight, true))
      else
        && M.Inv(t) && M.Enabled(t, M.EndRelease(p))
        && Stepped(t, M.EndRelease(p)) == Acts(Seen(s), Frees(s.permits[p].weight, false))
  {
    M.BeginReleaseKeeps(s, p);
    if s.permits[p].phase !in {M.Releasing, M.Gone} {
      M.EndReleaseKeeps(M.Step(s, M.BeginRelease(p)).0, p);
    }
  }

  /** Giving a reservation back is a section of the queue and then a release. */
  lemma GiveBackSeen<T>(s: M.Sys<T>, p: nat)
    requires M.Inv(s) && M.Owns(s, p, M.Reserved)
    ensures M.Runnable(s, M.Abandon(p))
    ensures (Seen(M.RunAll(s, M.Abandon(p))), Done) == Acts(Seen(s), GivesBack(s.permits[p].weight))
  {
    M.ReservationReleases(s, p);
    M.RunConserves(s, M.Abandon(p));
    AbandonKeepsOpen(s, p);
  }

  lemma AbandonKeepsOpen<T>(s: M.Sys<T>, p: nat)
    requires M.Inv(s) && M.Owns(s, p, M.Reserved) && M.Runnable(s, M.Abandon(p))
    ensures M.RunAll(s, M.Abandon(p)).stopped == s.stopped
  {
    NeverReopens(s, M.Abandon(p));
  }

  lemma {:induction false} NeverReopens<T>(s: M.Sys<T>, ops: seq<M.Op<T>>)
    requires M.Inv(s) && M.Runnable(s, ops) && forall op :: op in ops ==> !op.Close?
    ensures M.RunAll(s, ops).stopped == s.stopped
    decreases |ops|
  {
    if ops != [] {
      M.StepKeepsInv(s, ops[0]);
      assert ops[0] in ops;
      NeverReopens(M.Step(s, ops[0]).0, ops[1..]);
    }
  }
}
