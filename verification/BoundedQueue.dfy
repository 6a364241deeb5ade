/** The queue, the byte budget and the permits as the objects they are: a ring of
    envelopes, a counter, and flags flipped in place. Each method is one mutex
    section and does what QueueView says of it; QueueMachine, which does the same, is
    about their interleavings. */
module BoundedQueue {
  import opened QueueErrors
  import opened Wrappers
  import V = QueueView

  ghost function Weight(ps: set<Permit>): int {
    if ps == {} then 0 else var p :| p in ps; p.weight + Weight(ps - {p})
  }

  lemma {:induction false} WeightWithout(ps: set<Permit>, p: Permit)
    requires p in ps
    ensures Weight(ps) == p.weight + Weight(ps - {p})
  {
    var q :| q in ps && Weight(ps) == q.weight + Weight(ps - {q});
    if q != p {
      WeightWithout(ps - {q}, p);
      WeightWithout(ps - {p}, q);
      assert ps - {q} - {p} == ps - {p} - {q};
    }
  }

  lemma WeightWith(ps: set<Permit>, p: Permit)
    requires p !in ps
    ensures Weight(ps + {p}) == Weight(ps) + p.weight
  {
    WeightWithout(ps + {p}, p);
    assert ps + {p} - {p} == ps;
  }

  lemma {:induction false} WeightNonNegative(ps: set<Permit>)
    requires forall p :: p in ps ==> p.weight > 0
    ensures Weight(ps) >= 0
  {
    if p :| p in ps {
      WeightWithout(ps, p);
      WeightNonNegative(ps - {p});
    }
  }

  class Permit {
    const budget: ByteBudget
    const weight: int
    var released: bool

    constructor (budget: ByteBudget, weight: int)
      ensures this.budget == budget && this.weight == weight && !released
    {
      this.budget, this.weight, released := budget, weight, false;
    }

    /** A permit its budget still counts. */
    ghost predicate Live()
      reads budget
    {
      this in budget.live
    }

    method Release() returns (r: Result)
      requires budget.Valid() && (released || Live())
      modifies this, budget
      ensures budget.Valid() && released
      ensures (budget.used, r) == V.Freed(old(budget.used), weight, old(released))
      ensures budget.live == old(budget.live) - {this}
    {
      if released {
        return Failed(PermitReleased);
      }
      WeightWithout(budget.live, this);
      WeightNonNegative(budget.live - {this});
      released := true;
      if weight <= 0 || budget.used < weight {
        return Failed(PermitReleased);
      }
      budget.used := budget.used - weight;
      budget.live := budget.live - {this};
      return Done;
    }
  }

  class ByteBudget {
    const capacity: int
    var used: int
    /** The permits not yet discharged. */
    ghost var live: set<Permit>

    ghost predicate Valid()
      reads this, live
    {
      && capacity > 0 && used == Weight(live) && used <= capacity
      && forall p :: p in live ==> p.budget == this && !p.released && 0 < p.weight <= capacity
    }

    constructor (capacity: int)
      requires capacity > 0
      ensures Valid() && this.capacity == capacity && live == {}
    {
      this.capacity := capacity;
      used, live := 0, {};
    }

    method TryAcquire(weight: int) returns (r: Result, permit: Permit?)
      requires Valid()
      modifies this
      ensures Valid()
      ensures (used, r) == V.Charged(old(used), capacity, weight)
      ensures r == Done <==> permit != null
      ensures r == Done ==> fresh(permit) && permit.weight == weight && permit.budget == this && !permit.released
      ensures live == if r == Done then old(live) + {permit} else old(live)
    {
      if weight <= 0 || weight > capacity {
        return Failed(InvalidWeight), null;
      }
      if used > capacity - weight {
        return Failed(QueueFull), null;
      }
      used := used + weight;
      var p := new Permit(this, weight);
      WeightWith(live, p);
      live := live + {p};
      return Done, p;
    }

    method Replace(existing: Permit, newWeight: int) returns (r: Result, permit: Permit?)
      requires Valid() && existing.budget == this && (existing.released || existing.Live())
      modifies this, existing
      ensures Valid()
      ensures (used, r) == V.Traded(old(used), capacity, newWeight, existing.weight, old(existing.released))
      ensures r == Done <==> permit != null
      ensures r == Done ==> fresh(permit) && permit.weight == newWeight && permit.budget == this && !permit.released
      ensures existing.released == (old(existing.released) || r == Done)
      ensures live == if r == Done then old(live) - {existing} + {permit} else old(live)
    {
      if newWeight <= 0 || newWeight > capacity {
        return Failed(InvalidWeight), null;
      }
      if existing.released {
        return Failed(PermitReleased), null;
      }
      var extra := newWeight - existing.weight;
      if extra > 0 && used > capacity - extra {
        return Failed(QueueFull), null;
      }
      existing.released := true;
      used := used + extra;
      var p := new Permit(this, newWeight);
      WeightWithout(live, existing);
      WeightWith(live - {existing}, p);
      live := live - {existing} + {p};
      return Done, p;
    }
  }

  datatype Envelope<T> = Envelope(value: T, permit: Permit)

  function Values<T>(s: seq<Envelope<T>>): seq<T> { seq(|s|, i requires 0 <= i < |s| => s[i].value) }

  lemma ValuesNext<T>(s: seq<Envelope<T>>, e: Envelope<T>)
    ensures Values(s + [e]) == Values(s) + [e.value]
  {
  }

  /** A ring position n steps past another. */
  function Wrap(i: nat, n: nat): nat
    requires 0 < n && i < 2 * n
  {
    if i < n then i else i - n
  }

  lemma WrapIsModulo(i: nat, n: nat)
    requires 0 < n && i < 2 * n
    ensures i % n == Wrap(i, n)
  {
    if n <= i { assert i == (i - n) + n; ModuloShift(i - n, n); }
  }

  lemma ModuloShift(r: nat, n: nat)
    requires r < n
    ensures (r + n) % n == r
  {
    assert r + n == n * 1 + r;
  }

  class Reservation<T> {
    const queue: Queue<T>
    var permit: Permit?
    var active: bool

    constructor (queue: Queue<T>, permit: Permit)
      ensures this.queue == queue && this.permit == permit && active
    {
      this.queue, this.permit, active := queue, permit, true;
    }
  }

  /** A ring of envelopes behind one lock. */
  class Queue<T> {
    const budget: ByteBudget
    const storage: array<Option<Envelope<T>>>
    var head: nat
    var tail: nat
    var count: nat
    var reservations: nat
    var stopped: bool
    /** The ring's entries, oldest first. */
    ghost var contents: seq<Envelope<T>>

    function Slot(i: nat): Option<Envelope<T>>
      reads this, storage
      requires storage.Length > 0 && head < storage.Length && i < storage.Length
    {
      storage[Wrap(head + i, storage.Length)]
    }

    ghost predicate RingOk()
      reads this, storage
    {
      && storage.Length > 0 && head < storage.Length && count <= storage.Length
      && tail == Wrap(head + count, storage.Length)
      && |contents| == count
      && forall i :: 0 <= i < count ==> Slot(i) == Some(contents[i])
    }

    /** A permit that no entry of the ring carries. */
    ghost predicate Outside(p: Permit)
      reads this
    {
      forall e :: e in contents ==> e.permit != p
    }

    ghost predicate Valid()
      reads this, storage, budget, budget.live
    {
      && RingOk() && budget.Valid() && count + reservations <= storage.Length
      && (forall e :: e in contents ==> e.permit in budget.live)
      && (forall i, j :: 0 <= i < j < count ==> contents[i].permit != contents[j].permit)
    }

    /** What callers can observe. */
    ghost function Seen(): V.View<T>
      reads this, budget
    {
      V.View(budget.capacity, storage.Length, budget.used, reservations, stopped, Values(contents))
    }

    constructor (entries: nat, budget: ByteBudget)
      requires entries > 0 && budget.Valid()
      ensures Valid() && contents == [] && reservations == 0 && !stopped && this.budget == budget
      ensures storage.Length == entries && fresh(storage)
    {
      this.budget := budget;
      storage := new Option<Envelope<T>>[entries](_ => None);
      head, tail, count, reservations, stopped := 0, 0, 0, 0, false;
      contents := [];
    }

    /** Appends a value whose weight is already acquired. */
    method PutReserved(value: T, owned: Permit, weight: int) returns (r: Result)
      requires Valid() && owned.budget == budget && (owned.released || owned.Live()) && Outside(owned)
      modifies this`tail, this`count, this`contents, storage
      ensures Valid()
      ensures (Seen(), r) == V.Acts(old(Seen()), V.Puts(value, weight, owned.weight, owned.released))
      ensures contents == if r == Done then old(contents) + [Envelope(value, owned)] else old(contents)
    {
      if owned.released || weight <= 0 || weight != owned.weight {
        return Failed(InvalidWeight);
      }
      if stopped {
        return Failed(QueueStopped);
      }
      if count + reservations == storage.Length {
        return Failed(QueueFull);
      }
      ValuesNext(contents, Envelope(value, owned));
      Append(value, owned);
      return Done;
    }

    method Append(value: T, owned: Permit)
      requires RingOk() && count < storage.Length
      modifies this`tail, this`count, this`contents, storage
      ensures RingOk() && contents == old(contents) + [Envelope(value, owned)]
    {
      WrapIsModulo(tail + 1, storage.Length);
      storage[tail] := Some(Envelope(value, owned));
      tail := (tail + 1) % storage.Length;
      count := count + 1;
      contents := contents + [Envelope(value, owned)];
    }

    /** Fills a reserved slot. */
    method AppendReserved(value: T, owned: Permit)
      requires RingOk() && count < storage.Length && reservations > 0
      modifies this`tail, this`count, this`contents, this`reservations, storage
      ensures RingOk() && contents == old(contents) + [Envelope(value, owned)] && reservations == old(reservations) - 1
      ensures Values(contents) == old(Values(contents)) + [value]
    {
      ValuesNext(contents, Envelope(value, owned));
      Append(value, owned);
      reservations := reservations - 1;
    }

    method RemoveFirst() returns (item: Envelope<T>)
      requires RingOk() && count > 0
      modifies this`head, this`count, this`contents, storage
      ensures RingOk() && item == old(contents)[0] && contents == old(contents)[1..]
    {
      WrapIsModulo(head + 1, storage.Length);
      assert Slot(0) == Some(contents[0]);
      item := storage[head].value;
      storage[head] := None;
      head := (head + 1) % storage.Length;
      count := count - 1;
      contents := contents[1..];
      assert forall i :: 0 <= i < count ==> Slot(i) == old(Slot(i + 1));
    }

    method TryTake() returns (item: Option<Envelope<T>>)
      requires Valid()
      modifies this`head, this`count, this`contents, storage
      ensures Valid()
      ensures (Seen(), if item.None? then Failed(QueueStopped) else Done) == V.Acts(old(Seen()), V.Takes)
      ensures item == if old(contents) == [] then None else Some(old(contents)[0])
      ensures contents == if old(contents) == [] then [] else old(contents)[1..]
      ensures item.Some? ==> item.value.permit.budget == budget && item.value.permit.Live() && Outside(item.value.permit)
    {
      if count == 0 {
        return None;
      }
      assert contents[0] in contents;
      assert Values(contents[1..]) == Values(contents)[1..];
      var e := RemoveFirst();
      return Some(e);
    }

    /** Takes one entry and releases its lease. */
    method DrainOne() returns (drained: bool)
      requires Valid()
      modifies this`head, this`count, this`contents, storage, budget, budget.live
      ensures Valid()
      ensures drained <==> old(contents) != []
      ensures contents == if drained then old(contents)[1..] else []
      ensures budget.live == if drained then old(budget.live) - {old(contents)[0].permit} else old(budget.live)
      ensures budget.used == old(budget.used) - if drained then old(contents)[0].permit.weight else 0
    {
      var item := TryTake();
      if item.None? {
        return false;
      }
      var r := item.value.permit.Release();
      return true;
    }

    /** Takes and releases until the ring is empty. */
    method DrainAndRelease() returns (drained: nat)
      requires Valid()
      modifies this`head, this`count, this`contents, storage, budget, budget.live
      ensures Valid() && contents == [] && drained == |old(contents)|
      ensures budget.live == old(budget.live) - Permits(old(contents))
    {
      drained := 0;
      var more := true;
      assert old(contents)[0..] == old(contents);
      while more
        invariant Valid() && drained <= |old(contents)| && contents == old(contents)[drained..]
        invariant budget.live == old(budget.live) - Permits(old(contents)[..drained])
        invariant !more ==> contents == []
        decreases count + if more then 1 else 0
      {
        more := DrainOne();
        if more {
          PermitsNext(old(contents), drained);
          drained := drained + 1;
        }
      }
      assert old(contents)[..drained] == old(contents);
    }

    method Close()
      requires Valid()
      modifies this`stopped
      ensures Valid() && (Seen(), Done) == V.Acts(old(Seen()), V.Closes)
    {
      stopped := true;
    }

    /** Reserves one slot and its bytes before the value exists. */
    method TryReserveCapacity(weight: int) returns (r: Result, reservation: Reservation?<T>)
      requires Valid()
      modifies this`reservations, budget
      ensures Valid()
      ensures (Seen(), r) == V.Acts(old(Seen()), V.Reserves(weight))
      ensures r == Done <==> reservation != null
      ensures r == Done ==> fresh(reservation) && Backed(reservation) && fresh(reservation.permit) && reservation.permit.weight == weight
    {
      if weight <= 0 {
        return Failed(InvalidWeight), null;
      }
      if stopped {
        return Failed(QueueStopped), null;
      }
      if count + reservations == storage.Length {
        return Failed(QueueFull), null;
      }
      var owned;
      r, owned := budget.TryAcquire(weight);
      if r.Failed? {
        return r, null;
      }
      reservations := reservations + 1;
      reservation := new Reservation(this, owned);
    }

    /** An unspent reservation of this queue and the permit behind it. */
    ghost predicate Backed(reservation: Reservation<T>)
      reads this, budget, reservation
    {
      && reservation.queue == this && reservation.active && reservations > 0
      && reservation.permit != null && reservation.permit.budget == budget
      && reservation.permit in budget.live && Outside(reservation.permit)
    }

    /** Puts the value in the reserved slot; a value no heavier than the reservation
        is always accepted. */
    method Commit(reservation: Reservation<T>, value: T, weight: int) returns (r: Result)
      requires Valid() && (reservation.active ==> Backed(reservation))
      modifies this`tail, this`count, this`contents, this`reservations, storage, budget, reservation, reservation.permit
      ensures Valid()
      ensures !old(reservation.active) ==> r == Failed(PermitReleased) && Seen() == old(Seen())
      ensures old(reservation.active) ==> (Seen(), r) == V.Acts(old(Seen()), V.Commits(value, weight, old(reservation.permit).weight))
      ensures old(reservation.active) && 0 < weight <= old(reservation.permit).weight ==> r == Done
      ensures r == Done ==>
        && |contents| == |old(contents)| + 1 && contents[..|old(contents)|] == old(contents)
        && contents[|old(contents)|].value == value && contents[|old(contents)|].permit.weight == weight
        && !reservation.active
      ensures r != Done ==> contents == old(contents) && reservation.active == old(reservation.active)
    {
      if !reservation.active || reservation.permit == null {
        return Failed(PermitReleased);
      }
      hide RingOk, Values;
      if weight <= 0 {
        return Failed(InvalidWeight);
      }
      if reservations <= 0 || count >= storage.Length {
        return Failed(Invariant);
      }
      var replacement;
      r, replacement := budget.Replace(reservation.permit, weight);
      if r.Failed? {
        return;
      }
      AppendReserved(value, replacement);
      reservation.permit, reservation.active := null, false;
    }

    method ReleaseReservation(reservation: Reservation<T>) returns (r: Result)
      requires Valid() && (reservation.active ==> Backed(reservation))
      modifies this`reservations, budget, reservation, reservation.permit
      ensures Valid() && !reservation.active
      ensures !old(reservation.active) ==> r == Failed(PermitReleased) && Seen() == old(Seen())
      ensures old(reservation.active) ==> (Seen(), r) == V.Acts(old(Seen()), V.GivesBack(old(reservation.permit).weight))
    {
      if !reservation.active || reservation.permit == null {
        return Failed(PermitReleased);
      }
      if reservations <= 0 {
        return Failed(Invariant);
      }
      var owned := reservation.permit;
      reservations := reservations - 1;
      reservation.permit, reservation.active := null, false;
      r := owned.Release();
    }
  }

  ghost function Permits<T>(s: seq<Envelope<T>>): set<Permit> { set e | e in s :: e.permit }

  lemma PermitsNext<T>(s: seq<Envelope<T>>, i: nat)
    requires i < |s|
    ensures Permits(s[..i+1]) == Permits(s[..i]) + {s[i].permit}
  {
    assert s[..i+1] == s[..i] + [s[i]];
  }
}
