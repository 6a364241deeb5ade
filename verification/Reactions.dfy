/** The SQLite reactions table: one latest value per reactor, bounded per target
    message and, while the target is unknown, per chat. */
module Reactions {
  import opened Frontier

  const MAX_REACTIONS_PER_MESSAGE: nat := 64
  const MAX_ORPHANS_PER_CHAT: nat := MAX_REACTIONS_PER_MESSAGE
  const NANOS_PER_MILLI := 1_000_000

  /** Emoji 0 is the empty string, a removal. */
  type Emoji = nat

  /** updatedAt is in nanoseconds, as the Go time value. */
  datatype Reaction = Reaction(chat: int, target: int, reactor: int, emoji: Emoji, updatedAt: int)

  /** Go's UnixMilli rounds down. */
  function Millis(t: int): int { t / NANOS_PER_MILLI }

  /** The cache cannot tell apart what lies within one millisecond. */
  lemma MillisTogether(a: int, b: int, ms: int)
    requires 1_000_000 * ms <= a <= b < 1_000_000 * (ms + 1)
    ensures Millis(a) == Millis(b) == ms
  {
  }

  function KeyOf(r: Reaction): Key { Key(r.target, r.reactor) }

  function Row(r: Reaction): Stamped<Emoji> { Stamped(Millis(r.updatedAt), r.emoji) }

  /** The WHERE clause of the upsert: newer wins; at equal times a removal wins,
      then the larger emoji. */
  predicate Supersedes(c: Stamped<Emoji>, e: Stamped<Emoji>) {
    || c.at > e.at
    || (c.at == e.at && c.value == 0 && e.value != 0)
    || (c.at == e.at && c.value != 0 && e.value != 0 && c.value > e.value)
  }

  lemma SupersedesIsStrictTotal(a: Stamped<Emoji>, b: Stamped<Emoji>, c: Stamped<Emoji>)
    ensures NewestWins(Supersedes)
    ensures !(Supersedes(a, b) && Supersedes(b, a))
    ensures Supersedes(a, b) || Supersedes(b, a) || a == b
    ensures Supersedes(a, b) && Supersedes(b, c) ==> Supersedes(a, c)
  {
  }

  // ---- the statements of one write, on the rows of the reaction's chat

  function Upsert(t: Table<Emoji>, r: Reaction): Table<Emoji> {
    Put(t, KeyOf(r), Row(r), Supersedes)
  }

  /** DELETE of the rows of one target past the newest 64. */
  function BoundTarget(t: Table<Emoji>, target: int): Table<Emoji> {
    map q | q in t && (q.major == target ==>
                         Kept(SmallerFirst, Part(t, One(target)), q, MAX_REACTIONS_PER_MESSAGE)) :: t[q]
  }

  /** DELETE of the chat's rows without a base message past the newest 64. */
  function BoundOrphans(t: Table<Emoji>, stored: set<int>): Table<Emoji> {
    map q | q in t && (q.major !in stored ==>
                         Kept(SmallerFirst, Part(t, Outside(stored)), q, MAX_ORPHANS_PER_CHAT)) :: t[q]
  }

  function WriteRows(t: Table<Emoji>, stored: set<int>, r: Reaction): Table<Emoji> {
    BoundOrphans(BoundTarget(Upsert(t, r), r.target), stored)
  }

  // ---- specification: keep the newest of the latest values

  /** The rows that share one bound: those of a stored target, or all orphans. */
  function ClassOf(target: int, stored: set<int>): Class {
    if target in stored then One(target) else Outside(stored)
  }

  /** Every class cut to its newest 64 entries. */
  function Bounded(m: Table<Emoji>, stored: set<int>): Table<Emoji> {
    map q | q in m && Kept(SmallerFirst, Part(m, ClassOf(q.major, stored)), q, MAX_REACTIONS_PER_MESSAGE) :: m[q]
  }

  function Newest(m: Table<Emoji>, c: Class): Table<Emoji> {
    Trim(SmallerFirst, Part(m, c), MAX_REACTIONS_PER_MESSAGE)
  }

  lemma PartOfBounded(m: Table<Emoji>, stored: set<int>, target: int)
    ensures Part(Bounded(m, stored), ClassOf(target, stored)) == Newest(m, ClassOf(target, stored))
  {
    var c := ClassOf(target, stored);
    assert forall q :: q in Part(m, c) ==> ClassOf(q.major, stored) == c;
  }

  lemma BoundedAt(x: Table<Emoji>, y: Table<Emoji>, stored: set<int>, q: Key)
    requires Newest(x, ClassOf(q.major, stored)) == Newest(y, ClassOf(q.major, stored))
    ensures q in Bounded(x, stored) <==> q in Bounded(y, stored)
    ensures q in Bounded(x, stored) ==> Bounded(x, stored)[q] == Bounded(y, stored)[q]
  {
    var n := Newest(x, ClassOf(q.major, stored));
    assert q in n <==> q in Bounded(x, stored);
    assert q in n <==> q in Bounded(y, stored);
  }

  /** Two tables whose classes trim alike are bounded alike. */
  lemma BoundedByClass(x: Table<Emoji>, y: Table<Emoji>, stored: set<int>)
    requires forall i :: Newest(x, ClassOf(i, stored)) == Newest(y, ClassOf(i, stored))
    ensures Bounded(x, stored) == Bounded(y, stored)
  {
    forall q
      ensures q in Bounded(x, stored) <==> q in Bounded(y, stored)
      ensures q in Bounded(x, stored) ==> Bounded(x, stored)[q] == Bounded(y, stored)[q]
    {
      BoundedAt(x, y, stored, q);
    }
  }

  /** The two DELETE statements together bound every class, when the classes the
      write did not touch are already bounded. */
  lemma DeletesBound(x: Table<Emoji>, stored: set<int>, target: int)
    requires forall i :: i in stored && i != target ==>
                           Newest(x, One(i)) == Part(x, One(i))
    ensures BoundOrphans(BoundTarget(x, target), stored) == Bounded(x, stored)
  {
    var b := BoundTarget(x, target);
    var k := MAX_REACTIONS_PER_MESSAGE;
    var u := Outside(stored);
    if target in stored {
      assert Part(b, u) == Part(x, u);
    } else {
      forall q | q in Part(x, u) && Kept(SmallerFirst, Part(x, u), q, k)
        ensures q in b
      {
        if q.major == target {
          SubsetSize(Higher(SmallerFirst, Part(x, One(target)), q), Higher(SmallerFirst, Part(x, u), q));
        }
      }
      Sandwich(SmallerFirst, Part(b, u), Part(x, u), k);
    }
    forall q
      ensures q in BoundOrphans(b, stored) <==> q in Bounded(x, stored)
    {
      if q in x {
        if q.major in stored {
          if q.major != target {
            assert q in Part(x, One(q.major));
            assert q in Trim(SmallerFirst, Part(x, One(q.major)), k);
          }
        } else {
          assert q in Part(x, u);
          assert q in Trim(SmallerFirst, Part(b, u), k) <==> q in Trim(SmallerFirst, Part(x, u), k);
        }
      }
    }
  }

  /** One write to a bounded table is one insertion into the unbounded table of
      latest values, bounded afterwards. */
  lemma WriteRefines(m: Table<Emoji>, stored: set<int>, r: Reaction)
    ensures WriteRows(Bounded(m, stored), stored, r) == Bounded(Upsert(m, r), stored)
  {
    var k := MAX_REACTIONS_PER_MESSAGE;
    var t := Bounded(m, stored);
    var x, y := Upsert(t, r), Upsert(m, r);
    SupersedesIsStrictTotal(Row(r), Row(r), Row(r));
    forall i
      ensures Newest(x, ClassOf(i, stored)) == Newest(y, ClassOf(i, stored))
      ensures i in stored && i != r.target ==> Newest(x, One(i)) == Part(x, One(i))
    {
      var c := ClassOf(i, stored);
      PartOfBounded(m, stored, i);
      PartOfPut(t, c, KeyOf(r), Row(r), Supersedes);
      PartOfPut(m, c, KeyOf(r), Row(r), Supersedes);
      if c.Has(r.target) {
        TrimEarly(SmallerFirst, Part(t, c), Part(m, c), KeyOf(r), Row(r), Supersedes, k);
      } else {
        TrimIdempotent(SmallerFirst, Part(m, c), k);
      }
    }
    BoundedByClass(x, y, stored);
    DeletesBound(x, stored, r.target);
  }

  lemma BoundedIdempotent(m: Table<Emoji>, stored: set<int>)
    ensures Bounded(Bounded(m, stored), stored) == Bounded(m, stored)
  {
    forall i
      ensures Newest(Bounded(m, stored), ClassOf(i, stored)) == Newest(m, ClassOf(i, stored))
    {
      PartOfBounded(m, stored, i);
      TrimIdempotent(SmallerFirst, Part(m, ClassOf(i, stored)), MAX_REACTIONS_PER_MESSAGE);
    }
    BoundedByClass(Bounded(m, stored), m, stored);
  }

  predicate IsBounded(t: Table<Emoji>, stored: set<int>) { Bounded(t, stored) == t }

  lemma WriteStaysBounded(t: Table<Emoji>, stored: set<int>, r: Reaction)
    requires IsBounded(t, stored)
    ensures IsBounded(WriteRows(t, stored, r), stored)
  {
    WriteRefines(t, stored, r);
    BoundedIdempotent(Upsert(t, r), stored);
  }

  // ---- runs

  /** One write, with the base messages the cache holds at that moment. */
  datatype Step = Step(stored: set<int>, reaction: Reaction)

  function Run(t: Table<Emoji>, steps: seq<Step>): Table<Emoji>
    decreases |steps|
  {
    if steps == [] then t else Run(WriteRows(t, steps[0].stored, steps[0].reaction), steps[1..])
  }

  function Mutations(steps: seq<Step>): seq<Reaction> {
    seq(|steps|, i requires 0 <= i < |steps| => steps[i].reaction)
  }

  /** The per-reactor latest values, with no bound. */
  function Latest(m: Table<Emoji>, s: seq<Reaction>): Table<Emoji>
    decreases |s|
  {
    if s == [] then m else Latest(Upsert(m, s[0]), s[1..])
  }

  /** Despite trimming at every step, a run over an unchanged set of base
      messages leaves the newest of the latest values, orphans included. */
  lemma {:induction false} RunIsNewestOfLatest(m: Table<Emoji>, stored: set<int>, steps: seq<Step>)
    requires forall e :: e in steps ==> e.stored == stored
    ensures Run(Bounded(m, stored), steps) == Bounded(Latest(m, Mutations(steps)), stored)
    decreases |steps|
  {
    if steps != [] {
      WriteRefines(m, stored, steps[0].reaction);
      RunIsNewestOfLatest(Upsert(m, steps[0].reaction), stored, steps[1..]);
      assert Mutations(steps)[1..] == Mutations(steps[1..]);
    }
  }

  /** A write's effect on one target whose base message is stored. */
  lemma StoredTargetWrite(t: Table<Emoji>, stored: set<int>, r: Reaction, target: int)
    requires target in stored
    ensures Part(WriteRows(t, stored, r), One(target))
         == if r.target == target then Newest(Upsert(t, r), One(target)) else Part(t, One(target))
  {
  }

  /** The rows of a target whose base message stays stored, whatever other base
      messages come and go during the run. */
  lemma {:induction false} StoredTargetRun(t: Table<Emoji>, m: Table<Emoji>, steps: seq<Step>, target: int)
    requires forall e :: e in steps ==> target in e.stored
    requires Part(t, One(target)) == Newest(m, One(target))
    ensures Part(Run(t, steps), One(target)) == Newest(Latest(m, Mutations(steps)), One(target))
    decreases |steps|
  {
    if steps != [] {
      var r := steps[0].reaction;
      var t1 := WriteRows(t, steps[0].stored, r);
      assert steps[0] in steps;
      StoredTargetWrite(t, steps[0].stored, r, target);
      PartOfPut(t, One(target), KeyOf(r), Row(r), Supersedes);
      PartOfPut(m, One(target), KeyOf(r), Row(r), Supersedes);
      SupersedesIsStrictTotal(Row(r), Row(r), Row(r));
      TrimEarly(SmallerFirst, Part(t, One(target)), Part(m, One(target)), KeyOf(r), Row(r), Supersedes,
                MAX_REACTIONS_PER_MESSAGE);
      StoredTargetRun(t1, Upsert(m, r), steps[1..], target);
      assert Mutations(steps)[1..] == Mutations(steps[1..]);
    }
  }

  /** What "the latest value" means, independent of any order of arrival. */
  ghost predicate IsLatest(l: Table<Emoji>, m: Table<Emoji>, s: seq<Reaction>) {
    && (forall q :: q in l <==> q in m || exists r :: r in s && KeyOf(r) == q)
    && (forall q :: q in l ==> (q in m && l[q] == m[q]) || exists r :: r in s && KeyOf(r) == q && Row(r) == l[q])
    && (forall q :: q in m && q in l ==> !Supersedes(m[q], l[q]))
    && (forall r :: r in s && KeyOf(r) in l ==> !Supersedes(Row(r), l[KeyOf(r)]))
  }

  lemma LatestOfCons(l: Table<Emoji>, m: Table<Emoji>, r0: Reaction, s: seq<Reaction>)
    requires IsLatest(l, Upsert(m, r0), s)
    ensures IsLatest(l, m, [r0] + s)
  {
    var m1, s1 := Upsert(m, r0), [r0] + s;
    assert forall r :: r in s1 <==> r == r0 || r in s;
    forall q | q in l
      ensures q in m || exists r :: r in s1 && KeyOf(r) == q
      ensures (q in m && l[q] == m[q]) || exists r :: r in s1 && KeyOf(r) == q && Row(r) == l[q]
      ensures q in m ==> !Supersedes(m[q], l[q])
    {
      assert r0 in s1;
      if q in m1 {
        if q in m { SupersedesIsStrictTotal(m[q], m1[q], l[q]); }
      } else {
        var r :| r in s && KeyOf(r) == q && Row(r) == l[q];
        assert r in s1;
      }
    }
    forall q | q in m || exists r :: r in s1 && KeyOf(r) == q
      ensures q in l
    {
      if q !in m1 {
        var r :| r in s1 && KeyOf(r) == q;
        assert r in s;
      }
    }
    forall r | r in s1 && KeyOf(r) in l
      ensures !Supersedes(Row(r), l[KeyOf(r)])
    {
      if r == r0 { SupersedesIsStrictTotal(Row(r0), m1[KeyOf(r0)], l[KeyOf(r0)]); }
    }
  }

  lemma {:induction false} LatestIsLatest(m: Table<Emoji>, s: seq<Reaction>)
    ensures IsLatest(Latest(m, s), m, s)
    decreases |s|
  {
    if s != [] {
      var m1 := Upsert(m, s[0]);
      LatestIsLatest(m1, s[1..]);
      LatestOfCons(Latest(m, s), m, s[0], s[1..]);
      assert s == [s[0]] + s[1..];
    }
  }

  lemma LatestUnique(a: Table<Emoji>, b: Table<Emoji>, m: Table<Emoji>, s1: seq<Reaction>, s2: seq<Reaction>)
    requires IsLatest(a, m, s1) && IsLatest(b, m, s2)
    requires forall r :: r in s1 <==> r in s2
    ensures a == b
  {
    forall q | q in a
      ensures q in b && a[q] == b[q]
    {
      SupersedesIsStrictTotal(a[q], b[q], a[q]);
    }
  }

  lemma LatestConverges(m: Table<Emoji>, s1: seq<Reaction>, s2: seq<Reaction>)
    requires forall r :: r in s1 <==> r in s2
    ensures Latest(m, s1) == Latest(m, s2)
  {
    LatestIsLatest(m, s1);
    LatestIsLatest(m, s2);
    LatestUnique(Latest(m, s1), Latest(m, s2), m, s1, s2);
  }

  /** Every replay order, repetition and interleaving of the same mutations
      yields the same rows for a stored target, although each step trims. */
  lemma StoredTargetConverges(t: Table<Emoji>, steps1: seq<Step>, steps2: seq<Step>, target: int)
    requires Newest(t, One(target)) == Part(t, One(target))
    requires forall e :: e in steps1 || e in steps2 ==> target in e.stored
    requires forall r :: r in Mutations(steps1) <==> r in Mutations(steps2)
    ensures Part(Run(t, steps1), One(target)) == Part(Run(t, steps2), One(target))
    ensures |Part(Run(t, steps1), One(target))| <= MAX_REACTIONS_PER_MESSAGE
  {
    StoredTargetRun(t, t, steps1, target);
    StoredTargetRun(t, t, steps2, target);
    LatestConverges(t, Mutations(steps1), Mutations(steps2));
    TrimSize(SmallerFirst, Part(Latest(t, Mutations(steps1)), One(target)), MAX_REACTIONS_PER_MESSAGE);
  }

  /** While no base message arrives or leaves, the whole chat converges, the
      bounded orphan rows included. */
  lemma ChatConverges(t: Table<Emoji>, stored: set<int>, steps1: seq<Step>, steps2: seq<Step>)
    requires IsBounded(t, stored)
    requires forall e :: e in steps1 || e in steps2 ==> e.stored == stored
    requires forall r :: r in Mutations(steps1) <==> r in Mutations(steps2)
    ensures Run(t, steps1) == Run(t, steps2) == Bounded(Latest(t, Mutations(steps1)), stored)
  {
    RunIsNewestOfLatest(t, stored, steps1);
    RunIsNewestOfLatest(t, stored, steps2);
    LatestConverges(t, Mutations(steps1), Mutations(steps2));
  }

  /** The reaction tables of the cache, written in place. */
  class ReactionStore {
    /** Rows by chat. */
    var rows: map<int, Table<Emoji>>
    /** Stored message identifiers by chat. */
    var messages: map<int, set<int>>
    var chats: set<int>

    constructor ()
      ensures rows == map[] && messages == map[] && chats == {}
    {
      rows, messages, chats := map[], map[], {};
    }

    function Rows(chat: int): Table<Emoji>
      reads this
    {
      if chat in rows then rows[chat] else map[]
    }

    function Stored(chat: int): set<int>
      reads this
    {
      if chat in messages then messages[chat] else {}
    }

    /** Between writes every bound holds. */
    predicate Valid()
      reads this
    {
      forall c :: c in rows ==> IsBounded(rows[c], Stored(c))
    }

    method WriteReaction(r: Reaction)
      requires Valid()
      modifies this
      ensures Valid()
      ensures chats == old(chats) + {r.chat} && messages == old(messages)
      ensures rows == old(rows)[r.chat := WriteRows(old(Rows(r.chat)), Stored(r.chat), r)]
    {
      var t := Rows(r.chat);
      chats := chats + {r.chat};
      WriteStaysBounded(t, Stored(r.chat), r);
      t := Upsert(t, r);
      t := BoundTarget(t, r.target);
      t := BoundOrphans(t, Stored(r.chat));
      rows := rows[r.chat := t];
    }
  }
}
