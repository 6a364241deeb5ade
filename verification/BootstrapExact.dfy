/** Which reactions the bootstrap filter keeps, read off the batch, and from that exactly
    which batches may be filtered before they reach the cache. */
module BootstrapExact {
  import opened Frontier
  import opened Reactions
  import opened Bootstrap

  // ---- the filter's choice, read off the batch

  /** The reactors on a message with a reaction at an instant or later. */
  function Reach(seen: seq<Reaction>, target: int, t: int): set<Key> {
    set r | r in seen && r.target == target && r.updatedAt >= t :: KeyOf(r)
  }

  /** Before the reactor came to this instant, 64 others on its message had. */
  ghost predicate Late(seen: seq<Reaction>, q: Key, t: int) {
    exists n: nat :: n <= |seen| && q !in Reach(seen[..n], q.major, t) && |Reach(seen[..n], q.major, t)| >= MAX_REACTIONS_PER_MESSAGE
  }

  /** The filter's order of two last reactions: by instant, then those that were not late,
      then by reactor. */
  ghost predicate Leads(seen: seq<Reaction>, a: Reaction, b: Reaction) {
    a.target == b.target &&
    (a.updatedAt > b.updatedAt ||
     (a.updatedAt == b.updatedAt &&
      if Late(seen, KeyOf(a), a.updatedAt) != Late(seen, KeyOf(b), b.updatedAt) then Late(seen, KeyOf(b), b.updatedAt)
      else a.reactor < b.reactor))
  }

  ghost function Leaders(seen: seq<Reaction>, b: Reaction): set<Key> {
    set a | a in seen && IsLast(seen, a) && Leads(seen, a, b) :: KeyOf(a)
  }

  /** A last reaction with fewer than 64 ahead of it. */
  ghost predicate Chosen(seen: seq<Reaction>, a: Reaction) {
    IsLast(seen, a) && |Leaders(seen, a)| < MAX_REACTIONS_PER_MESSAGE
  }

  // ---- what the filter keeps true

  predicate Full(s: seq<Reaction>, target: int) { |KeysOf(s, target)| >= MAX_REACTIONS_PER_MESSAGE }

  /** A reaction whose reactor is not in the list: the target is full, and nothing on it
      comes after the reaction in the filter's order. */
  ghost predicate Lost(s: seq<Reaction>, seen: seq<Reaction>, a: Reaction) {
    && Full(s, a.target)
    && forall i :: 0 <= i < |s| && s[i].target == a.target ==> Before(seen, a, s[i])
  }

  ghost predicate Before(seen: seq<Reaction>, a: Reaction, b: Reaction) {
    a.updatedAt < b.updatedAt || (a.updatedAt == b.updatedAt && (Late(seen, KeyOf(a), a.updatedAt) || b.reactor < a.reactor))
  }

  ghost predicate HoldsBest(seen: seq<Reaction>, a: Reaction) {
    IsLast(seen, a) && !Late(seen, KeyOf(a), a.updatedAt)
  }

  ghost predicate Picked(s: seq<Reaction>, seen: seq<Reaction>) {
    && WellKept(s)
    && (forall i :: 0 <= i < |s| ==> HoldsBest(seen, s[i]))
    && (forall a :: IsLast(seen, a) && Find(s, KeyOf(a), |s|) < 0 ==> Lost(s, seen, a))
  }

  // ---- reaching an instant

  lemma ReachGrows(seen: seq<Reaction>, n: nat, target: int, t: int)
    requires n <= |seen|
    ensures Reach(seen[..n], target, t) <= Reach(seen, target, t)
  {
    assert forall r :: r in seen[..n] ==> r in seen;
  }

  lemma LateStays(seen: seq<Reaction>, c: Reaction, q: Key, t: int)
    requires Late(seen, q, t)
    ensures Late(seen + [c], q, t)
  {
    var n: nat :| n <= |seen| && q !in Reach(seen[..n], q.major, t) && |Reach(seen[..n], q.major, t)| >= MAX_REACTIONS_PER_MESSAGE;
    assert (seen + [c])[..n] == seen[..n];
  }

  /** A reactor that has come to the instant is late only if it was. */
  lemma NotLateStays(seen: seq<Reaction>, c: Reaction, q: Key, t: int)
    requires !Late(seen, q, t) && q in Reach(seen + [c], q.major, t)
    ensures !Late(seen + [c], q, t)
  {
    var all := seen + [c];
    forall n: nat | n <= |all| && q !in Reach(all[..n], q.major, t)
      ensures |Reach(all[..n], q.major, t)| < MAX_REACTIONS_PER_MESSAGE
    {
      assert all[..|all|] == all;
      assert n <= |seen| && all[..n] == seen[..n];
    }
  }

  lemma NotLateYet(seen: seq<Reaction>, q: Key, t: int)
    requires |Reach(seen, q.major, t)| < MAX_REACTIONS_PER_MESSAGE
    ensures !Late(seen, q, t)
  {
    forall n: nat | n <= |seen| ensures |Reach(seen[..n], q.major, t)| < MAX_REACTIONS_PER_MESSAGE {
      ReachGrows(seen, n, q.major, t);
      SubsetSize(Reach(seen[..n], q.major, t), Reach(seen, q.major, t));
    }
  }

  lemma LateNow(seen: seq<Reaction>, q: Key, t: int)
    requires q !in Reach(seen, q.major, t) && |Reach(seen, q.major, t)| >= MAX_REACTIONS_PER_MESSAGE
    ensures Late(seen, q, t)
  {
    assert seen[..|seen|] == seen;
  }

  /** Every reactor seen has a last reaction. */
  lemma {:induction false} HasLast(seen: seq<Reaction>, r: Reaction) returns (a: Reaction)
    requires r in seen
    ensures IsLast(seen, a) && KeyOf(a) == KeyOf(r) && a.updatedAt >= r.updatedAt
    decreases |seen|
  {
    var front, c := seen[..|seen|-1], seen[|seen|-1];
    assert seen == front + [c];
    if x :| x in front && KeyOf(x) == KeyOf(r) {
      var y := if r in front then r else x;
      a := HasLast(front, y);
      if KeyOf(c) == KeyOf(r) && ReactionSupersedes(c, a) { a := c; }
    } else {
      a := c;
    }
  }

  lemma KeysCount(s: seq<Reaction>, target: int)
    requires Distinct(s)
    ensures |KeysOf(s, target)| == CountOf(s, target)
  {
    var p := Part(TableOf(s), One(target));
    TableSize(s, target);
    forall q | q in KeysOf(s, target) ensures q in p {
      var r :| r in s && KeyOf(r) == q;
      assert q in TableOf(s);
    }
    assert p.Keys == KeysOf(s, target) && |p| == |p.Keys|;
  }

  /** When a full target has only reactions at an instant or later, 64 reactors have come
      to it. */
  lemma FullReach(s: seq<Reaction>, seen: seq<Reaction>, target: int, t: int)
    requires Picked(s, seen) && Full(s, target)
    requires forall i :: 0 <= i < |s| && s[i].target == target ==> s[i].updatedAt >= t
    ensures |Reach(seen, target, t)| >= MAX_REACTIONS_PER_MESSAGE
  {
    forall q | q in KeysOf(s, target) ensures q in Reach(seen, target, t) {
      var r :| r in s && r.target == target && KeyOf(r) == q;
      var i :| 0 <= i < |s| && s[i] == r;
      assert HoldsBest(seen, s[i]);
    }
    SubsetSize(KeysOf(s, target), Reach(seen, target, t));
  }

  /** Who came to an instant is in the list, unless a full target has nothing before it. */
  lemma ReachIsHeld(s: seq<Reaction>, seen: seq<Reaction>, target: int, t: int, q: Key)
    requires Picked(s, seen) && q in Reach(seen, target, t)
    requires Full(s, target) ==> exists i :: 0 <= i < |s| && s[i].target == target && s[i].updatedAt < t
    ensures q in KeysOf(s, target)
    ensures forall i :: 0 <= i < |s| && KeyOf(s[i]) == q ==> s[i].updatedAt >= t
  {
    var r :| r in seen && r.target == target && r.updatedAt >= t && KeyOf(r) == q;
    var a := HasLast(seen, r);
    if Full(s, target) {
      var i :| 0 <= i < |s| && s[i].target == target && s[i].updatedAt < t;
      assert !Before(seen, a, s[i]);
    }
    assert !Lost(s, seen, a);
    forall i | 0 <= i < |s| && KeyOf(s[i]) == q ensures s[i].updatedAt >= t {
      assert HoldsBest(seen, s[i]);
    }
  }

  lemma KeysFit(s: seq<Reaction>, target: int)
    requires WellKept(s)
    ensures |KeysOf(s, target)| <= MAX_REACTIONS_PER_MESSAGE
  {
    KeysCount(s, target);
    TableSize(s, target);
  }

  lemma ReachIsSmall(s: seq<Reaction>, seen: seq<Reaction>, target: int, t: int)
    requires Picked(s, seen)
    requires Full(s, target) ==> exists i :: 0 <= i < |s| && s[i].target == target && s[i].updatedAt < t
    ensures |Reach(seen, target, t)| < MAX_REACTIONS_PER_MESSAGE
  {
    var keys, reach := KeysOf(s, target), Reach(seen, target, t);
    KeysFit(s, target);
    forall q | q in reach
      ensures q in keys && forall i :: 0 <= i < |s| && KeyOf(s[i]) == q ==> s[i].updatedAt >= t
    {
      ReachIsHeld(s, seen, target, t, q);
    }
    hide Picked, KeysOf, Reach;
    if Full(s, target) {
      var i :| 0 <= i < |s| && s[i].target == target && s[i].updatedAt < t;
      InKeys(s, i);
      SubsetSize(reach, keys - {KeyOf(s[i])});
    } else {
      SubsetSize(reach, keys);
    }
  }

  lemma InKeys(s: seq<Reaction>, i: nat)
    requires i < |s|
    ensures KeyOf(s[i]) in KeysOf(s, s[i].target)
  {
    assert s[i] in s;
  }
  // ---- one offer keeps it true

  lemma EarlierLast(seen: seq<Reaction>, c: Reaction, a: Reaction)
    requires IsLast(seen + [c], a) && a in seen
    ensures IsLast(seen, a)
  {
    assert forall r :: r in seen ==> r in seen + [c];
  }

  lemma OtherStays(s: seq<Reaction>, seen: seq<Reaction>, c: Reaction, i: nat)
    requires Picked(s, seen) && i < |s| && (KeyOf(s[i]) != KeyOf(c) || !ReactionSupersedes(c, s[i]))
    ensures HoldsBest(seen + [c], s[i])
  {
    assert HoldsBest(seen, s[i]);
    LastAfter(seen, c, s[i]);
    assert s[i] in seen + [c];
    NotLateStays(seen, c, KeyOf(s[i]), s[i].updatedAt);
  }

  lemma BeforeStays(seen: seq<Reaction>, c: Reaction, a: Reaction, b: Reaction)
    requires Before(seen, a, b)
    ensures Before(seen + [c], a, b)
  {
    if Late(seen, KeyOf(a), a.updatedAt) { LateStays(seen, c, KeyOf(a), a.updatedAt); }
  }

  lemma LostStays(s: seq<Reaction>, seen: seq<Reaction>, c: Reaction, a: Reaction)
    requires Lost(s, seen, a)
    ensures Lost(s, seen + [c], a)
  {
    forall i | 0 <= i < |s| && s[i].target == a.target ensures Before(seen + [c], a, s[i]) {
      assert Before(seen, a, s[i]);
      BeforeStays(seen, c, a, s[i]);
    }
  }

  /** A better reaction of a reactor in the list is its best. */
  lemma BetterIsBest(s: seq<Reaction>, seen: seq<Reaction>, c: Reaction, f: nat)
    requires Picked(s, seen) && f < |s| && KeyOf(s[f]) == KeyOf(c) && ReactionSupersedes(c, s[f])
    ensures HoldsBest(seen + [c], c)
  {
    assert HoldsBest(seen, s[f]);
    forall r | r in seen && KeyOf(r) == KeyOf(c) ensures !ReactionSupersedes(r, c) {
      assert !ReactionSupersedes(r, s[f]);
    }
    LastAfter(seen, c, c);
    if s[f].updatedAt < c.updatedAt {
      ReachIsSmall(s, seen, c.target, c.updatedAt);
      NotLateYet(seen, KeyOf(c), c.updatedAt);
    }
    assert (seen + [c])[|seen|] == c;
    NotLateStays(seen, c, KeyOf(c), c.updatedAt);
  }

  /** So is the reaction of a new reactor for which there is room. */
  lemma NewIsBest(s: seq<Reaction>, seen: seq<Reaction>, c: Reaction)
    requires Picked(s, seen) && Find(s, KeyOf(c), |s|) < 0
    requires Full(s, c.target) ==> exists i :: 0 <= i < |s| && s[i].target == c.target && s[i].updatedAt < c.updatedAt
    ensures HoldsBest(seen + [c], c)
  {
    forall r | r in seen && KeyOf(r) == KeyOf(c) ensures !ReactionSupersedes(r, c) {
      var a := HasLast(seen, r);
      assert Lost(s, seen, a);
      var i :| 0 <= i < |s| && s[i].target == c.target && s[i].updatedAt < c.updatedAt;
      assert Before(seen, a, s[i]);
    }
    LastAfter(seen, c, c);
    ReachIsSmall(s, seen, c.target, c.updatedAt);
    NotLateYet(seen, KeyOf(c), c.updatedAt);
    assert (seen + [c])[|seen|] == c;
    NotLateStays(seen, c, KeyOf(c), c.updatedAt);
  }

  /** Replacing a reaction by a later one of its reactor keeps the others lost. */
  lemma LostAfterBetter(s: seq<Reaction>, seen: seq<Reaction>, c: Reaction, f: nat, a: Reaction)
    requires Lost(s, seen, a) && f < |s| && KeyOf(s[f]) == KeyOf(c) && ReactionSupersedes(c, s[f])
    ensures Lost(s[f := c], seen + [c], a)
  {
    var t := s[f := c];
    SameKeys(s, f, c, a.target);
    forall i | 0 <= i < |t| && t[i].target == a.target ensures Before(seen + [c], a, t[i]) {
      assert Before(seen, a, s[i]);
      BeforeStays(seen, c, a, s[i]);
    }
  }

  lemma SameKeys(s: seq<Reaction>, f: nat, c: Reaction, target: int)
    requires f < |s| && KeyOf(s[f]) == KeyOf(c)
    ensures KeysOf(s[f := c], target) == KeysOf(s, target)
  {
    var t := s[f := c];
    forall q | q in KeysOf(s, target) ensures q in KeysOf(t, target) {
      var i :| 0 <= i < |s| && s[i].target == target && KeyOf(s[i]) == q;
      InKeys(t, i);
    }
    forall q | q in KeysOf(t, target) ensures q in KeysOf(s, target) {
      var i :| 0 <= i < |t| && t[i].target == target && KeyOf(t[i]) == q;
      InKeys(s, i);
    }
  }

  lemma PickedKnown(s: seq<Reaction>, seen: seq<Reaction>, c: Reaction)
    requires Picked(s, seen) && Find(s, KeyOf(c), |s|) >= 0
    ensures Picked(Retained(s, c), seen + [c])
  {
    var f, s1 := Find(s, KeyOf(c), |s|), Retained(s, c);
    RetainedStays(s, c);
    if ReactionSupersedes(c, s[f]) { BetterIsBest(s, seen, c, f); }
    forall i | 0 <= i < |s1| ensures HoldsBest(seen + [c], s1[i]) {
      if s1[i] == s[i] && (KeyOf(s[i]) != KeyOf(c) || !ReactionSupersedes(c, s[i])) { OtherStays(s, seen, c, i); }
    }
    forall a | IsLast(seen + [c], a) && Find(s1, KeyOf(a), |s1|) < 0 ensures Lost(s1, seen + [c], a) {
      KnownStillLost(s, seen, c, a);
    }
  }

  lemma KnownStillLost(s: seq<Reaction>, seen: seq<Reaction>, c: Reaction, a: Reaction)
    requires Picked(s, seen) && Find(s, KeyOf(c), |s|) >= 0
    requires IsLast(seen + [c], a) && Find(Retained(s, c), KeyOf(a), |Retained(s, c)|) < 0
    ensures Lost(Retained(s, c), seen + [c], a)
  {
    var f, s1 := Find(s, KeyOf(c), |s|), Retained(s, c);
    FindHit(s1, f);
    assert KeyOf(s1[f]) == KeyOf(c) && a != c;
    EarlierLast(seen, c, a);
    var g := Find(s, KeyOf(a), |s|);
    if g >= 0 { FindHit(s1, g); }
    if s1 == s { LostStays(s, seen, c, a); } else { LostAfterBetter(s, seen, c, f, a); }
  }
  lemma PickedAppend(s: seq<Reaction>, seen: seq<Reaction>, c: Reaction)
    requires Picked(s, seen) && Find(s, KeyOf(c), |s|) < 0 && !Full(s, c.target) && WellKept(s + [c])
    ensures Picked(s + [c], seen + [c])
  {
    var s1 := s + [c];
    NewIsBest(s, seen, c);
    forall i | 0 <= i < |s1| ensures HoldsBest(seen + [c], s1[i]) {
      if i < |s| { OtherStays(s, seen, c, i); }
    }
    forall a | IsLast(seen + [c], a) && Find(s1, KeyOf(a), |s1|) < 0 ensures Lost(s1, seen + [c], a) {
      AppendStillLost(s, seen, c, a);
    }
  }

  lemma AppendStillLost(s: seq<Reaction>, seen: seq<Reaction>, c: Reaction, a: Reaction)
    requires Picked(s, seen) && !Full(s, c.target)
    requires IsLast(seen + [c], a) && Find(s + [c], KeyOf(a), |s| + 1) < 0
    ensures Lost(s + [c], seen + [c], a)
  {
    var s1 := s + [c];
    FindHit(s1, |s|);
    assert s1[|s|] == c && a != c;
    EarlierLast(seen, c, a);
    var g := Find(s, KeyOf(a), |s|);
    forall j | 0 <= j < |s| ensures KeyOf(s[j]) != KeyOf(a) { assert s1[j] == s[j]; }
    assert Lost(s, seen, a);
    hide Picked, Late, IsLast;
    LostStays(s, seen, c, a);
    LostBeside(s, seen + [c], c, a);
  }

  /** A newcomer to a target that was not full has nothing to do with the lost. */
  lemma LostBeside(s: seq<Reaction>, seen: seq<Reaction>, c: Reaction, a: Reaction)
    requires Lost(s, seen, a) && !Full(s, c.target)
    ensures Lost(s + [c], seen, a)
  {
    var s1 := s + [c];
    assert KeysOf(s1, a.target) == KeysOf(s, a.target);
    forall i | 0 <= i < |s1| && s1[i].target == a.target ensures Before(seen, a, s1[i]) {
      assert s1[i] == s[i];
    }
  }

  /** A new reaction that is turned away comes after nothing in a full target. */
  lemma RejectedIsLost(s: seq<Reaction>, seen: seq<Reaction>, c: Reaction)
    requires Picked(s, seen) && Find(s, KeyOf(c), |s|) < 0 && Full(s, c.target) && IsLast(seen + [c], c)
    requires forall i :: 0 <= i < |s| && s[i].target == c.target ==> s[i].updatedAt >= c.updatedAt
    ensures Lost(s, seen + [c], c)
  {
    FullReach(s, seen, c.target, c.updatedAt);
    if KeyOf(c) in Reach(seen, c.target, c.updatedAt) {
      RejectedAgain(s, seen, c);
    } else {
      LateNow(seen, KeyOf(c), c.updatedAt);
      LateStays(seen, c, KeyOf(c), c.updatedAt);
    }
  }

  lemma RejectedAgain(s: seq<Reaction>, seen: seq<Reaction>, c: Reaction)
    requires Picked(s, seen) && Find(s, KeyOf(c), |s|) < 0 && IsLast(seen + [c], c)
    requires KeyOf(c) in Reach(seen, c.target, c.updatedAt)
    ensures Lost(s, seen + [c], c)
  {
    var r :| r in seen && KeyOf(r) == KeyOf(c) && r.updatedAt >= c.updatedAt;
    var b := HasLast(seen, r);
    assert b in seen + [c];
    assert b.updatedAt == c.updatedAt;
    LostStays(s, seen, c, b);
    forall i | 0 <= i < |s| && s[i].target == c.target ensures Before(seen + [c], c, s[i]) {
      assert Before(seen + [c], b, s[i]);
    }
  }

  lemma PickedReject(s: seq<Reaction>, seen: seq<Reaction>, c: Reaction)
    requires Picked(s, seen) && Find(s, KeyOf(c), |s|) < 0 && Full(s, c.target)
    requires forall i :: 0 <= i < |s| && s[i].target == c.target ==> s[i].updatedAt >= c.updatedAt
    ensures Picked(s, seen + [c])
  {
    forall i | 0 <= i < |s| ensures HoldsBest(seen + [c], s[i]) { OtherStays(s, seen, c, i); }
    forall a | IsLast(seen + [c], a) && Find(s, KeyOf(a), |s|) < 0 ensures Lost(s, seen + [c], a) {
      if a in seen {
        EarlierLast(seen, c, a);
        LostStays(s, seen, c, a);
      } else {
        assert a == c;
        RejectedIsLost(s, seen, c);
      }
    }
  }

  lemma EvictedKeys(s: seq<Reaction>, c: Reaction, o: nat, target: int)
    requires Distinct(s) && o < |s| && s[o].target == c.target && Find(s, KeyOf(c), |s|) < 0
    ensures |KeysOf(s[o := c], target)| == |KeysOf(s, target)|
  {
    EvictTrades(s, c, o);
    EvictSizes(TableOf(s), KeyOf(c), Row(c), KeyOf(s[o]), target);
    KeysCount(s, target);
    KeysCount(s[o := c], target);
    TableSize(s, target);
    TableSize(s[o := c], target);
  }

  /** The evicted reaction comes after nothing that stays, and the newcomer is later. */
  lemma EvictedIsLost(s: seq<Reaction>, seen: seq<Reaction>, c: Reaction, o: nat, a: Reaction)
    requires Picked(s, seen) && Find(s, KeyOf(c), |s|) < 0 && Full(s, c.target)
    requires o < |s| && o == OldestOf(s, c.target, |s|) && c.updatedAt > s[o].updatedAt
    requires IsLast(seen, a) && KeyOf(a) == KeyOf(s[o])
    ensures Lost(s[o := c], seen + [c], a)
  {
    var t := s[o := c];
    EvictedKeys(s, c, o, a.target);
    assert HoldsBest(seen, s[o]);
    assert a.updatedAt == s[o].updatedAt;
    OldestIsLowest(s, c.target, |s|);
    forall i | 0 <= i < |t| && t[i].target == a.target ensures Before(seen + [c], a, t[i]) {
      if i != o {
        assert !Older(s[i], s[o]) && KeyOf(s[i]) != KeyOf(s[o]);
      }
    }
  }

  lemma EvictStillLost(s: seq<Reaction>, seen: seq<Reaction>, c: Reaction, o: nat, a: Reaction)
    requires Picked(s, seen) && Find(s, KeyOf(c), |s|) < 0
    requires o < |s| && s[o].target == c.target && c.updatedAt > s[o].updatedAt
    requires Lost(s, seen, a)
    ensures Lost(s[o := c], seen + [c], a)
  {
    var t := s[o := c];
    EvictedKeys(s, c, o, a.target);
    forall i | 0 <= i < |t| && t[i].target == a.target ensures Before(seen + [c], a, t[i]) {
      assert Before(seen, a, s[i]);
      BeforeStays(seen, c, a, s[i]);
    }
  }

  lemma PickedEvict(s: seq<Reaction>, seen: seq<Reaction>, c: Reaction, o: nat)
    requires Picked(s, seen) && Find(s, KeyOf(c), |s|) < 0 && Full(s, c.target)
    requires o < |s| && o == OldestOf(s, c.target, |s|) && c.updatedAt > s[o].updatedAt && WellKept(s[o := c])
    ensures Picked(s[o := c], seen + [c])
  {
    var t := s[o := c];
    NewIsBest(s, seen, c);
    forall i | 0 <= i < |t| ensures HoldsBest(seen + [c], t[i]) {
      if i != o { OtherStays(s, seen, c, i); }
    }
    forall a | IsLast(seen + [c], a) && Find(t, KeyOf(a), |t|) < 0 ensures Lost(t, seen + [c], a) {
      FindHit(t, o);
      assert t[o] == c && a != c;
      EarlierLast(seen, c, a);
      var g := Find(s, KeyOf(a), |s|);
      forall j | 0 <= j < |s| && j != o ensures KeyOf(s[j]) != KeyOf(a) { assert t[j] == s[j]; }
      if g >= 0 {
        EvictedIsLost(s, seen, c, o, a);
      } else {
        EvictStillLost(s, seen, c, o, a);
      }
    }
  }

  lemma PickedIsKept(s: seq<Reaction>, seen: seq<Reaction>)
    requires Picked(s, seen)
    ensures WellKept(s) && Distinct(s)
  {
  }

  lemma PickedStep(s: seq<Reaction>, seen: seq<Reaction>, c: Reaction)
    requires Picked(s, seen) && CapIdle(s, c)
    ensures Picked(Retained(s, c), seen + [c])
  {
    hide Picked, WellKept, KeysOf, CountOf, OldestOf, Find, Distinct, TableOf;
    var o := OldestOf(s, c.target, |s|);
    PickedIsKept(s, seen);
    RetainedStays(s, c);
    KeysCount(s, c.target);
    if Find(s, KeyOf(c), |s|) >= 0 {
      PickedKnown(s, seen, c);
    } else if CountOf(s, c.target) < MAX_REACTIONS_PER_MESSAGE {
      PickedAppend(s, seen, c);
    } else if o >= 0 && c.updatedAt > s[o].updatedAt {
      PickedEvict(s, seen, c, o);
    } else {
      OldestIsLowest(s, c.target, |s|);
      PickedReject(s, seen, c);
    }
  }

  /** The filter picks its reactions as a choice over everything offered so far. */
  lemma {:induction false} FilterPicks(s: seq<Reaction>, seen: seq<Reaction>, batch: seq<Reaction>, targets: set<int>)
    requires Picked(s, seen) && Targets(s) + Targets(batch) <= targets && |targets| <= MAX_MESSAGES_PER_CHAT
    ensures Picked(Filtered(s, batch), seen + batch)
    decreases |batch|
  {
    if batch == [] {
      assert seen + batch == seen;
    } else {
      var c := batch[0];
      assert seen + [c] + batch[1..] == seen + batch;
      assert c.target in Targets(batch);
      RetainedFrom(s, c);
      CapNeverDecides(s, c, targets);
      PickedStep(s, seen, c);
      hide Picked;
      FilterPicks(Retained(s, c), seen + [c], batch[1..], targets);
    }
  }
  // ---- the choice in closed form

  lemma TwoLasts(seen: seq<Reaction>, a: Reaction, b: Reaction)
    requires IsLast(seen, a) && IsLast(seen, b) && KeyOf(a) == KeyOf(b)
    ensures a.updatedAt == b.updatedAt && a.emoji == b.emoji && Row(a) == Row(b)
  {
  }

  lemma LeaderIsHeld(s: seq<Reaction>, seen: seq<Reaction>, a: Reaction, b: Reaction, i: nat)
    requires Picked(s, seen) && IsLast(seen, a) && i < |s| && KeyOf(s[i]) == KeyOf(a)
    requires IsLast(seen, b) && Leads(seen, b, a)
    ensures KeyOf(b) in KeysOf(s, a.target) && KeyOf(b) != KeyOf(a)
  {
    assert HoldsBest(seen, s[i]);
    TwoLasts(seen, a, s[i]);
    if KeyOf(b) == KeyOf(a) { TwoLasts(seen, a, b); }
    assert !Before(seen, b, s[i]);
    assert !Lost(s, seen, b);
  }

  lemma HeldIsChosen(s: seq<Reaction>, seen: seq<Reaction>, a: Reaction, i: nat)
    requires Picked(s, seen) && IsLast(seen, a) && i < |s| && KeyOf(s[i]) == KeyOf(a)
    ensures Chosen(seen, a)
  {
    var keys := KeysOf(s, a.target);
    forall q | q in Leaders(seen, a) ensures q in keys - {KeyOf(a)} {
      var b :| b in seen && IsLast(seen, b) && Leads(seen, b, a) && KeyOf(b) == q;
      LeaderIsHeld(s, seen, a, b, i);
    }
    InKeys(s, i);
    KeysFit(s, a.target);
    SubsetSize(Leaders(seen, a), keys - {KeyOf(a)});
  }

  lemma LostIsNotChosen(s: seq<Reaction>, seen: seq<Reaction>, a: Reaction)
    requires Picked(s, seen) && IsLast(seen, a) && Find(s, KeyOf(a), |s|) < 0
    ensures !Chosen(seen, a)
  {
    assert Lost(s, seen, a);
    forall q | q in KeysOf(s, a.target) ensures q in Leaders(seen, a) {
      var i :| 0 <= i < |s| && s[i].target == a.target && KeyOf(s[i]) == q;
      assert HoldsBest(seen, s[i]) && Before(seen, a, s[i]);
      assert s[i] in seen && Leads(seen, s[i], a);
    }
    SubsetSize(KeysOf(s, a.target), Leaders(seen, a));
  }

  /** The list has this reaction. */
  predicate Has(kept: seq<Reaction>, a: Reaction) {
    exists i :: 0 <= i < |kept| && KeyOf(kept[i]) == KeyOf(a) && kept[i].updatedAt == a.updatedAt && kept[i].emoji == a.emoji
  }

  /** For every batch the filter keeps, of each target, exactly the 64 reactors that are
      first in its order, each with its last reaction. */
  lemma FilterKeepsExactly(batch: seq<Reaction>)
    requires |Targets(batch)| <= MAX_MESSAGES_PER_CHAT
    ensures Picked(Filtered([], batch), batch)
    ensures forall r :: r in Filtered([], batch) ==> Chosen(batch, r)
    ensures forall a :: Chosen(batch, a) ==> Has(Filtered([], batch), a)
  {
    var kept := Filtered([], batch);
    FilterPicksAll(batch);
    forall r | r in kept ensures Chosen(batch, r) {
      var i :| 0 <= i < |kept| && kept[i] == r;
      assert HoldsBest(batch, kept[i]);
      HeldIsChosen(kept, batch, r, i);
    }
    forall a | Chosen(batch, a) ensures Has(kept, a) { ChosenIsHeld(kept, batch, a); }
  }

  lemma FilterPicksAll(batch: seq<Reaction>)
    requires |Targets(batch)| <= MAX_MESSAGES_PER_CHAT
    ensures Picked(Filtered([], batch), batch)
  {
    ShortIsWellKept([]);
    assert [] + batch == batch;
    FilterPicks([], [], batch, Targets(batch));
  }

  lemma ChosenIsHeld(s: seq<Reaction>, seen: seq<Reaction>, a: Reaction)
    requires Picked(s, seen) && Chosen(seen, a)
    ensures Find(s, KeyOf(a), |s|) >= 0 && Has(s, a)
  {
    var i := Find(s, KeyOf(a), |s|);
    if i >= 0 {
      assert HoldsBest(seen, s[i]);
      TwoLasts(seen, a, s[i]);
    } else {
      LostIsNotChosen(s, seen, a);
      assert false;
    }
  }

  // ---- exactly when filtering first is harmless

  /** A reaction the filter keeps follows, within one millisecond, one of its reactor whose
      emoji the cache prefers. */
  ghost predicate Outdone(batch: seq<Reaction>) {
    exists a, b :: Chosen(batch, a) && Overtakes(batch, b, a)
  }

  /** The filter keeps a and drops b, and the cache would do the opposite: both fall into
      one millisecond, and b has the smaller reactor. */
  ghost predicate Displaces(batch: seq<Reaction>, a: Reaction, b: Reaction) {
    && Chosen(batch, a) && IsLast(batch, b) && !Chosen(batch, b)
    && a.target == b.target && Millis(a.updatedAt) == Millis(b.updatedAt) && b.reactor < a.reactor
  }

  ghost predicate Misplaced(batch: seq<Reaction>) { exists a, b :: Displaces(batch, a, b) }

  lemma LatestAt(batch: seq<Reaction>, a: Reaction)
    requires IsLast(batch, a)
    ensures var l := Latest(map[], batch);
      && KeyOf(a) in l && l[KeyOf(a)].at == Millis(a.updatedAt)
      && (l[KeyOf(a)] == Row(a) || exists b :: Overtakes(batch, b, a))
  {
    var l := Latest(map[], batch);
    LatestIsLatest(map[], batch);
    var r :| r in batch && KeyOf(r) == KeyOf(a) && Row(r) == l[KeyOf(a)];
    assert !ReactionSupersedes(r, a) && !Supersedes(Row(a), Row(r));
    if Row(r) != Row(a) { assert Overtakes(batch, r, a); }
  }

  /** The row of an overtaken reaction is not the cache's. */
  lemma OvertakenRow(batch: seq<Reaction>, a: Reaction, b: Reaction)
    requires Overtakes(batch, b, a)
    ensures KeyOf(a) in Latest(map[], batch) && Latest(map[], batch)[KeyOf(a)] != Row(a)
  {
    LatestIsLatest(map[], batch);
    assert Supersedes(Row(b), Row(a));
  }
  /** What stays is ahead of what goes for the cache as well, unless they are misplaced. */
  lemma KeptIsAhead(kept: seq<Reaction>, batch: seq<Reaction>, i: nat, b: Reaction)
    requires Picked(kept, batch) && !Misplaced(batch) && i < |kept|
    requires IsLast(batch, b) && Find(kept, KeyOf(b), |kept|) < 0 && kept[i].target == b.target
    ensures Ahead(SmallerFirst, Millis(kept[i].updatedAt), KeyOf(kept[i]), Millis(b.updatedAt), KeyOf(b))
  {
    var a := kept[i];
    assert HoldsBest(batch, kept[i]) && Lost(kept, batch, b) && Before(batch, b, kept[i]);
    HeldIsChosen(kept, batch, a, i);
    LostIsNotChosen(kept, batch, b);
    assert !Displaces(batch, a, b);
    assert KeyOf(a) != KeyOf(b);
  }

  lemma LostOfTarget(kept: seq<Reaction>, batch: seq<Reaction>, target: int, q: Key) returns (b: Reaction)
    requires Picked(kept, batch) && q in Latest(map[], batch) && q.major == target && q !in KeysOf(kept, target)
    ensures IsLast(batch, b) && KeyOf(b) == q && Find(kept, q, |kept|) < 0 && Full(kept, target)
  {
    LatestIsLatest(map[], batch);
    var r :| r in batch && KeyOf(r) == q;
    b := HasLast(batch, r);
    var f := Find(kept, q, |kept|);
    if f >= 0 { InKeys(kept, f); }
    assert Lost(kept, batch, b);
  }

  lemma KeptOfTarget(kept: seq<Reaction>, batch: seq<Reaction>, target: int, q: Key) returns (i: nat)
    requires Picked(kept, batch) && q in KeysOf(kept, target)
    ensures i < |kept| && KeyOf(kept[i]) == q && kept[i].target == target && IsLast(batch, kept[i]) && q in Latest(map[], batch)
  {
    i :| 0 <= i < |kept| && kept[i].target == target && KeyOf(kept[i]) == q;
    assert HoldsBest(batch, kept[i]);
    LatestAt(batch, kept[i]);
  }

  lemma KeysAreOfTarget(s: seq<Reaction>, target: int)
    ensures forall q :: q in KeysOf(s, target) ==> q.major == target
  {
  }

  lemma KeysInPart(kept: seq<Reaction>, batch: seq<Reaction>, target: int)
    requires Picked(kept, batch)
    ensures KeysOf(kept, target) <= Part(Latest(map[], batch), One(target)).Keys
  {
    KeysAreOfTarget(kept, target);
    hide Picked, Latest, KeysOf, IsLast;
    forall q | q in KeysOf(kept, target) ensures q in Latest(map[], batch) {
      var i := KeptOfTarget(kept, batch, target, q);
    }
  }

  lemma TargetSize(kept: seq<Reaction>, batch: seq<Reaction>, target: int)
    requires Picked(kept, batch)
    ensures var p, keys := Part(Latest(map[], batch), One(target)), KeysOf(kept, target);
      |keys| == if |p| <= MAX_REACTIONS_PER_MESSAGE then |p| else MAX_REACTIONS_PER_MESSAGE
  {
    var p, keys := Part(Latest(map[], batch), One(target)), KeysOf(kept, target);
    KeysFit(kept, target);
    KeysInPart(kept, batch, target);
    assert |p| == |p.Keys|;
    hide Picked, Latest, KeysOf, IsLast;
    if q :| q in p.Keys && q !in keys {
      var b := LostOfTarget(kept, batch, target, q);
      SubsetSize(keys + {q}, p.Keys);
    } else {
      assert keys == p.Keys;
    }
  }

  lemma TargetAgrees(kept: seq<Reaction>, batch: seq<Reaction>, target: int)
    requires Picked(kept, batch) && !Misplaced(batch)
    ensures Trim(SmallerFirst, Part(Latest(map[], batch), One(target)), MAX_REACTIONS_PER_MESSAGE).Keys == KeysOf(kept, target)
  {
    var p, keys := Part(Latest(map[], batch), One(target)), KeysOf(kept, target);
    TargetSize(kept, batch, target);
    KeysInPart(kept, batch, target);
    forall x, y | x in keys && y in p && y !in keys ensures Ahead(SmallerFirst, p[x].at, x, p[y].at, y) {
      var i := KeptOfTarget(kept, batch, target, x);
      var b := LostOfTarget(kept, batch, target, y);
      LatestAt(batch, kept[i]);
      LatestAt(batch, b);
      KeptIsAhead(kept, batch, i, b);
    }
    TrimUnique(SmallerFirst, p, MAX_REACTIONS_PER_MESSAGE, keys);
  }

  lemma CutAgrees(kept: seq<Reaction>, batch: seq<Reaction>, q: Key)
    requires Picked(kept, batch) && !Misplaced(batch) && q in Latest(map[], batch)
    ensures q in Bounded(Latest(map[], batch), Targets(batch)) <==> q in KeysOf(kept, q.major)
  {
    var l := Latest(map[], batch);
    LatestIsLatest(map[], batch);
    var r :| r in batch && KeyOf(r) == q;
    assert q.major in Targets(batch);
    TargetAgrees(kept, batch, q.major);
    assert q in Part(l, One(q.major));
  }

  lemma RowAgrees(kept: seq<Reaction>, batch: seq<Reaction>, q: Key)
    requires Picked(kept, batch) && !Outdone(batch) && q in TableOf(kept)
    ensures q in Latest(map[], batch) && TableOf(kept)[q] == Latest(map[], batch)[q] && q in KeysOf(kept, q.major)
  {
    var i := IndexOf(kept, q);
    InKeys(kept, i);
    assert HoldsBest(batch, kept[i]);
    HeldIsChosen(kept, batch, kept[i], i);
    LatestAt(batch, kept[i]);
  }

  lemma KeyIsHeld(kept: seq<Reaction>, q: Key)
    requires Distinct(kept) && q in KeysOf(kept, q.major)
    ensures q in TableOf(kept)
  {
    var i :| 0 <= i < |kept| && kept[i].target == q.major && KeyOf(kept[i]) == q;
    TableAt(kept, i);
  }

  lemma UndisturbedMeets(kept: seq<Reaction>, batch: seq<Reaction>)
    requires Picked(kept, batch) && !Outdone(batch) && !Misplaced(batch)
    ensures TableOf(kept) == Bounded(Latest(map[], batch), Targets(batch))
  {
    hide *;
    PickedIsKept(kept, batch);
    var t, l, b := TableOf(kept), Latest(map[], batch), Bounded(Latest(map[], batch), Targets(batch));
    forall q | q in t ensures q in b && b[q] == t[q] {
      RowAgrees(kept, batch, q);
      CutAgrees(kept, batch, q);
      BoundedRow(l, Targets(batch), q);
    }
    forall q | q in b ensures q in t {
      BoundedRow(l, Targets(batch), q);
      CutAgrees(kept, batch, q);
      KeyIsHeld(kept, q);
    }
  }

  lemma BoundedRow(l: Table<Emoji>, targets: set<int>, q: Key)
    ensures q in Bounded(l, targets) ==> q in l && Bounded(l, targets)[q] == l[q]
  {
  }

  lemma OutdoneDiffers(kept: seq<Reaction>, batch: seq<Reaction>)
    requires Picked(kept, batch) && Outdone(batch)
    ensures TableOf(kept) != Bounded(Latest(map[], batch), Targets(batch))
  {
    var a, b :| Chosen(batch, a) && Overtakes(batch, b, a);
    ChosenIsHeld(kept, batch, a);
    var i := Find(kept, KeyOf(a), |kept|);
    assert HoldsBest(batch, kept[i]);
    TwoLasts(batch, a, kept[i]);
    TableAt(kept, i);
    OvertakenRow(batch, a, b);
  }

  /** Of two rows of one target the one ahead is kept if the other is. */
  lemma AheadIsBounded(l: Table<Emoji>, targets: set<int>, x: Key, y: Key)
    requires x in l && y in l && x.major == y.major && x.major in targets && Ahead(SmallerFirst, l[y].at, y, l[x].at, x)
    requires x in Bounded(l, targets)
    ensures y in Bounded(l, targets)
  {
    var p := Part(l, One(x.major));
    SubsetSize(Higher(SmallerFirst, p, y), Higher(SmallerFirst, p, x));
  }

  lemma MisplacedDiffers(kept: seq<Reaction>, batch: seq<Reaction>)
    requires Picked(kept, batch) && Misplaced(batch)
    ensures TableOf(kept) != Bounded(Latest(map[], batch), Targets(batch))
  {
    var a, b :| Displaces(batch, a, b);
    var l, targets := Latest(map[], batch), Targets(batch);
    assert a.target in targets;
    LatestAt(batch, a);
    LatestAt(batch, b);
    if KeyOf(a) in Bounded(l, targets) { AheadIsBounded(l, targets, KeyOf(a), KeyOf(b)); }
    PickedIsKept(kept, batch);
    hide Picked, Latest, Bounded, KeysOf;
    ChosenIsHeld(kept, batch, a);
    TableAt(kept, Find(kept, KeyOf(a), |kept|));
    if KeyOf(b) in TableOf(kept) {
      var i := IndexOf(kept, KeyOf(b));
      HeldIsChosen(kept, batch, b, i);
    }
  }

  /** For every batch: filtering first is harmless for every table exactly when the filter
      keeps no reaction that is outdone and none in the place of one the cache prefers. */
  lemma PreTrimOnBatch(batch: seq<Reaction>)
    requires |Targets(batch)| <= MAX_MESSAGES_PER_CHAT
    ensures (forall t, stored :: IsBounded(t, stored) ==> Harmless(t, stored, batch)) <==> !Outdone(batch) && !Misplaced(batch)
  {
    var kept, targets := Filtered([], batch), Targets(batch);
    FilterPicksAll(batch);
    assert [] + batch == batch;
    FilteredFrom([], batch);
    Narrow(kept, batch, targets);
    RunOfKept(kept, targets);
    SmallIsBounded(map[], targets);
    RunOfSteps(map[], targets, batch);
    hide Picked, Outdone, Misplaced;
    if Outdone(batch) { OutdoneDiffers(kept, batch); }
    if Misplaced(batch) { MisplacedDiffers(kept, batch); }
    if !Outdone(batch) && !Misplaced(batch) { UndisturbedMeets(kept, batch); }
    PreTrimExact(batch);
  }
}
