/** Reactions attached to one HistorySync conversation are filtered in memory
    before they reach the cache. The filter works on Go time values, the cache on
    milliseconds. */
module Bootstrap {
  import opened Frontier
  import opened Reactions

  const MAX_MESSAGES_PER_CHAT: nat := 50
  const MAX_REACTIONS_PER_CHAT: nat := MAX_MESSAGES_PER_CHAT * MAX_REACTIONS_PER_MESSAGE

  predicate ReactionSupersedes(c: Reaction, e: Reaction) {
    || c.updatedAt > e.updatedAt
    || (c.updatedAt == e.updatedAt &&
        ((c.emoji == 0 && e.emoji != 0) || (c.emoji != 0 && e.emoji != 0 && c.emoji > e.emoji)))
  }

  predicate Older(a: Reaction, b: Reaction) {
    a.updatedAt < b.updatedAt || (a.updatedAt == b.updatedAt && a.reactor > b.reactor)
  }

  // ---- what the loop accumulates over the first n slots

  function OldestOf(s: seq<Reaction>, target: int, n: nat): (o: int)
    requires n <= |s|
    ensures -1 <= o < n && (o >= 0 ==> s[o].target == target)
    ensures o < 0 ==> forall i :: 0 <= i < n ==> s[i].target != target
  {
    if n == 0 then -1 else
      var o := OldestOf(s, target, n - 1);
      if s[n-1].target == target && (o < 0 || Older(s[n-1], s[o])) then n - 1 else o
  }

  function CountOf(s: seq<Reaction>, target: int): nat {
    if s == [] then 0 else
      CountOf(s[..|s|-1], target) + if s[|s|-1].target == target then 1 else 0
  }

  function Find(s: seq<Reaction>, q: Key, n: nat): (f: int)
    requires n <= |s|
    ensures -1 <= f < n && (f >= 0 ==> KeyOf(s[f]) == q)
    ensures f < 0 ==> forall i :: 0 <= i < n ==> KeyOf(s[i]) != q
  {
    if n == 0 then -1 else
      var f := Find(s, q, n - 1);
      if f >= 0 then f else if KeyOf(s[n-1]) == q then n - 1 else -1
  }

  /** The list after offering one candidate. */
  function Retained(s: seq<Reaction>, c: Reaction): seq<Reaction> {
    var f := Find(s, KeyOf(c), |s|);
    var o := OldestOf(s, c.target, |s|);
    if f >= 0 then
      if ReactionSupersedes(c, s[f]) then s[f := c] else s
    else if CountOf(s, c.target) < MAX_REACTIONS_PER_MESSAGE && |s| < MAX_REACTIONS_PER_CHAT then
      s + [c]
    else if o >= 0 && c.updatedAt > s[o].updatedAt then
      s[o := c]
    else
      s
  }

  method RetainNewestBootstrapReaction(reactions: seq<Reaction>, candidate: Reaction) returns (kept: seq<Reaction>)
    ensures kept == Retained(reactions, candidate)
  {
    kept := reactions;
    var oldest, targetCount := -1, 0;
    for index := 0 to |reactions|
      invariant kept == reactions
      invariant oldest == OldestOf(reactions, candidate.target, index)
      invariant targetCount == CountOf(reactions[..index], candidate.target)
      invariant Find(reactions, KeyOf(candidate), index) == -1
    {
      var existing := reactions[index];
      assert reactions[..index+1][..index] == reactions[..index];
      if existing.target == candidate.target {
        targetCount := targetCount + 1;
        if existing.reactor == candidate.reactor {
          FindStays(reactions, KeyOf(candidate), index + 1, |reactions|);
          if ReactionSupersedes(candidate, existing) {
            kept := kept[index := candidate];
          }
          return;
        }
        if oldest < 0 || Older(existing, reactions[oldest]) {
          oldest := index;
        }
      }
    }
    assert reactions[..|reactions|] == reactions;
    if targetCount < MAX_REACTIONS_PER_MESSAGE && |reactions| < MAX_REACTIONS_PER_CHAT {
      return reactions + [candidate];
    }
    if oldest >= 0 && candidate.updatedAt > reactions[oldest].updatedAt {
      kept := kept[oldest := candidate];
    }
  }

  lemma {:induction false} FindStays(s: seq<Reaction>, q: Key, m: nat, n: nat)
    requires m <= n <= |s| && Find(s, q, m) >= 0
    ensures Find(s, q, n) == Find(s, q, m)
    decreases n
  {
    if m < n { FindStays(s, q, m, n - 1); }
  }

  // ---- the list as a table

  predicate Distinct(s: seq<Reaction>) {
    forall i, j :: 0 <= i < j < |s| ==> KeyOf(s[i]) != KeyOf(s[j])
  }

  function TableOf(s: seq<Reaction>): Table<Emoji>
    requires Distinct(s)
  {
    map r | r in s :: KeyOf(r) := Row(r)
  }

  lemma TableAt(s: seq<Reaction>, i: nat)
    requires Distinct(s) && i < |s|
    ensures KeyOf(s[i]) in TableOf(s) && TableOf(s)[KeyOf(s[i])] == Row(s[i])
  {
    assert s[i] in s;
  }

  lemma TableOfSnoc(s: seq<Reaction>, r: Reaction)
    requires Distinct(s + [r])
    ensures Distinct(s)
    ensures KeyOf(r) !in TableOf(s) && TableOf(s + [r]) == TableOf(s)[KeyOf(r) := Row(r)]
  {
    assert forall i :: 0 <= i < |s| ==> (s + [r])[i] == s[i];
    assert (s + [r])[|s|] == r;
    forall x | x in s ensures KeyOf(x) != KeyOf(r) {
      var i :| 0 <= i < |s| && s[i] == x;
    }
  }

  lemma UpdateSizes(t: Table<Emoji>, q: Key, v: Stamped<Emoji>, i: int)
    ensures |t[q := v]| == |t| + if q !in t then 1 else 0
    ensures |Part(t[q := v], One(i))| == |Part(t, One(i))| + if q !in t && q.major == i then 1 else 0
  {
    PartOfUpdate(t, One(i), q, v);
    KeyAdded(t, q, v);
    KeyAdded(Part(t, One(i)), q, v);
  }

  lemma KeyAdded(t: Table<Emoji>, q: Key, v: Stamped<Emoji>)
    ensures |t[q := v]| == |t| + if q !in t then 1 else 0
  {
    assert t[q := v].Keys == t.Keys + {q};
    assert |t| == |t.Keys| && |t[q := v]| == |t[q := v].Keys|;
  }

  lemma SnocSize(p: seq<Reaction>, r: Reaction, target: int)
    requires Distinct(p + [r])
    ensures Distinct(p) && |TableOf(p + [r])| == |TableOf(p)| + 1
    ensures |Part(TableOf(p + [r]), One(target))| == |Part(TableOf(p), One(target))| + if r.target == target then 1 else 0
  {
    TableOfSnoc(p, r);
    hide TableOf, Part;
    UpdateSizes(TableOf(p), KeyOf(r), Row(r), target);
  }

  lemma EmptySize(target: int)
    ensures |TableOf([])| == 0 && |Part(TableOf([]), One(target))| == 0
  {
    assert TableOf([]) == map[];
    assert Part(TableOf([]), One(target)) == map[];
  }

  lemma {:induction false} TableSize(s: seq<Reaction>, target: int)
    requires Distinct(s)
    ensures |TableOf(s)| == |s|
    ensures |Part(TableOf(s), One(target))| == CountOf(s, target)
  {
    hide TableOf, Part;
    if s == [] {
      EmptySize(target);
    } else {
      var p, r := s[..|s|-1], s[|s|-1];
      assert s == p + [r];
      SnocSize(p, r, target);
      TableSize(p, target);
    }
  }

  /** At most k entries per major identifier bounds the whole table. */
  lemma {:induction false} SizeByMajor<V>(m: Table<V>, majors: set<int>, k: nat)
    requires forall q :: q in m ==> q.major in majors
    requires forall i :: i in majors ==> |Part(m, One(i))| <= k
    ensures |m| <= k * |majors|
    decreases majors, 1
  {
    if i :| i in majors {
      SizeWithout(m, majors, k, i);
      assert k * |majors| == k * (|majors| - 1) + k;
    } else {
      assert m == map[];
    }
  }

  lemma {:induction false} SizeWithout<V>(m: Table<V>, majors: set<int>, k: nat, i: int)
    requires forall q :: q in m ==> q.major in majors
    requires forall i :: i in majors ==> |Part(m, One(i))| <= k
    requires i in majors
    ensures |m| <= k * (|majors| - 1) + |Part(m, One(i))|
    decreases majors, 0
  {
    var rest, others := Part(m, Outside({i})), majors - {i};
    SplitSize(m, i);
    forall j | j in others ensures |Part(rest, One(j))| <= k {
      PartOfRest(m, i, j);
    }
    hide Part;
    SizeByMajor(rest, others, k);
  }

  lemma PartOfRest<V>(m: Table<V>, i: int, j: int)
    requires i != j
    ensures Part(Part(m, Outside({i})), One(j)) == Part(m, One(j))
  {
  }

  // ---- one offer is one bounded upsert

  /** How the cache decides between two values at one millisecond. */
  predicate EmojiWins(a: Emoji, b: Emoji) { (a == 0 && b != 0) || (a != 0 && b != 0 && a > b) }

  /** The branch for a known reactor in which filter and cache part ways: two values lie
      within one millisecond, and their emoji are ordered against their instants. */
  predicate OrderLost(c: Reaction, e: Reaction) {
    && Millis(c.updatedAt) == Millis(e.updatedAt) && c.updatedAt != e.updatedAt && c.emoji != e.emoji
    && (c.updatedAt > e.updatedAt <==> EmojiWins(e.emoji, c.emoji))
  }

  /** The order in which the cache drops the rows of a full target. */
  predicate Behind(a: Reaction, b: Reaction) {
    Ahead(SmallerFirst, Row(b).at, KeyOf(b), Row(a).at, KeyOf(a))
  }

  /** What the filter drops when the target is full. */
  function Loser(s: seq<Reaction>, c: Reaction): Reaction
    requires OldestOf(s, c.target, |s|) >= 0
  {
    var o := OldestOf(s, c.target, |s|);
    if c.updatedAt > s[o].updatedAt then s[o] else c
  }

  predicate HasBehind(s: seq<Reaction>, target: int, a: Reaction) {
    exists i :: 0 <= i < |s| && s[i].target == target && Behind(s[i], a)
  }

  /** The branch for a new reactor in which they part ways: the target is full, and what
      the filter drops is not the last by millisecond and reactor. */
  predicate WrongLoser(s: seq<Reaction>, c: Reaction) {
    && Find(s, KeyOf(c), |s|) < 0
    && CountOf(s, c.target) >= MAX_REACTIONS_PER_MESSAGE && OldestOf(s, c.target, |s|) >= 0
    && (HasBehind(s, c.target, Loser(s, c)) || Behind(c, Loser(s, c)))
  }

  predicate Diverges(s: seq<Reaction>, c: Reaction) {
    var f := Find(s, KeyOf(c), |s|);
    if f >= 0 then OrderLost(c, s[f]) else WrongLoser(s, c)
  }

  /** The list the filter keeps: distinct, at most 64 per target. */
  ghost predicate WellKept(s: seq<Reaction>) {
    Distinct(s) && forall i :: |Part(TableOf(s), One(i))| <= MAX_REACTIONS_PER_MESSAGE
  }

  predicate CapIdle(s: seq<Reaction>, c: Reaction)
  {
    CountOf(s, c.target) < MAX_REACTIONS_PER_MESSAGE ==> |s| < MAX_REACTIONS_PER_CHAT
  }

  lemma OldestIsLowest(s: seq<Reaction>, target: int, n: nat)
    requires n <= |s|
    ensures var o := OldestOf(s, target, n);
            o >= 0 ==> forall i :: 0 <= i < n && s[i].target == target ==> !Older(s[i], s[o])
  {
  }

  lemma TableOfUpdate(s: seq<Reaction>, i: nat, c: Reaction)
    requires Distinct(s) && i < |s|
    requires KeyOf(s[i]) == KeyOf(c) || Find(s, KeyOf(c), |s|) < 0
    ensures Distinct(s[i := c])
    ensures TableOf(s[i := c]) == (TableOf(s) - {KeyOf(s[i])})[KeyOf(c) := Row(c)]
  {
    var s1 := s[i := c];
    assert s1[i] in s1;
    forall r | r in s && r != s[i] ensures r in s1 {
      var j :| 0 <= j < |s| && s[j] == r;
      assert s1[j] in s1;
    }
    forall r | r in s1 && r != c ensures r in s && KeyOf(r) != KeyOf(s[i]) {
      var j :| 0 <= j < |s1| && s1[j] == r;
      assert s[j] in s;
    }
  }

  lemma BoundTargetIdle(t: Table<Emoji>, target: int)
    requires |Part(t, One(target))| <= MAX_REACTIONS_PER_MESSAGE
    ensures BoundTarget(t, target) == t
  {
    TrimSize(SmallerFirst, Part(t, One(target)), MAX_REACTIONS_PER_MESSAGE);
    assert forall q :: q in t && q.major == target ==> q in Part(t, One(target));
  }

  lemma TrimDropsLow(p: Table<Emoji>, low: Key)
    requires |p| == MAX_REACTIONS_PER_MESSAGE + 1 && low in p
    requires forall q :: q in p && q != low ==> Ahead(SmallerFirst, p[q].at, q, p[low].at, low)
    ensures forall q :: q in p ==> (Kept(SmallerFirst, p, q, MAX_REACTIONS_PER_MESSAGE) <==> q != low)
  {
    assert |p| == |p.Keys|;
    TrimUnique(SmallerFirst, p, MAX_REACTIONS_PER_MESSAGE, p.Keys - {low});
    assert forall q :: q in p ==> (q in Trim(SmallerFirst, p, MAX_REACTIONS_PER_MESSAGE).Keys <==> q in p.Keys - {low});
  }

  lemma BoundTargetDrops(t: Table<Emoji>, target: int, low: Key)
    requires |Part(t, One(target))| == MAX_REACTIONS_PER_MESSAGE + 1
    requires low in Part(t, One(target))
    requires forall p :: p in Part(t, One(target)) && p != low ==> Ahead(SmallerFirst, t[p].at, p, t[low].at, low)
    ensures BoundTarget(t, target) == t - {low}
  {
    TrimDropsLow(Part(t, One(target)), low);
    assert forall q :: q in t && q.major == target ==> q in Part(t, One(target));
  }

  lemma KnownDecision(c: Reaction, e: Reaction)
    ensures (ReactionSupersedes(c, e) <==> Supersedes(Row(c), Row(e))) || Row(c) == Row(e) <==> !OrderLost(c, e)
  {
  }

  lemma KnownReplaced(s: seq<Reaction>, c: Reaction, f: nat)
    requires Distinct(s) && f < |s| && KeyOf(s[f]) == KeyOf(c)
    ensures KeyOf(c) in TableOf(s) && TableOf(s)[KeyOf(c)] == Row(s[f])
    ensures Distinct(s[f := c]) && TableOf(s[f := c]) == TableOf(s)[KeyOf(c) := Row(c)]
  {
    TableAt(s, f);
    TableOfUpdate(s, f, c);
  }

  lemma KnownTable(s: seq<Reaction>, c: Reaction)
    requires Distinct(s) && Find(s, KeyOf(c), |s|) >= 0
    ensures Distinct(Retained(s, c)) && KeyOf(c) in TableOf(s)
    ensures TableOf(Retained(s, c)) == Upsert(TableOf(s), c) <==> !Diverges(s, c)
  {
    var f := Find(s, KeyOf(c), |s|);
    KnownReplaced(s, c, f);
    KnownDecision(c, s[f]);
    if Row(c) == Row(s[f]) {
      assert TableOf(s) == TableOf(s)[KeyOf(c) := Row(c)];
    }
  }

  lemma RetainKnown(s: seq<Reaction>, c: Reaction)
    requires Distinct(s)
    requires Find(s, KeyOf(c), |s|) >= 0 && CountOf(s, c.target) <= MAX_REACTIONS_PER_MESSAGE
    ensures Distinct(Retained(s, c))
    ensures TableOf(Retained(s, c)) == BoundTarget(Upsert(TableOf(s), c), c.target) <==> !Diverges(s, c)
  {
    KnownTable(s, c);
    TableSize(s, c.target);
    PartOfPut(TableOf(s), One(c.target), KeyOf(c), Row(c), Supersedes);
    BoundTargetIdle(Upsert(TableOf(s), c), c.target);
  }

  lemma UpsertNew(s: seq<Reaction>, c: Reaction)
    requires Distinct(s) && Find(s, KeyOf(c), |s|) < 0
    ensures KeyOf(c) !in TableOf(s)
    ensures Part(Upsert(TableOf(s), c), One(c.target)) == Part(TableOf(s), One(c.target))[KeyOf(c) := Row(c)]
    ensures |Part(Upsert(TableOf(s), c), One(c.target))| == CountOf(s, c.target) + 1
  {
    TableSize(s, c.target);
    PartOfUpdate(TableOf(s), One(c.target), KeyOf(c), Row(c));
    assert KeyOf(c) !in TableOf(s);
  }

  lemma RetainAppends(s: seq<Reaction>, c: Reaction)
    requires WellKept(s) && CapIdle(s, c)
    requires Find(s, KeyOf(c), |s|) < 0 && CountOf(s, c.target) < MAX_REACTIONS_PER_MESSAGE
    ensures Distinct(Retained(s, c))
    ensures TableOf(Retained(s, c)) == BoundTarget(Upsert(TableOf(s), c), c.target)
  {
    UpsertNew(s, c);
    TableOfSnoc(s, c);
    BoundTargetIdle(Upsert(TableOf(s), c), c.target);
  }

  lemma IndexOf(s: seq<Reaction>, p: Key) returns (i: nat)
    requires Distinct(s) && p in TableOf(s)
    ensures i < |s| && KeyOf(s[i]) == p && TableOf(s)[p] == Row(s[i])
  {
    i :| 0 <= i < |s| && KeyOf(s[i]) == p;
    TableAt(s, i);
  }

  lemma ReplaceKey<V>(t: Table<V>, a: Key, q: Key, v: Stamped<V>)
    requires a in t && q !in t
    ensures (t - {a})[q := v] == t[q := v] - {a}
    ensures t[q := v] - {q} == t
  {
  }

  lemma EvictedTable(s: seq<Reaction>, c: Reaction, o: nat)
    requires Distinct(s) && o < |s| && Find(s, KeyOf(c), |s|) < 0
    ensures KeyOf(s[o]) in TableOf(s) && TableOf(s)[KeyOf(s[o])] == Row(s[o])
    ensures Distinct(s[o := c])
    ensures TableOf(s[o := c]) == Upsert(TableOf(s), c) - {KeyOf(s[o])}
    ensures TableOf(s) == Upsert(TableOf(s), c) - {KeyOf(c)}
  {
    TableAt(s, o);
    TableOfUpdate(s, o, c);
    assert KeyOf(c) !in TableOf(s) by { UpsertNew(s, c); }
    ReplaceKey(TableOf(s), KeyOf(s[o]), KeyOf(c), Row(c));
  }

  /** What the filter holds afterwards: the new table less one of two rows. */
  lemma EvictOutcome(s: seq<Reaction>, c: Reaction, o: nat)
    requires Distinct(s) && Find(s, KeyOf(c), |s|) < 0 && CountOf(s, c.target) == MAX_REACTIONS_PER_MESSAGE
    requires o < |s| && o == OldestOf(s, c.target, |s|)
    ensures Distinct(Retained(s, c))
    ensures TableOf(Retained(s, c)) ==
            Upsert(TableOf(s), c) - {if c.updatedAt > s[o].updatedAt then KeyOf(s[o]) else KeyOf(c)}
  {
    EvictedTable(s, c, o);
  }

  /** The row the cache drops of a full target is the one the filter drops exactly when
      nothing is behind the latter. */
  lemma LowIsLoser(s: seq<Reaction>, c: Reaction, low: Key)
    requires Distinct(s) && Find(s, KeyOf(c), |s|) < 0 && OldestOf(s, c.target, |s|) >= 0
    requires var u := Upsert(TableOf(s), c); low in Part(u, One(c.target)) && IsLowest(u, c.target, low)
    ensures low == KeyOf(Loser(s, c)) <==> !(HasBehind(s, c.target, Loser(s, c)) || Behind(c, Loser(s, c)))
  {
    var u, a := Upsert(TableOf(s), c), Loser(s, c);
    UpsertNew(s, c);
    forall i | 0 <= i < |s| && s[i].target == c.target ensures InPart(u, s[i]) { TableAt(s, i); }
    assert InPart(u, c) && InPart(u, a);
    if low != KeyOf(a) {
      assert Ahead(SmallerFirst, u[KeyOf(a)].at, KeyOf(a), u[low].at, low);
      if low != KeyOf(c) {
        var i := IndexOf(s, low);
        assert Behind(s[i], a);
      }
    }
  }

  predicate InPart(u: Table<Emoji>, r: Reaction) {
    KeyOf(r) in Part(u, One(r.target)) && u[KeyOf(r)] == Row(r)
  }

  predicate IsLowest(u: Table<Emoji>, target: int, low: Key)
    requires low in u
  {
    forall p :: p in Part(u, One(target)) && p != low ==> Ahead(SmallerFirst, u[p].at, p, u[low].at, low)
  }

  /** What the cache holds afterwards: the new table less its lowest row. */
  lemma BoundOutcome(s: seq<Reaction>, c: Reaction) returns (low: Key)
    requires Distinct(s) && Find(s, KeyOf(c), |s|) < 0 && CountOf(s, c.target) == MAX_REACTIONS_PER_MESSAGE
    ensures var u := Upsert(TableOf(s), c);
      && low in Part(u, One(c.target)) && IsLowest(u, c.target, low)
      && BoundTarget(u, c.target) == u - {low}
  {
    var u := Upsert(TableOf(s), c);
    UpsertNew(s, c);
    var p := Part(u, One(c.target));
    assert KeyOf(c) in p;
    low := Oldest(SmallerFirst, p, p.Keys);
    BoundTargetDrops(u, c.target, low);
  }

  lemma RetainEvicts(s: seq<Reaction>, c: Reaction)
    requires Distinct(s) && Find(s, KeyOf(c), |s|) < 0 && CountOf(s, c.target) == MAX_REACTIONS_PER_MESSAGE
    ensures Distinct(Retained(s, c))
    ensures TableOf(Retained(s, c)) == BoundTarget(Upsert(TableOf(s), c), c.target) <==> !Diverges(s, c)
  {
    var o := OldestOf(s, c.target, |s|);
    if o < 0 { NoneOfTarget(s, c.target); }
    EvictOutcome(s, c, o);
    var low := BoundOutcome(s, c);
    LowIsLoser(s, c, low);
    EvictedTable(s, c, o);
    UpsertNew(s, c);
    if low != KeyOf(Loser(s, c)) { DropOneOfTwo(Upsert(TableOf(s), c), low, KeyOf(Loser(s, c))); }
  }

  lemma DropOneOfTwo(u: Table<Emoji>, a: Key, b: Key)
    requires a in u && b in u && a != b
    ensures u - {a} != u - {b}
  {
    assert a in u - {b} && a !in u - {a};
  }

  lemma {:induction false} NoneOfTarget(s: seq<Reaction>, target: int)
    requires forall i :: 0 <= i < |s| ==> s[i].target != target
    ensures CountOf(s, target) == 0
  {
    if s != [] { NoneOfTarget(s[..|s|-1], target); }
  }

  lemma BoundTargetSizes(t: Table<Emoji>, c: Reaction, i: int)
    requires |Part(t, One(i))| <= MAX_REACTIONS_PER_MESSAGE
    ensures |Part(BoundTarget(Upsert(t, c), c.target), One(i))| <= MAX_REACTIONS_PER_MESSAGE
  {
    var u := Upsert(t, c);
    if i == c.target {
      assert Part(BoundTarget(u, i), One(i)) == Newest(u, One(i));
      TrimSize(SmallerFirst, Part(u, One(i)), MAX_REACTIONS_PER_MESSAGE);
    } else {
      assert Part(BoundTarget(u, c.target), One(i)) == Part(t, One(i));
    }
  }

  /** Offering one reaction in memory is the cache's upsert and per-target trim, for all
      times, exactly when the two do not part ways in one of the two branches. */
  lemma RetainExact(s: seq<Reaction>, c: Reaction)
    requires WellKept(s) && CapIdle(s, c)
    ensures Distinct(Retained(s, c))
    ensures TableOf(Retained(s, c)) == BoundTarget(Upsert(TableOf(s), c), c.target) <==> !Diverges(s, c)
  {
    TableSize(s, c.target);
    if Find(s, KeyOf(c), |s|) >= 0 {
      RetainKnown(s, c);
    } else if CountOf(s, c.target) < MAX_REACTIONS_PER_MESSAGE {
      RetainAppends(s, c);
    } else {
      RetainEvicts(s, c);
    }
  }

  lemma RetainRefines(s: seq<Reaction>, c: Reaction)
    requires WellKept(s) && CapIdle(s, c) && !Diverges(s, c)
    ensures WellKept(Retained(s, c))
    ensures TableOf(Retained(s, c)) == BoundTarget(Upsert(TableOf(s), c), c.target)
  {
    RetainExact(s, c);
    forall i ensures |Part(TableOf(Retained(s, c)), One(i))| <= MAX_REACTIONS_PER_MESSAGE {
      BoundTargetSizes(TableOf(s), c, i);
    }
  }

  // ---- the whole batch

  function Filtered(kept: seq<Reaction>, batch: seq<Reaction>): seq<Reaction>
    decreases |batch|
  {
    if batch == [] then kept else Filtered(Retained(kept, batch[0]), batch[1..])
  }

  method FilterBatch(batch: seq<Reaction>) returns (reactions: seq<Reaction>)
    ensures reactions == Filtered([], batch)
  {
    reactions := [];
    for i := 0 to |batch|
      invariant Filtered(reactions, batch[i..]) == Filtered([], batch)
    {
      assert batch[i..][1..] == batch[i+1..];
      reactions := RetainNewestBootstrapReaction(reactions, batch[i]);
    }
  }

  /** No offer of the batch takes a branch in which filter and cache part ways. */
  predicate NeverDiverges(kept: seq<Reaction>, batch: seq<Reaction>)
    decreases |batch|
  {
    batch == [] || (!Diverges(kept, batch[0]) && NeverDiverges(Retained(kept, batch[0]), batch[1..]))
  }

  function Targets(s: seq<Reaction>): set<int> { set r | r in s :: r.target }

  function Steps(s: seq<Reaction>, stored: set<int>): seq<Step> {
    seq(|s|, i requires 0 <= i < |s| => Step(stored, s[i]))
  }

  /** With at most 50 target messages the per-chat cap never decides. */
  lemma CapNeverDecides(s: seq<Reaction>, c: Reaction, targets: set<int>)
    requires WellKept(s) && Targets(s + [c]) <= targets && |targets| <= MAX_MESSAGES_PER_CHAT
    ensures CapIdle(s, c)
  {
    TableSize(s, c.target);
    assert c in s + [c];
    forall q | q in TableOf(s) ensures q.major in targets {
      var r :| r in s && KeyOf(r) == q;
      assert r in s + [c];
    }
    SizeWithout(TableOf(s), targets, MAX_REACTIONS_PER_MESSAGE, c.target);
  }

  lemma Narrow(a: seq<Reaction>, b: seq<Reaction>, targets: set<int>)
    requires forall r :: r in a ==> r in b
    requires Targets(b) <= targets
    ensures Targets(a) <= targets
  {
    forall r | r in a ensures r.target in targets {
      assert r in b && r.target in Targets(b);
    }
  }

  lemma RetainedFrom(s: seq<Reaction>, c: Reaction)
    ensures forall r :: r in Retained(s, c) ==> r in s || r == c
  {
  }

  /** Once every target is stored the orphan bound has nothing to do. */
  lemma AllStored(s: seq<Reaction>, c: Reaction, targets: set<int>)
    requires Distinct(s) && Targets(s + [c]) <= targets
    ensures WriteRows(TableOf(s), targets, c) == BoundTarget(Upsert(TableOf(s), c), c.target)
  {
    assert c in s + [c];
    forall q | q in TableOf(s) ensures q.major in targets {
      var r :| r in s && KeyOf(r) == q;
      assert r in s + [c];
    }
  }

  lemma StepsTail(s: seq<Reaction>, stored: set<int>)
    requires s != []
    ensures Steps(s, stored)[0] == Step(stored, s[0]) && Steps(s, stored)[1..] == Steps(s[1..], stored)
  {
  }

  lemma FilterStep(s: seq<Reaction>, c: Reaction, rest: seq<Reaction>, targets: set<int>)
    requires WellKept(s) && !Diverges(s, c)
    requires Targets(s + ([c] + rest)) <= targets && |targets| <= MAX_MESSAGES_PER_CHAT
    ensures WellKept(Retained(s, c)) && Targets(Retained(s, c) + rest) <= targets
    ensures TableOf(Retained(s, c)) == WriteRows(TableOf(s), targets, c)
  {
    Narrow(s + [c], s + ([c] + rest), targets);
    CapNeverDecides(s, c, targets);
    RetainRefines(s, c);
    AllStored(s, c, targets);
    RetainedFrom(s, c);
    Narrow(Retained(s, c) + rest, s + ([c] + rest), targets);
  }

  /** The filter is a run of the cache over an empty table in which every target
      is stored. */
  lemma {:induction false} FilterIsRun(s: seq<Reaction>, batch: seq<Reaction>, targets: set<int>)
    requires WellKept(s) && NeverDiverges(s, batch)
    requires Targets(s + batch) <= targets && |targets| <= MAX_MESSAGES_PER_CHAT
    ensures WellKept(Filtered(s, batch))
    ensures forall r :: r in Filtered(s, batch) ==> r in s || r in batch
    ensures TableOf(Filtered(s, batch)) == Run(TableOf(s), Steps(batch, targets))
    decreases |batch|
  {
    if batch != [] {
      var c, rest := batch[0], batch[1..];
      assert batch == [c] + rest;
      FilterStep(s, c, rest, targets);
      FilterIsRun(Retained(s, c), rest, targets);
      RetainedFrom(s, c);
      StepsTail(batch, targets);
    }
  }

  /** Latest values of what the filter kept, against those of the whole batch. */
  ghost predicate Setting(t: Table<Emoji>, kept: seq<Reaction>, batch: seq<Reaction>,
                          x: Table<Emoji>, y: Table<Emoji>, b: Table<Emoji>)
  {
    && IsLatest(x, t, kept) && IsLatest(y, t, batch) && IsLatest(b, map[], batch)
    && WellKept(kept) && TableOf(kept) == Bounded(b, Targets(batch))
    && forall r :: r in kept ==> r in batch
  }

  lemma FilteredIsOlder(t: Table<Emoji>, kept: seq<Reaction>, batch: seq<Reaction>,
                        x: Table<Emoji>, y: Table<Emoji>, b: Table<Emoji>, q: Key)
    requires Setting(t, kept, batch, x, y, b) && q in x
    ensures q in y && !Supersedes(x[q], y[q]) && x[q].at <= y[q].at
  {
    if !(q in t && x[q] == t[q]) {
      var r :| r in kept && KeyOf(r) == q && Row(r) == x[q];
      assert r in batch;
    }
  }

  lemma BatchIsOlder(t: Table<Emoji>, batch: seq<Reaction>, y: Table<Emoji>, b: Table<Emoji>, q: Key)
    requires IsLatest(y, t, batch) && IsLatest(b, map[], batch) && q in b
    ensures q in y && !Supersedes(b[q], y[q]) && b[q].at <= y[q].at
  {
    var r :| r in batch && KeyOf(r) == q && Row(r) == b[q];
  }

  /** A batch value dropped by the filter is behind 64 batch values of its target. */
  lemma FilteredLoses(t: Table<Emoji>, kept: seq<Reaction>, batch: seq<Reaction>,
                      x: Table<Emoji>, y: Table<Emoji>, b: Table<Emoji>, c: Class, q: Key)
    requires Setting(t, kept, batch, x, y, b)
    requires q in b && q !in TableOf(kept)
    requires q in Part(y, c) && y[q] == b[q]
    ensures !Kept(SmallerFirst, Part(y, c), q, MAX_REACTIONS_PER_MESSAGE)
  {
    var r0 :| r0 in batch && KeyOf(r0) == q;
    assert q.major in Targets(batch);
    var pb := Part(b, One(q.major));
    forall p | p in pb ensures p in Part(y, c) && pb[p].at <= Part(y, c)[p].at {
      BatchIsOlder(t, batch, y, b, p);
    }
    StaysDropped(SmallerFirst, pb, Part(y, c), q, MAX_REACTIONS_PER_MESSAGE);
  }

  lemma FilteredKeeps(t: Table<Emoji>, kept: seq<Reaction>, batch: seq<Reaction>,
                      x: Table<Emoji>, y: Table<Emoji>, b: Table<Emoji>, c: Class, q: Key)
    requires Setting(t, kept, batch, x, y, b)
    requires q in Part(y, c) && Kept(SmallerFirst, Part(y, c), q, MAX_REACTIONS_PER_MESSAGE)
    ensures q in x && x[q] == y[q]
  {
    if q in t && y[q] == t[q] {
      FilteredIsOlder(t, kept, batch, x, y, b, q);
      SupersedesIsStrictTotal(x[q], y[q], x[q]);
    } else {
      var r :| r in batch && KeyOf(r) == q && Row(r) == y[q];
      assert q in b && b[q] == y[q] by { SupersedesIsStrictTotal(b[q], y[q], b[q]); }
      if q !in TableOf(kept) { FilteredLoses(t, kept, batch, x, y, b, c, q); }
      var i := IndexOf(kept, q);
      assert kept[i] in kept;
      FilteredIsOlder(t, kept, batch, x, y, b, q);
      SupersedesIsStrictTotal(x[q], y[q], x[q]);
    }
  }

  lemma RunOfSteps(t: Table<Emoji>, stored: set<int>, s: seq<Reaction>)
    requires IsBounded(t, stored)
    ensures Run(t, Steps(s, stored)) == Bounded(Latest(t, s), stored)
  {
    assert Mutations(Steps(s, stored)) == s;
    RunIsNewestOfLatest(t, stored, Steps(s, stored));
  }

  /** Filtering the batch in memory first and applying what is left gives the same rows
      as applying the whole batch. */
  predicate Harmless(t: Table<Emoji>, stored: set<int>, batch: seq<Reaction>) {
    Run(t, Steps(Filtered([], batch), stored)) == Run(t, Steps(batch, stored))
  }

  /** Between the filtered and the whole batch nothing is lost, when the filter kept the
      newest rows of each target. */
  lemma KeptIsEnough(t: Table<Emoji>, stored: set<int>, batch: seq<Reaction>)
    requires IsBounded(t, stored)
    requires WellKept(Filtered([], batch)) && TableOf(Filtered([], batch)) == Bounded(Latest(map[], batch), Targets(batch))
    ensures Harmless(t, stored, batch)
  {
    var kept := Filtered([], batch);
    var x, y, b := Latest(t, kept), Latest(t, batch), Latest(map[], batch);
    FilteredFrom([], batch);
    LatestIsLatest(t, kept);
    LatestIsLatest(t, batch);
    LatestIsLatest(map[], batch);
    forall i ensures Newest(x, ClassOf(i, stored)) == Newest(y, ClassOf(i, stored)) {
      ClassesTrimAlike(t, kept, batch, x, y, b, ClassOf(i, stored));
    }
    BoundedByClass(x, y, stored);
    RunOfSteps(t, stored, batch);
    RunOfSteps(t, stored, kept);
  }

  lemma ClassesTrimAlike(t: Table<Emoji>, kept: seq<Reaction>, batch: seq<Reaction>,
                         x: Table<Emoji>, y: Table<Emoji>, b: Table<Emoji>, c: Class)
    requires Setting(t, kept, batch, x, y, b)
    ensures Newest(x, c) == Newest(y, c)
  {
    forall q | q in Part(y, c) && Kept(SmallerFirst, Part(y, c), q, MAX_REACTIONS_PER_MESSAGE)
      ensures q in Part(x, c) && Part(x, c)[q] == Part(y, c)[q]
    {
      FilteredKeeps(t, kept, batch, x, y, b, c, q);
    }
    forall q | q in Part(x, c) ensures q in Part(y, c) && Part(x, c)[q].at <= Part(y, c)[q].at {
      FilteredIsOlder(t, kept, batch, x, y, b, q);
    }
    Sandwich(SmallerFirst, Part(x, c), Part(y, c), MAX_REACTIONS_PER_MESSAGE);
  }

  lemma {:induction false} FilteredFrom(s: seq<Reaction>, batch: seq<Reaction>)
    ensures forall r :: r in Filtered(s, batch) ==> r in s || r in batch
    decreases |batch|
  {
    if batch != [] {
      FilteredFrom(Retained(s, batch[0]), batch[1..]);
      RetainedFrom(s, batch[0]);
    }
  }

  lemma EvictSizes(t: Table<Emoji>, q: Key, v: Stamped<Emoji>, a: Key, i: int)
    requires q !in t && a in t[q := v] && a.major == q.major
    ensures |Part(t[q := v] - {a}, One(i))| == |Part(t, One(i))|
  {
    UpdateSizes(t, q, v, i);
    var p := Part(t[q := v], One(i));
    assert Part(t[q := v] - {a}, One(i)) == p - {a};
    assert (p - {a}).Keys == p.Keys - {a};
    assert |p| == |p.Keys| && |p - {a}| == |(p - {a}).Keys|;
  }

  /** A row is replaced by one of the same reactor, a row is added while there is room,
      or one row of the target is traded for another. */
  ghost predicate OneStep(t: Table<Emoji>, after: Table<Emoji>, c: Reaction, room: bool) {
    || after == t
    || (after == t[KeyOf(c) := Row(c)] && (KeyOf(c) in t || room))
    || exists a: Key :: Trades(t, after, c, a)
  }

  predicate Trades(t: Table<Emoji>, after: Table<Emoji>, c: Reaction, a: Key) {
    KeyOf(c) !in t && a in t && a.major == c.target && after == t[KeyOf(c) := Row(c)] - {a}
  }

  lemma EvictTrades(s: seq<Reaction>, c: Reaction, o: nat)
    requires Distinct(s) && o < |s| && s[o].target == c.target && Find(s, KeyOf(c), |s|) < 0
    ensures Distinct(s[o := c]) && Trades(TableOf(s), TableOf(s[o := c]), c, KeyOf(s[o]))
  {
    UpsertNew(s, c);
    EvictedTable(s, c, o);
  }

  lemma AppendAdds(s: seq<Reaction>, c: Reaction)
    requires Distinct(s) && Find(s, KeyOf(c), |s|) < 0
    ensures Distinct(s + [c]) && TableOf(s + [c]) == TableOf(s)[KeyOf(c) := Row(c)]
  {
    UpsertNew(s, c);
    TableOfSnoc(s, c);
  }

  lemma RetainedNewStep(s: seq<Reaction>, c: Reaction)
    requires Distinct(s) && Find(s, KeyOf(c), |s|) < 0
    ensures Distinct(Retained(s, c))
    ensures OneStep(TableOf(s), TableOf(Retained(s, c)), c, CountOf(s, c.target) < MAX_REACTIONS_PER_MESSAGE)
  {
    hide TableOf, Trades, Distinct;
    var o := OldestOf(s, c.target, |s|);
    if CountOf(s, c.target) < MAX_REACTIONS_PER_MESSAGE && |s| < MAX_REACTIONS_PER_CHAT {
      AppendAdds(s, c);
    } else if o >= 0 && c.updatedAt > s[o].updatedAt {
      EvictTrades(s, c, o);
    }
  }

  lemma RetainedStep(s: seq<Reaction>, c: Reaction)
    requires Distinct(s)
    ensures Distinct(Retained(s, c))
    ensures OneStep(TableOf(s), TableOf(Retained(s, c)), c, CountOf(s, c.target) < MAX_REACTIONS_PER_MESSAGE)
  {
    var f := Find(s, KeyOf(c), |s|);
    if f >= 0 {
      KnownReplaced(s, c, f);
    } else {
      RetainedNewStep(s, c);
    }
  }

  /** The filter on its own: whatever it does, the list stays well kept. */
  lemma RetainedStays(s: seq<Reaction>, c: Reaction)
    requires WellKept(s)
    ensures WellKept(Retained(s, c))
  {
    RetainedStep(s, c);
    TableSize(s, c.target);
    var t, after := TableOf(s), TableOf(Retained(s, c));
    hide Retained, TableOf, Part;
    forall i ensures |Part(after, One(i))| <= MAX_REACTIONS_PER_MESSAGE {
      UpdateSizes(t, KeyOf(c), Row(c), i);
      if after != t && after != t[KeyOf(c) := Row(c)] {
        var a: Key :| Trades(t, after, c, a);
        EvictSizes(t, KeyOf(c), Row(c), a, i);
      }
    }
  }

  lemma {:induction false} FilteredStays(s: seq<Reaction>, batch: seq<Reaction>)
    requires WellKept(s)
    ensures WellKept(Filtered(s, batch))
    decreases |batch|
  {
    if batch != [] {
      RetainedStays(s, batch[0]);
      FilteredStays(Retained(s, batch[0]), batch[1..]);
    }
  }

  lemma {:induction false} LatestOfDistinct(s: seq<Reaction>)
    requires Distinct(s)
    ensures Latest(map[], s) == TableOf(s)
  {
    if s != [] {
      var p, r := s[..|s|-1], s[|s|-1];
      assert s == p + [r];
      TableOfSnoc(p, r);
      LatestOfDistinct(p);
      LatestSnoc(map[], p, r);
    }
  }

  lemma {:induction false} LatestSnoc(m: Table<Emoji>, s: seq<Reaction>, r: Reaction)
    ensures Latest(m, s + [r]) == Upsert(Latest(m, s), r)
    decreases |s|
  {
    var all := s + [r];
    if s == [] {
      assert all[1..] == [];
    } else {
      assert all[0] == s[0] && all[1..] == s[1..] + [r];
      LatestSnoc(Upsert(m, s[0]), s[1..], r);
    }
  }

  lemma WithinBounds(t: Table<Emoji>, targets: set<int>)
    requires forall q :: q in t ==> q.major in targets
    requires forall i :: |Part(t, One(i))| <= MAX_REACTIONS_PER_MESSAGE
    ensures IsBounded(t, targets)
  {
    forall q | q in t ensures Kept(SmallerFirst, Part(t, ClassOf(q.major, targets)), q, MAX_REACTIONS_PER_MESSAGE) {
      var p := Part(t, One(q.major));
      assert |p| == |p.Keys| && q in p;
      assert Higher(SmallerFirst, p, q) <= p.Keys - {q};
      SubsetSize(Higher(SmallerFirst, p, q), p.Keys - {q});
    }
  }

  /** Applied to an empty cache in which every target is stored, the filtered list is
      the table itself. */
  lemma RunOfKept(s: seq<Reaction>, targets: set<int>)
    requires WellKept(s) && Targets(s) <= targets
    ensures Run(map[], Steps(s, targets)) == TableOf(s)
  {
    SmallIsBounded(map[], targets);
    RunOfSteps(map[], targets, s);
    LatestOfDistinct(s);
    forall q | q in TableOf(s) ensures q.major in targets {
      var r :| r in s && KeyOf(r) == q;
      assert r.target in Targets(s);
    }
    WithinBounds(TableOf(s), targets);
  }

  /** While the two never part ways, filtering first is harmless for every existing table,
      whether the targets are stored or not. */
  lemma PreTrimIsHarmless(t: Table<Emoji>, stored: set<int>, batch: seq<Reaction>)
    requires IsBounded(t, stored) && NeverDiverges([], batch) && |Targets(batch)| <= MAX_MESSAGES_PER_CHAT
    ensures Harmless(t, stored, batch)
  {
    assert [] + batch == batch;
    ShortIsWellKept([]);
    FilterIsRun([], batch, Targets(batch));
    SmallIsBounded(map[], Targets(batch));
    RunOfSteps(map[], Targets(batch), batch);
    KeptIsEnough(t, stored, batch);
  }

  /** Filtering first is harmless for every table exactly when it is for one: the empty
      cache in which every target is stored. */
  lemma PreTrimExact(batch: seq<Reaction>)
    requires |Targets(batch)| <= MAX_MESSAGES_PER_CHAT
    ensures (forall t, stored :: IsBounded(t, stored) ==> Harmless(t, stored, batch)) <==> Harmless(map[], Targets(batch), batch)
  {
    var kept, targets := Filtered([], batch), Targets(batch);
    assert [] + batch == batch;
    ShortIsWellKept([]);
    FilteredStays([], batch);
    FilteredFrom([], batch);
    Narrow(kept, batch, targets);
    RunOfKept(kept, targets);
    SmallIsBounded(map[], targets);
    RunOfSteps(map[], targets, batch);
    if Harmless(map[], targets, batch) {
      forall t, stored | IsBounded(t, stored) ensures Harmless(t, stored, batch) {
        KeptIsEnough(t, stored, batch);
      }
    }
  }

  /** Up to its first divergence the filter holds what the cache holds. */
  lemma AgreesSoFar(front: seq<Reaction>, targets: set<int>)
    requires NeverDiverges([], front) && Targets(front) <= targets && |targets| <= MAX_MESSAGES_PER_CHAT
    ensures WellKept(Filtered([], front)) && Targets(Filtered([], front)) <= targets
    ensures TableOf(Filtered([], front)) == Run(map[], Steps(front, targets))
  {
    assert [] + front == front;
    ShortIsWellKept([]);
    FilterIsRun([], front, targets);
    FilteredFrom([], front);
    Narrow(Filtered([], front), front, targets);
  }

  /** One diverging offer to a list that agreed with the cache. */
  lemma DivergesOnce(s: seq<Reaction>, c: Reaction, targets: set<int>)
    requires WellKept(s) && Targets(s + [c]) <= targets && |targets| <= MAX_MESSAGES_PER_CHAT && Diverges(s, c)
    ensures Run(map[], Steps(Retained(s, c), targets)) != WriteRows(TableOf(s), targets, c)
  {
    CapNeverDecides(s, c, targets);
    RetainExact(s, c);
    RetainedStays(s, c);
    AllStored(s, c, targets);
    RetainedFrom(s, c);
    Narrow(Retained(s, c), s + [c], targets);
    RunOfKept(Retained(s, c), targets);
  }

  /** A batch whose last offer is the first to part ways leaves different rows. */
  lemma DivergenceShows(front: seq<Reaction>, c: Reaction)
    requires |Targets(front + [c])| <= MAX_MESSAGES_PER_CHAT
    requires NeverDiverges([], front) && Diverges(Filtered([], front), c)
    ensures !Harmless(map[], Targets(front + [c]), front + [c])
  {
    var s, batch := Filtered([], front), front + [c];
    var targets := Targets(batch);
    Narrow(front, batch, targets);
    AgreesSoFar(front, targets);
    FilteredFrom([], front);
    Narrow(s + [c], batch, targets);
    DivergesOnce(s, c, targets);
    FilteredSnoc([], front, c);
    RunSnoc(map[], front, c, targets);
  }

  lemma {:induction false} FilteredSnoc(s: seq<Reaction>, front: seq<Reaction>, c: Reaction)
    ensures Filtered(s, front + [c]) == Retained(Filtered(s, front), c)
    decreases |front|
  {
    var all := front + [c];
    if front == [] {
      assert all[1..] == [];
    } else {
      assert all[0] == front[0] && all[1..] == front[1..] + [c];
      FilteredSnoc(Retained(s, front[0]), front[1..], c);
    }
  }

  lemma {:induction false} RunSnoc(t: Table<Emoji>, front: seq<Reaction>, c: Reaction, stored: set<int>)
    ensures Run(t, Steps(front + [c], stored)) == WriteRows(Run(t, Steps(front, stored)), stored, c)
    decreases |front|
  {
    var all := front + [c];
    StepsTail(all, stored);
    if front == [] {
      assert all[1..] == [];
    } else {
      StepsTail(front, stored);
      assert all[0] == front[0] && all[1..] == front[1..] + [c];
      RunSnoc(WriteRows(t, stored, front[0]), front[1..], c, stored);
    }
  }

  // ---- the exact condition on a batch that fills no target

  function KeysOf(s: seq<Reaction>, target: int): set<Key> {
    set r | r in s && r.target == target :: KeyOf(r)
  }

  ghost predicate FewReactors(s: seq<Reaction>) {
    forall i :: |KeysOf(s, i)| <= MAX_REACTIONS_PER_MESSAGE
  }

  /** No reaction of the same reactor to the same message comes after a. */
  predicate IsLast(s: seq<Reaction>, a: Reaction) {
    a in s && forall r :: r in s && KeyOf(r) == KeyOf(a) ==> !ReactionSupersedes(r, a)
  }

  /** An earlier reaction within the millisecond of a has the emoji the cache prefers. */
  predicate Overtakes(s: seq<Reaction>, b: Reaction, a: Reaction) {
    && b in s && IsLast(s, a) && KeyOf(b) == KeyOf(a)
    && Millis(a.updatedAt) == Millis(b.updatedAt) && b.updatedAt < a.updatedAt && EmojiWins(b.emoji, a.emoji)
  }

  ghost predicate Overtaken(s: seq<Reaction>) { exists a, b :: Overtakes(s, b, a) }

  /** The list holds the last reaction of each reactor seen so far. */
  ghost predicate HoldsLast(s: seq<Reaction>, seen: seq<Reaction>) {
    && Distinct(s)
    && (forall i :: 0 <= i < |s| ==> IsLast(seen, s[i]))
    && (forall r :: r in seen ==> Find(s, KeyOf(r), |s|) >= 0)
  }

  lemma FindHit(s: seq<Reaction>, i: nat)
    requires i < |s|
    ensures Find(s, KeyOf(s[i]), |s|) >= 0
  {
  }

  lemma LastAfter(seen: seq<Reaction>, c: Reaction, a: Reaction)
    requires a == c || a in seen
    requires KeyOf(a) != KeyOf(c) || !ReactionSupersedes(c, a)
    requires forall r :: r in seen && KeyOf(r) == KeyOf(a) ==> !ReactionSupersedes(r, a)
    ensures IsLast(seen + [c], a)
  {
    assert (seen + [c])[|seen|] == c;
  }

  lemma HoldsLastKnown(s: seq<Reaction>, seen: seq<Reaction>, c: Reaction)
    requires HoldsLast(s, seen) && Find(s, KeyOf(c), |s|) >= 0
    ensures HoldsLast(Retained(s, c), seen + [c])
  {
    var f, held := Find(s, KeyOf(c), |s|), Retained(s, c);
    KnownReplaced(s, c, f);
    assert IsLast(seen, s[f]);
    forall i | 0 <= i < |held| ensures IsLast(seen + [c], held[i]) {
      assert IsLast(seen, s[i]);
      assert i != f ==> KeyOf(s[i]) != KeyOf(s[f]);
      LastAfter(seen, c, held[i]);
    }
    forall r | r in seen + [c] ensures Find(held, KeyOf(r), |held|) >= 0 {
      var g := Find(s, KeyOf(r), |s|);
      assert KeyOf(held[g]) == KeyOf(r);
      FindHit(held, g);
    }
  }

  lemma NewIsLast(s: seq<Reaction>, seen: seq<Reaction>, c: Reaction, i: nat)
    requires HoldsLast(s, seen) && Find(s, KeyOf(c), |s|) < 0 && i <= |s|
    ensures IsLast(seen + [c], (s + [c])[i])
  {
    if i < |s| { assert IsLast(seen, s[i]); }
    LastAfter(seen, c, (s + [c])[i]);
  }

  lemma NewIsFound(s: seq<Reaction>, seen: seq<Reaction>, c: Reaction, r: Reaction)
    requires HoldsLast(s, seen) && r in seen + [c]
    ensures Find(s + [c], KeyOf(r), |s| + 1) >= 0
  {
    var g := if r in seen then Find(s, KeyOf(r), |s|) else |s|;
    assert KeyOf((s + [c])[g]) == KeyOf(r);
    FindHit(s + [c], g);
  }

  lemma HoldsLastNew(s: seq<Reaction>, seen: seq<Reaction>, c: Reaction)
    requires HoldsLast(s, seen) && Find(s, KeyOf(c), |s|) < 0
    ensures HoldsLast(s + [c], seen + [c])
  {
    var held := s + [c];
    assert Distinct(held);
    forall i | 0 <= i < |held| ensures IsLast(seen + [c], held[i]) { NewIsLast(s, seen, c, i); }
    forall r | r in seen + [c] ensures Find(held, KeyOf(r), |held|) >= 0 { NewIsFound(s, seen, c, r); }
  }

  /** Below the bound there is room for a new reactor. */
  lemma RoomForNew(s: seq<Reaction>, c: Reaction, all: seq<Reaction>)
    requires Distinct(s) && Find(s, KeyOf(c), |s|) < 0 && FewReactors(all) && c in all && forall r :: r in s ==> r in all
    ensures CountOf(s, c.target) < MAX_REACTIONS_PER_MESSAGE
  {
    TableSize(s, c.target);
    var p, keys := Part(TableOf(s), One(c.target)), KeysOf(all, c.target);
    assert KeyOf(c) in keys;
    forall q | q in p ensures q in keys - {KeyOf(c)} {
      var r :| r in s && KeyOf(r) == q;
      assert r in all;
    }
    assert p.Keys <= keys - {KeyOf(c)} && |p| == |p.Keys|;
    SubsetSize(p.Keys, keys - {KeyOf(c)});
  }

  lemma {:induction false} FilterHoldsLast(s: seq<Reaction>, seen: seq<Reaction>, batch: seq<Reaction>)
    requires HoldsLast(s, seen) && WellKept(s) && FewReactors(seen + batch) && |Targets(seen + batch)| <= MAX_MESSAGES_PER_CHAT
    ensures HoldsLast(Filtered(s, batch), seen + batch)
    decreases |batch|
  {
    if batch == [] {
      assert seen + batch == seen;
    } else {
      var c, all := batch[0], seen + batch;
      assert seen + [c] + batch[1..] == all && all[|seen|] == c;
      forall r | r in s + [c] ensures r in all {
        if r in s { var i :| 0 <= i < |s| && s[i] == r; assert IsLast(seen, s[i]); }
      }
      HoldsLastStep(s, seen, c, all);
      RetainedStays(s, c);
      FilterHoldsLast(Retained(s, c), seen + [c], batch[1..]);
    }
  }

  lemma HoldsLastStep(s: seq<Reaction>, seen: seq<Reaction>, c: Reaction, all: seq<Reaction>)
    requires HoldsLast(s, seen) && WellKept(s) && FewReactors(all) && |Targets(all)| <= MAX_MESSAGES_PER_CHAT
    requires forall r :: r in s + [c] ==> r in all
    ensures HoldsLast(Retained(s, c), seen + [c])
  {
    if Find(s, KeyOf(c), |s|) >= 0 {
      HoldsLastKnown(s, seen, c);
    } else {
      Narrow(s + [c], all, Targets(all));
      CapNeverDecides(s, c, Targets(all));
      assert (s + [c])[|s|] == c && forall r :: r in s ==> r in s + [c];
      RoomForNew(s, c, all);
      HoldsLastNew(s, seen, c);
    }
  }

  /** With few reactors nothing is cut from the latest rows. */
  lemma FewNeedNoBound(batch: seq<Reaction>)
    requires FewReactors(batch)
    ensures Bounded(Latest(map[], batch), Targets(batch)) == Latest(map[], batch)
  {
    var b := Latest(map[], batch);
    LatestIsLatest(map[], batch);
    forall i ensures |Part(b, One(i))| <= MAX_REACTIONS_PER_MESSAGE {
      var p := Part(b, One(i));
      assert p.Keys <= KeysOf(batch, i) && |p| == |p.Keys|;
      SubsetSize(p.Keys, KeysOf(batch, i));
    }
    WithinBounds(b, Targets(batch));
  }

  lemma LastRowsMeet(kept: seq<Reaction>, batch: seq<Reaction>, q: Key)
    requires HoldsLast(kept, batch) && !Overtaken(batch) && q in TableOf(kept)
    ensures q in Latest(map[], batch) && Latest(map[], batch)[q] == TableOf(kept)[q]
  {
    var b := Latest(map[], batch);
    LatestIsLatest(map[], batch);
    var i := IndexOf(kept, q);
    var a := kept[i];
    assert IsLast(batch, a);
    var r :| r in batch && KeyOf(r) == q && Row(r) == b[q];
    assert !Overtakes(batch, r, a);
    SupersedesIsStrictTotal(Row(r), Row(a), Row(r));
  }

  lemma OvertakenDiffers(kept: seq<Reaction>, batch: seq<Reaction>)
    requires HoldsLast(kept, batch) && Overtaken(batch)
    ensures TableOf(kept) != Latest(map[], batch)
  {
    LatestIsLatest(map[], batch);
    var a, b :| Overtakes(batch, b, a);
    var i := Find(kept, KeyOf(a), |kept|);
    assert IsLast(batch, kept[i]);
    TableAt(kept, i);
    assert Row(kept[i]) == Row(a) && Supersedes(Row(b), Row(a));
  }

  lemma LatestIsHeld(kept: seq<Reaction>, batch: seq<Reaction>, q: Key)
    requires HoldsLast(kept, batch) && q in Latest(map[], batch)
    ensures q in TableOf(kept)
  {
    LatestIsLatest(map[], batch);
    var r :| r in batch && KeyOf(r) == q;
    TableAt(kept, Find(kept, KeyOf(r), |kept|));
  }

  lemma NotOvertakenMeets(kept: seq<Reaction>, batch: seq<Reaction>)
    requires HoldsLast(kept, batch) && !Overtaken(batch)
    ensures TableOf(kept) == Latest(map[], batch)
  {
    forall q | q in TableOf(kept) ensures q in Latest(map[], batch) && Latest(map[], batch)[q] == TableOf(kept)[q] {
      LastRowsMeet(kept, batch, q);
    }
    forall q | q in Latest(map[], batch) ensures q in TableOf(kept) {
      LatestIsHeld(kept, batch, q);
    }
  }

  /** Filtering first is harmless for every table exactly when no reactor's last reaction
      follows, within one millisecond, one whose emoji the cache prefers. */
  lemma FewReactorsExact(batch: seq<Reaction>)
    requires FewReactors(batch) && |Targets(batch)| <= MAX_MESSAGES_PER_CHAT
    ensures (forall t, stored :: IsBounded(t, stored) ==> Harmless(t, stored, batch)) <==> !Overtaken(batch)
  {
    var kept, targets := Filtered([], batch), Targets(batch);
    assert [] + batch == batch;
    ShortIsWellKept([]);
    FilterHoldsLast([], [], batch);
    FilteredStays([], batch);
    FilteredFrom([], batch);
    Narrow(kept, batch, targets);
    RunOfKept(kept, targets);
    SmallIsBounded(map[], targets);
    RunOfSteps(map[], targets, batch);
    FewNeedNoBound(batch);
    if Overtaken(batch) { OvertakenDiffers(kept, batch); } else { NotOvertakenMeets(kept, batch); }
    PreTrimExact(batch);
  }

  // ---- conditions on the batch alone, and failing inputs

  /** No two reactors on one target tie, even after rounding. */
  predicate Separated(s: seq<Reaction>) {
    forall a, b :: a in s && b in s && a.target == b.target && Millis(a.updatedAt) == Millis(b.updatedAt)
      ==> a.reactor == b.reactor && a.updatedAt == b.updatedAt
  }

  lemma SeparatedAgrees(s: seq<Reaction>, c: Reaction)
    requires Separated(s + [c])
    ensures !Diverges(s, c)
  {
    assert c in s + [c] && forall i :: 0 <= i < |s| ==> s[i] in s + [c];
    var o := OldestOf(s, c.target, |s|);
    OldestIsLowest(s, c.target, |s|);
  }

  lemma {:induction false} SeparatedNeverDiverges(s: seq<Reaction>, batch: seq<Reaction>)
    requires Separated(s + batch)
    ensures NeverDiverges(s, batch)
    decreases |batch|
  {
    if batch != [] {
      var c := batch[0];
      assert c in s + batch;
      assert forall r :: r in s ==> r in s + batch;
      assert Separated(s + [c]);
      SeparatedAgrees(s, c);
      RetainedFrom(s, c);
      assert forall r :: r in Retained(s, c) + batch[1..] ==> r in s + batch;
      SeparatedNeverDiverges(Retained(s, c), batch[1..]);
    }
  }

  lemma SeparatedPreTrimIsHarmless(t: Table<Emoji>, stored: set<int>, batch: seq<Reaction>)
    requires IsBounded(t, stored)
    requires Separated(batch) && |Targets(batch)| <= MAX_MESSAGES_PER_CHAT
    ensures Harmless(t, stored, batch)
  {
    assert [] + batch == batch;
    SeparatedNeverDiverges([], batch);
    PreTrimIsHarmless(t, stored, batch);
  }

  /** Two values of one reactor inside one millisecond: the filter keeps the later,
      the cache the larger emoji. */
  lemma SubMillisecondCounterexample()
    ensures !Harmless(map[], {2}, [Reaction(1, 2, 3, 9, 5_000_000), Reaction(1, 2, 3, 8, 5_000_001)])
  {
    var a, b := Reaction(1, 2, 3, 9, 5_000_000), Reaction(1, 2, 3, 8, 5_000_001);
    FreshAreKept([], [a]);
    assert Find([a], KeyOf(b), 1) == 0 by { assert Find([a], KeyOf(b), 0) == -1; }
    assert [a] + [b] == [a, b];
    OneTarget([a, b], a);
    DivergenceShows([a], b);
  }

  /** Sixty-four reactors at one instant, then an earlier reactor at the same
      instant: the filter drops it, the cache keeps it. */
  lemma TieCounterexample()
    ensures var s := seq(64, i => Reaction(1, 2, i + 1, 9, 5_000_000));
            !Harmless(map[], {2}, s + [Reaction(1, 2, 0, 9, 5_000_000)])
  {
    var s := seq(64, i => Reaction(1, 2, i + 1, 9, 5_000_000));
    TieDiverges(s, Reaction(1, 2, 0, 9, 5_000_000));
  }

  lemma TieIsWrong(s: seq<Reaction>, c: Reaction)
    requires Tied(s, c) && |s| == MAX_REACTIONS_PER_MESSAGE
    ensures Diverges(s, c)
  {
    AllOfTarget(s, c.target);
    if OldestOf(s, c.target, |s|) < 0 { NoneOfTarget(s, c.target); }
    assert Behind(s[0], c);
  }

  predicate Tied(s: seq<Reaction>, c: Reaction) {
    forall i :: 0 <= i < |s| ==> s[i].target == c.target && s[i].updatedAt == c.updatedAt && c.reactor < s[i].reactor
  }

  lemma OneTarget(s: seq<Reaction>, c: Reaction)
    requires c in s && forall r :: r in s ==> r.target == c.target
    ensures Targets(s) == {c.target}
  {
    assert c.target in Targets(s);
    forall i ensures i in Targets(s) ==> i == c.target {}
  }

  lemma TiedTarget(s: seq<Reaction>, c: Reaction)
    requires Tied(s, c)
    ensures Targets(s + [c]) == {c.target} && |Targets(s + [c])| == 1
  {
    assert (s + [c])[|s|] == c;
    forall r | r in s ensures r.target == c.target {
      var i :| 0 <= i < |s| && s[i] == r;
    }
    OneTarget(s + [c], c);
  }

  lemma FreshFromEmpty(s: seq<Reaction>)
    requires Distinct(s) && |s| <= MAX_REACTIONS_PER_MESSAGE
    ensures Filtered([], s) == s && NeverDiverges([], s)
  {
    assert [] + s == s;
    FreshAreKept([], s);
  }

  lemma TieDiverges(s: seq<Reaction>, c: Reaction)
    requires Distinct(s) && |s| == MAX_REACTIONS_PER_MESSAGE && Tied(s, c)
    ensures !Harmless(map[], {c.target}, s + [c])
  {
    FreshFromEmpty(s);
    TieIsWrong(s, c);
    TiedTarget(s, c);
    hide Diverges, Harmless, Tied, Filtered, NeverDiverges, Targets, Distinct;
    DivergenceShows(s, c);
  }

  /** Distinct reactions below the bound are all kept. */
  lemma {:induction false} FreshAreKept(s: seq<Reaction>, batch: seq<Reaction>)
    requires Distinct(s + batch) && |s + batch| <= MAX_REACTIONS_PER_MESSAGE
    ensures Filtered(s, batch) == s + batch && NeverDiverges(s, batch)
    decreases |batch|
  {
    if batch != [] {
      var c, all := batch[0], s + batch;
      assert all[|s|] == c && forall i :: 0 <= i < |s| ==> all[i] == s[i];
      CountAtMost(s, c.target);
      assert s + [c] + batch[1..] == all;
      FreshAreKept(s + [c], batch[1..]);
    } else {
      assert s + batch == s;
    }
  }

  lemma {:induction false} CountAtMost(s: seq<Reaction>, target: int)
    ensures CountOf(s, target) <= |s|
  {
    if s != [] { CountAtMost(s[..|s|-1], target); }
  }

  lemma SmallIsBounded(t: Table<Emoji>, stored: set<int>)
    requires |t| <= MAX_REACTIONS_PER_MESSAGE
    ensures IsBounded(t, stored)
  {
    forall q | q in t ensures Kept(SmallerFirst, Part(t, ClassOf(q.major, stored)), q, MAX_REACTIONS_PER_MESSAGE) {
      var p := Part(t, ClassOf(q.major, stored));
      assert |t| == |t.Keys|;
      SubsetSize(Higher(SmallerFirst, p, q), t.Keys - {q});
    }
  }

  lemma ShortIsWellKept(s: seq<Reaction>)
    requires Distinct(s) && |s| <= MAX_REACTIONS_PER_MESSAGE
    ensures WellKept(s)
  {
    forall i ensures |Part(TableOf(s), One(i))| <= MAX_REACTIONS_PER_MESSAGE {
      TableSize(s, i);
      SplitSize(TableOf(s), i);
    }
  }

  lemma {:induction false} AllOfTarget(s: seq<Reaction>, target: int)
    requires forall i :: 0 <= i < |s| ==> s[i].target == target
    ensures CountOf(s, target) == |s|
  {
    if s != [] { AllOfTarget(s[..|s|-1], target); }
  }
}
