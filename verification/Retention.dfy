/** The retention pipeline of the live-first writer: decide per message against
    the stored snapshot, write with duplicate merging, then prune each touched
    chat. */
module Retention {
  import opened Messages
  import opened Wrappers
  import opened Store
  import F = Frontier

  // ---- the policy

  datatype Policy = Policy(messagesPerChat: nat, maxAge: int, cacheBytes: int)
  {
    predicate Valid() { messagesPerChat > 0 && maxAge > 0 && cacheBytes > 0 }

    function Cutoff(now: int): int { now - maxAge }
  }

  datatype Action = KeepBody | KeepMetadata

  datatype Reason = Eligible | TooOld | MessageCountLimit | CacheLimit

  datatype Decision = Invalid | Decision(action: Action, reason: Reason)

  /** Age, then count, then history-first cache shedding. */
  function Decide(policy: Policy, m: Message, now: int, newerBodies: nat, usage: nat, origin: Origin): Decision {
    if now == 0 || !m.Valid() || !policy.Valid() then Invalid
    else if m.sentAt < policy.Cutoff(now) then Decision(KeepMetadata, TooOld)
    else if newerBodies >= policy.messagesPerChat then Decision(KeepMetadata, MessageCountLimit)
    else if origin.History? && usage >= policy.cacheBytes then Decision(KeepMetadata, CacheLimit)
    else Decision(KeepBody, Eligible)
  }

  function NewerBodies(rows: Rows, m: Message): set<nat> {
    set id | id in rows && rows[id].bodyRetained && Newer(rows[id], m)
  }

  lemma NewerSeen(snapshot: seq<Message>, rows: Rows, m: Message, i: nat)
    requires KeyedById(rows) && IsListing(snapshot, rows) && i < |snapshot|
    ensures snapshot[i].id in NewerBodies(rows, m) <==> snapshot[i].bodyRetained && Newer(snapshot[i], m)
    ensures forall j :: 0 <= j < i ==> snapshot[j].id != snapshot[i].id
  {
    forall j | 0 <= j < i ensures snapshot[j].id != snapshot[i].id {
      assert Newer(snapshot[j], snapshot[i]);
    }
  }

  method CountNewerBodies(snapshot: seq<Message>, ghost rows: Rows, m: Message) returns (count: nat)
    requires KeyedById(rows) && IsListing(snapshot, rows)
    ensures count == |NewerBodies(rows, m)|
  {
    count := 0;
    ghost var seen: set<nat> := {};
    for i := 0 to |snapshot|
      invariant count == |seen| && seen <= NewerBodies(rows, m)
      invariant forall j :: 0 <= j < i && snapshot[j].id in NewerBodies(rows, m) ==> snapshot[j].id in seen
      invariant forall id :: id in seen ==> exists j :: 0 <= j < i && snapshot[j].id == id
    {
      var s := snapshot[i];
      NewerSeen(snapshot, rows, m, i);
      if s.bodyRetained && Newer(s, m) {
        count := count + 1;
        seen := seen + {s.id};
      }
    }
    assert seen == NewerBodies(rows, m) by {
      forall id | id in NewerBodies(rows, m) ensures id in seen {
        var j :| 0 <= j < |snapshot| && snapshot[j] == rows[id];
      }
    }
  }

  // ---- the specification: the newest non-aged bodies

  function Bodies(rows: Rows, cutoff: int): F.Table<Message> {
    map id | id in rows && rows[id].bodyRetained && rows[id].sentAt >= cutoff ::
      F.Key(0, id) := F.Stamped(rows[id].sentAt, rows[id])
  }

  function Survivors(rows: Rows, cutoff: int, k: nat): Rows {
    map id | id in rows && F.Key(0, id) in F.Trim(F.LargerFirst, Bodies(rows, cutoff), k) :: rows[id]
  }

  function Dropped(rows: Rows, cutoff: int, k: nat): Rows {
    rows - Survivors(rows, cutoff, k).Keys
  }

  function AnchorFor(m: Message): Anchor { Anchor(m.id, m.sentAt, m.fromMe) }

  predicate AnchorOlder(a: Anchor, b: Anchor) {
    a.sentAt < b.sentAt || (a.sentAt == b.sentAt && a.id < b.id)
  }

  ghost predicate IsOldest(m: Message, rows: Rows) {
    && m.id in rows && rows[m.id] == m
    && forall id :: id in rows && id != m.id ==> Newer(rows[id], m)
  }

  /** The anchor moves to the oldest dropped row when that is older. */
  ghost predicate AnchorMoves(before: Option<Anchor>, dropped: Rows, after: Option<Anchor>) {
    if dropped == map[] then after == before
    else exists m :: IsOldest(m, dropped) &&
           after == if before.None? || AnchorOlder(AnchorFor(m), before.value) then Some(AnchorFor(m)) else before
  }

  ghost predicate IsPruned(before: ChatState, after: ChatState, cutoff: int, k: nat) {
    && after.chat == before.chat
    && after.messages == Survivors(before.messages, cutoff, k)
    && AnchorMoves(before.anchor, Dropped(before.messages, cutoff, k), after.anchor)
  }

  // ---- planning a prune

  predicate IsBody(m: Message, cutoff: int) { m.bodyRetained && m.sentAt >= cutoff }

  /** The keys of the eligible bodies among the first n rows. */
  ghost function BodiesAbove(work: seq<Message>, cutoff: int, n: nat): set<F.Key>
    requires n <= |work|
  {
    set j | 0 <= j < n && IsBody(work[j], cutoff) :: F.Key(0, work[j].id)
  }

  lemma HigherIsPrefix(work: seq<Message>, rows: Rows, cutoff: int, n: nat)
    requires KeyedById(rows) && IsListing(work, rows) && n < |work| && IsBody(work[n], cutoff)
    ensures F.Key(0, work[n].id) in Bodies(rows, cutoff)
    ensures F.Higher(F.LargerFirst, Bodies(rows, cutoff), F.Key(0, work[n].id)) == BodiesAbove(work, cutoff, n)
  {
    var b, q := Bodies(rows, cutoff), F.Key(0, work[n].id);
    assert work[n].id in rows && rows[work[n].id] == work[n];
    forall p | p in F.Higher(F.LargerFirst, b, q) ensures p in BodiesAbove(work, cutoff, n) {
      var m := rows[p.minor];
      assert m in work;
      var j :| 0 <= j < |work| && work[j] == m;
      assert Newer(work[j], work[n]);
      assert j < n;
    }
    forall j | 0 <= j < n && IsBody(work[j], cutoff)
      ensures F.Key(0, work[j].id) in F.Higher(F.LargerFirst, b, q)
    {
      assert Newer(work[j], work[n]);
      assert work[j].id in rows;
    }
  }

  lemma ListedOnce(work: seq<Message>, rows: Rows, i: nat, j: nat)
    requires IsListing(work, rows) && i < j < |work|
    ensures work[i].id != work[j].id
  {
    assert Newer(work[i], work[j]);
  }

  lemma BodiesAboveNext(work: seq<Message>, rows: Rows, cutoff: int, n: nat)
    requires IsListing(work, rows) && n < |work|
    ensures |BodiesAbove(work, cutoff, n + 1)| == |BodiesAbove(work, cutoff, n)| + if IsBody(work[n], cutoff) then 1 else 0
  {
    var a, b := BodiesAbove(work, cutoff, n), BodiesAbove(work, cutoff, n + 1);
    if IsBody(work[n], cutoff) {
      forall j | 0 <= j < n ensures work[j].id != work[n].id { ListedOnce(work, rows, j, n); }
      assert b == a + {F.Key(0, work[n].id)};
    } else {
      assert b == a;
    }
  }

  /** The scan removes a row exactly when it is not among the newest bodies. */
  lemma RemovedIffDropped(work: seq<Message>, rows: Rows, cutoff: int, n: nat, k: nat, keptBodies: nat)
    requires KeyedById(rows) && IsListing(work, rows) && n < |work|
    requires keptBodies == if |BodiesAbove(work, cutoff, n)| < k then |BodiesAbove(work, cutoff, n)| else k
    ensures work[n].id in rows
    ensures work[n].id in Survivors(rows, cutoff, k) <==> IsBody(work[n], cutoff) && keptBodies < k
  {
    assert work[n].id in rows && rows[work[n].id] == work[n];
    if IsBody(work[n], cutoff) { HigherIsPrefix(work, rows, cutoff, n); }
  }

  /** The rows among the first n that are in a given part, in order. */
  ghost function Among(work: seq<Message>, part: Rows, n: nat): (s: seq<Message>)
    requires n <= |work|
  {
    if n == 0 then [] else
      Among(work, part, n - 1) + if work[n-1].id in part then [work[n-1]] else []
  }

  lemma {:induction false} AmongHas(work: seq<Message>, part: Rows, n: nat, m: Message)
    requires n <= |work|
    ensures m in Among(work, part, n) <==> m.id in part && m in work[..n]
  {
    if n > 0 {
      AmongHas(work, part, n - 1, m);
      assert work[..n] == work[..n-1] + [work[n-1]];
    }
  }

  lemma OldestIsLater(work: seq<Message>, part: Rows, i: nat, o: Message)
    requires Descending(work) && i < |work| && o in Among(work, part, i)
    ensures Newer(o, work[i])
  {
    AmongHas(work, part, i, o);
    var j :| 0 <= j < i && work[j] == o;
  }

  lemma {:induction false} AmongDescends(work: seq<Message>, part: Rows, n: nat)
    requires n <= |work| && Descending(work)
    ensures Descending(Among(work, part, n))
  {
    if n > 0 {
      AmongDescends(work, part, n - 1);
      var s := Among(work, part, n - 1);
      forall i | 0 <= i < |s| ensures Newer(s[i], work[n-1]) {
        OldestIsLater(work, part, n - 1, s[i]);
      }
    }
  }

  lemma AmongIsListing(work: seq<Message>, rows: Rows, part: Rows)
    requires KeyedById(rows) && IsListing(work, rows)
    requires forall id :: id in part ==> id in rows && part[id] == rows[id]
    ensures IsListing(Among(work, part, |work|), part)
  {
    var s := Among(work, part, |work|);
    AmongDescends(work, part, |work|);
    assert work[..|work|] == work;
    forall i | 0 <= i < |s| ensures s[i].id in part && part[s[i].id] == s[i] {
      AmongHas(work, part, |work|, s[i]);
    }
    forall id | id in part ensures part[id] in s {
      assert rows[id] in work;
      AmongHas(work, part, |work|, rows[id]);
    }
  }

  function IdsOf(s: seq<Message>): seq<nat> { seq(|s|, i requires 0 <= i < |s| => s[i].id) }

  function Capped(n: nat, k: nat): nat { if n < k then n else k }

  /** One row of the scan: it is removed exactly when it is dropped, and the count of
      kept bodies follows. */
  lemma ScanCounts(work: seq<Message>, rows: Rows, cutoff: int, i: nat, k: nat, keptBodies: nat)
    requires KeyedById(rows) && IsListing(work, rows) && i < |work|
    requires keptBodies == Capped(|BodiesAbove(work, cutoff, i)|, k)
    ensures work[i].id in Dropped(rows, cutoff, k) <==> !(IsBody(work[i], cutoff) && keptBodies < k)
    ensures Capped(|BodiesAbove(work, cutoff, i + 1)|, k) ==
            keptBodies + if IsBody(work[i], cutoff) && keptBodies < k then 1 else 0
  {
    RemovedIffDropped(work, rows, cutoff, i, k, keptBodies);
    BodiesAboveNext(work, rows, cutoff, i);
  }

  /** What the scan has collected: the dropped rows so far, the last one the oldest. */
  ghost predicate Collected(listed: seq<Message>, deletes: seq<nat>, oldest: Option<Message>) {
    deletes == IdsOf(listed) && oldest == if listed == [] then None else Some(listed[|listed|-1])
  }

  lemma ScanStart(work: seq<Message>, part: Rows, cutoff: int)
    ensures |BodiesAbove(work, cutoff, 0)| == 0 && Collected(Among(work, part, 0), [], None)
  {
    assert BodiesAbove(work, cutoff, 0) == {};
    assert IdsOf([]) == [];
  }

  lemma ListingDescends(work: seq<Message>, rows: Rows)
    requires IsListing(work, rows)
    ensures Descending(work)
  {
  }

  lemma CollectNext(work: seq<Message>, part: Rows, i: nat, deletes: seq<nat>, oldest: Option<Message>)
    requires Descending(work) && i < |work| && Collected(Among(work, part, i), deletes, oldest)
    ensures oldest.Some? ==> Newer(oldest.value, work[i])
    ensures Collected(Among(work, part, i) + [work[i]], deletes + [work[i].id], Some(work[i]))
  {
    var listed := Among(work, part, i);
    if listed != [] { OldestIsLater(work, part, i, listed[|listed|-1]); }
    IdsOfNext(listed, work[i]);
  }

  /** The scan after i rows. */
  ghost predicate Scanned(work: seq<Message>, part: Rows, cutoff: int, k: nat, i: nat,
                          keptBodies: nat, deletes: seq<nat>, oldest: Option<Message>)
    requires i <= |work|
  {
    keptBodies == Capped(|BodiesAbove(work, cutoff, i)|, k) && Collected(Among(work, part, i), deletes, oldest)
  }

  lemma ScanNext(work: seq<Message>, rows: Rows, cutoff: int, k: nat, i: nat,
                 keptBodies: nat, deletes: seq<nat>, oldest: Option<Message>)
    requires KeyedById(rows) && IsListing(work, rows) && i < |work|
    requires Scanned(work, Dropped(rows, cutoff, k), cutoff, k, i, keptBodies, deletes, oldest)
    ensures var keep := IsBody(work[i], cutoff) && keptBodies < k;
      Scanned(work, Dropped(rows, cutoff, k), cutoff, k, i + 1,
              keptBodies + (if keep then 1 else 0), if keep then deletes else deletes + [work[i].id],
              if keep || (oldest.Some? && !Newer(oldest.value, work[i])) then oldest else Some(work[i]))
  {
    hide IsListing, BodiesAbove;
    var part := Dropped(rows, cutoff, k);
    ListingDescends(work, rows);
    ScanCounts(work, rows, cutoff, i, k, keptBodies);
    CollectNext(work, part, i, deletes, oldest);
    assert Among(work, part, i + 1) == Among(work, part, i) + if work[i].id in part then [work[i]] else [];
  }

  /** Scans the rows newest first, keeping the first k eligible bodies. */
  method Scan(work: seq<Message>, ghost rows: Rows, cutoff: int, k: nat)
    returns (deletes: seq<nat>, oldestDeleted: Option<Message>)
    requires KeyedById(rows) && IsListing(work, rows)
    ensures var dropped := Among(work, Dropped(rows, cutoff, k), |work|);
            && deletes == IdsOf(dropped)
            && oldestDeleted == if dropped == [] then None else Some(dropped[|dropped|-1])
  {
    hide IsListing, BodiesAbove;
    var keptBodies := 0;
    deletes, oldestDeleted := [], None;
    ghost var part := Dropped(rows, cutoff, k);
    ScanStart(work, part, cutoff);
    for i := 0 to |work|
      invariant Scanned(work, part, cutoff, k, i, keptBodies, deletes, oldestDeleted)
    {
      ScanNext(work, rows, cutoff, k, i, keptBodies, deletes, oldestDeleted);
      keptBodies, deletes, oldestDeleted := Consider(work[i], cutoff, k, keptBodies, deletes, oldestDeleted);
    }
  }

  /** The body of the scan, for one row. */
  method Consider(summary: Message, cutoff: int, k: nat, keptBodies: nat, deletes: seq<nat>, oldest: Option<Message>)
    returns (kept: nat, all: seq<nat>, last: Option<Message>)
    ensures var keep := IsBody(summary, cutoff) && keptBodies < k;
            && kept == keptBodies + (if keep then 1 else 0)
            && all == (if keep then deletes else deletes + [summary.id])
            && last == if keep || (oldest.Some? && !Newer(oldest.value, summary)) then oldest else Some(summary)
  {
    kept, all, last := keptBodies, deletes, oldest;
    var remove := !summary.bodyRetained || summary.sentAt < cutoff;
    if !remove {
      if keptBodies < k {
        kept := keptBodies + 1;
      } else {
        remove := true;
      }
    }
    if remove {
      all := deletes + [summary.id];
      if oldest.None? || Newer(oldest.value, summary) {
        last := Some(summary);
      }
    }
  }

  lemma IdsOfNext(s: seq<Message>, m: Message)
    ensures IdsOf(s + [m]) == IdsOf(s) + [m.id]
  {
  }

  /** Deletes bodyless rows, rows past the age cutoff and bodies past the newest
      count; offers the oldest deleted row as paging anchor. */
  method PlanPrune(policy: Policy, chat: nat, snapshot: seq<Message>, ghost rows: Rows, anchor: Option<Anchor>, now: int)
    returns (plan: Option<PrunePlan>)
    requires policy.Valid() && KeyedById(rows) && IsListing(snapshot, rows)
    ensures plan.Some? <==> now != 0 && |snapshot| <= MAX_SNAPSHOT_SUMMARIES
    ensures plan.Some? ==> PlanMeans(plan.value, chat, rows, anchor, policy.Cutoff(now), policy.messagesPerChat)
  {
    if now == 0 || |snapshot| > MAX_SNAPSHOT_SUMMARIES {
      return None;
    }
    ListingDistinct(snapshot, rows);
    var work := SortNewest(snapshot);
    SortedIsListing(snapshot, work, rows);
    var cutoff := policy.Cutoff(now);
    var deletes, oldestDeleted := Scan(work, rows, cutoff, policy.messagesPerChat);
    var replacement: Option<Anchor> := None;
    if oldestDeleted.Some? {
      var candidate := AnchorFor(oldestDeleted.value);
      if anchor.None? || AnchorOlder(candidate, anchor.value) {
        replacement := Some(candidate);
      }
    }
    plan := Some(PrunePlan(chat, deletes, replacement));
    ghost var dropped := Dropped(rows, cutoff, policy.messagesPerChat);
    AmongIsListing(work, rows, dropped);
    PlanIsMeant(plan.value, rows, anchor, cutoff, policy.messagesPerChat, Among(work, dropped, |work|));
  }

  ghost predicate PlanMeans(plan: PrunePlan, chat: nat, rows: Rows, anchor: Option<Anchor>, cutoff: int, k: nat) {
    && plan.chat == chat
    && rows - Ids(plan.deletes) == Survivors(rows, cutoff, k)
    && AnchorMoves(anchor, Dropped(rows, cutoff, k), if plan.replacement.Some? then plan.replacement else anchor)
  }

  lemma PlanIsMeant(plan: PrunePlan, rows: Rows, anchor: Option<Anchor>, cutoff: int, k: nat, listed: seq<Message>)
    requires KeyedById(rows) && IsListing(listed, Dropped(rows, cutoff, k))
    requires plan.deletes == IdsOf(listed)
    requires plan.replacement ==
             if listed == [] then None else
               var candidate := AnchorFor(listed[|listed|-1]);
               if anchor.None? || AnchorOlder(candidate, anchor.value) then Some(candidate) else None
    ensures PlanMeans(plan, plan.chat, rows, anchor, cutoff, k)
  {
    var dropped := Dropped(rows, cutoff, k);
    assert Ids(plan.deletes) == dropped.Keys by {
      forall id | id in dropped ensures id in plan.deletes {
        var i :| 0 <= i < |listed| && listed[i] == dropped[id];
        assert plan.deletes[i] == id;
      }
      forall id | id in plan.deletes ensures id in dropped {
        var i :| 0 <= i < |plan.deletes| && plan.deletes[i] == id;
        assert listed[i].id in dropped;
      }
    }
    if listed == [] {
      EmptyListing(listed, dropped);
    } else {
      LastIsOldest(listed, dropped);
    }
  }

  lemma EmptyListing(s: seq<Message>, rows: Rows)
    requires IsListing(s, rows) && s == []
    ensures rows == map[]
  {
    HasKey(rows);
  }

  lemma LastIsOldest(s: seq<Message>, rows: Rows)
    requires KeyedById(rows) && IsListing(s, rows) && s != []
    ensures IsOldest(s[|s|-1], rows) && rows != map[]
  {
    var o := s[|s|-1];
    assert o.id in rows;
    forall id | id in rows && id != o.id ensures Newer(rows[id], o) {
      var i :| 0 <= i < |s| && s[i] == rows[id];
    }
  }

  lemma ListingDistinct(s: seq<Message>, rows: Rows)
    requires IsListing(s, rows)
    ensures DistinctIds(s)
  {
    forall i, j | 0 <= i < j < |s| ensures s[i].id != s[j].id { ListedOnce(s, rows, i, j); }
  }

  // ---- deciding a batch against the stored snapshot

  function Demote(policy: Policy, chats: Chats, m: Message, now: int, usage: nat, origin: Origin): Message {
    var d := Decide(policy, m, now, |NewerBodies(RowsOf(chats, m.chat), m)|, usage, origin);
    if d.Decision? && d.action.KeepBody? then m else m.WithoutBody()
  }

  function Demoted(policy: Policy, chats: Chats, batch: seq<Message>, clock: seq<int>, usage: nat, origin: Origin): seq<Message>
    requires |batch| <= |clock|
  {
    seq(|batch|, i requires 0 <= i < |batch| => Demote(policy, chats, batch[i], clock[i], usage, origin))
  }

  /** The same rows, some without their bodies. */
  ghost predicate Thinned(thin: seq<Message>, batch: seq<Message>) {
    |thin| == |batch| && forall i :: 0 <= i < |batch| ==> thin[i] == batch[i] || thin[i] == batch[i].WithoutBody()
  }

  /** A body on the left is a body on the right. */
  predicate Kin(a: Option<Message>, b: Option<Message>) {
    if a.None? || b.None? then a == b else a.value.bodyRetained ==> b.value.bodyRetained
  }

  lemma {:induction false} ThinnedFold(prior: Option<Message>, thin: seq<Message>, batch: seq<Message>, k: Key)
    requires Thinned(thin, batch)
    ensures Kin(Fold(prior, thin, k), Fold(prior, batch, k))
    ensures (forall i :: 0 <= i < |batch| && KeyOf(batch[i]) == k ==> thin[i] == batch[i])
        ==> Fold(prior, thin, k) == Fold(prior, batch, k)
  {
    if batch != [] {
      ThinnedFold(prior, thin[..|thin|-1], batch[..|batch|-1], k);
    }
  }

  ghost predicate Covers(a: seq<Message>, b: seq<Message>) {
    forall m :: m in b ==> exists t :: t in a && KeyOf(t) == KeyOf(m) && Same(t, m)
  }

  lemma ThinnedCovers(thin: seq<Message>, batch: seq<Message>)
    requires Thinned(thin, batch)
    ensures Covers(thin, batch) && Covers(batch, thin) && Touched(thin) == Touched(batch)
  {
    forall m | m in batch ensures exists t :: t in thin && KeyOf(t) == KeyOf(m) && Same(t, m) {
      var i :| 0 <= i < |batch| && batch[i] == m;
      assert thin[i] in thin;
    }
    forall t | t in thin ensures exists m :: m in batch && KeyOf(m) == KeyOf(t) && Same(m, t) {
      var i :| 0 <= i < |thin| && thin[i] == t;
      assert batch[i] in batch;
    }
  }

  lemma CoveredAgrees(chats: Chats, a: seq<Message>, b: seq<Message>)
    requires Agree(chats, a) && Covers(a, b)
    ensures Agree(chats, b)
  {
    forall m | m in b && StoredAt(chats, KeyOf(m)).Some? ensures Same(StoredAt(chats, KeyOf(m)).value, m) {
      var t :| t in a && KeyOf(t) == KeyOf(m) && Same(t, m);
    }
    forall m, n | m in b && n in b && KeyOf(m) == KeyOf(n) ensures Same(m, n) {
      var t :| t in a && KeyOf(t) == KeyOf(m) && Same(t, m);
      var u :| u in a && KeyOf(u) == KeyOf(n) && Same(u, n);
    }
  }

  lemma ThinnedStages(chats: Chats, thin: seq<Message>, batch: seq<Message>)
    requires Thinned(thin, batch)
    ensures Stage(chats, thin).Staged? <==> Stage(chats, batch).Staged?
    ensures Touched(thin) == Touched(batch)
  {
    StageMeans(chats, thin);
    StageMeans(chats, batch);
    ThinnedCovers(thin, batch);
    if Agree(chats, thin) { CoveredAgrees(chats, thin, batch); }
    if Agree(chats, batch) { CoveredAgrees(chats, batch, thin); }
  }

  /** The chat's rows after writing a batch. */
  function Written(chats: Chats, batch: seq<Message>, c: nat): Rows
    requires Stage(chats, batch).Staged?
  {
    RowsOf(chats, c) + NewRows(Stage(chats, batch).rows, c)
  }

  lemma CommittedRows(chats: Chats, batch: seq<Message>, countUnread: bool, c: nat)
    requires Stage(chats, batch).Staged?
    ensures RowsOf(Committed(chats, Stage(chats, batch), batch, countUnread), c) == Written(chats, batch, c)
    ensures c !in Touched(batch) ==> Written(chats, batch, c) == RowsOf(chats, c)
  {
    if c !in Touched(batch) {
      NothingNew(batch, Stage(chats, batch).rows, c);
      PlusNothing(RowsOf(chats, c));
    }
  }

  lemma PlusNothing(rows: Rows)
    ensures rows + map[] == rows
  {
  }

  /** The rows of a chat after a write, identifier by identifier. */
  lemma RowAfterWrite(chats: Chats, batch: seq<Message>, c: nat, id: nat)
    requires WellFormed(chats) && Stage(chats, batch).Staged?
    ensures var rows := Written(chats, batch, c);
            var f := Fold(StoredAt(chats, Key(c, id)), batch, Key(c, id));
            (id in rows <==> f.Some?) && (id in rows ==> rows[id] == f.value.Stored())
  {
    var s, k := Stage(chats, batch), Key(c, id);
    StageMeans(chats, batch);
    assert Lookup(chats, s.rows, k) == Fold(StoredAt(chats, k), batch, k);
    assert id in NewRows(s.rows, c) <==> k in s.rows;
  }

  /** Every message whose body the policy removed would have been pruned anyway. */
  lemma DemotedIsDoomed(policy: Policy, chats: Chats, batch: seq<Message>, clock: seq<int>, usage: nat, origin: Origin,
                        u: Rows, i: nat, cutoff: int)
    requires policy.Valid() && i < |batch| <= |clock| && clock[i] != 0 && batch[i].Valid()
    requires policy.Cutoff(clock[i]) <= cutoff
    requires origin.Realtime? || usage < policy.cacheBytes
    requires Demote(policy, chats, batch[i], clock[i], usage, origin) != batch[i]
    requires batch[i].id in u && u[batch[i].id].sentAt == batch[i].sentAt
    requires KeyedById(u)
    requires var rows := RowsOf(chats, batch[i].chat);
             forall id :: id in rows && rows[id].bodyRetained ==>
               id in u && u[id].bodyRetained && u[id].sentAt == rows[id].sentAt && rows[id].id == id
    ensures batch[i].id !in Survivors(u, cutoff, policy.messagesPerChat)
  {
    var m, rows := batch[i], RowsOf(chats, batch[i].chat);
    var b, q := Bodies(u, cutoff), F.Key(0, m.id);
    if q in b {
      var newer := NewerBodies(rows, m);
      assert |newer| >= policy.messagesPerChat;
      var higher := F.Higher(F.LargerFirst, b, q);
      var keys := set id | id in newer :: F.Key(0, id);
      KeysSize(newer, keys);
      forall p | p in keys ensures p in higher {
        assert p.minor in newer;
      }
      F.SubsetSize(keys, higher);
    }
  }

  lemma {:induction false} KeysSize(ids: set<nat>, keys: set<F.Key>)
    requires keys == set id | id in ids :: F.Key(0, id)
    ensures |keys| == |ids|
    decreases |ids|
  {
    if id :| id in ids {
      KeysSize(ids - {id}, keys - {F.Key(0, id)});
    } else {
      assert keys == {};
    }
  }

  lemma WrittenRow(chats: Chats, batch: seq<Message>, c: nat, id: nat)
    requires WellFormed(chats) && Stage(chats, batch).Staged?
    ensures var f := Fold(StoredAt(chats, Key(c, id)), batch, Key(c, id));
            && (id in Written(chats, batch, c) <==> f.Some?)
            && (f.Some? ==> Written(chats, batch, c)[id] == f.value.Stored() && KeyOf(f.value) == Key(c, id))
            && (f.Some? ==> forall m :: m in batch && KeyOf(m) == Key(c, id) ==> Same(f.value, m))
            && (f.Some? && id in RowsOf(chats, c) ==> Same(f.value, RowsOf(chats, c)[id]))
  {
    StageMeans(chats, batch);
    RowAfterWrite(chats, batch, c, id);
    FoldSame(StoredAt(chats, Key(c, id)), batch, Key(c, id));
  }

  /** A stored body stays a body through any write. */
  lemma {:induction false} FoldKeepsBody(prior: Option<Message>, batch: seq<Message>, k: Key)
    requires prior.Some? && prior.value.bodyRetained
    ensures Fold(prior, batch, k).Some? && Fold(prior, batch, k).value.bodyRetained
  {
    if batch != [] { FoldKeepsBody(prior, batch[..|batch|-1], k); }
  }

  /** The setting of one chat's prune after one batch. */
  ghost predicate Pipeline(policy: Policy, chats: Chats, batch: seq<Message>, clock: seq<int>, usage: nat, origin: Origin,
                           cutoff: int)
  {
    && policy.Valid() && WellFormed(chats) && Stage(chats, batch).Staged?
    && |batch| <= |clock| && (forall m :: m in batch ==> m.Valid())
    && (forall i :: 0 <= i < |batch| ==> clock[i] != 0 && policy.Cutoff(clock[i]) <= cutoff)
    && (origin.Realtime? || usage < policy.cacheBytes)
  }

  /** A row that survives in the undemoted chat was never demoted. */
  lemma SurvivorWasKept(policy: Policy, chats: Chats, batch: seq<Message>, clock: seq<int>, usage: nat, origin: Origin,
                        cutoff: int, i: nat)
    requires Pipeline(policy, chats, batch, clock, usage, origin, cutoff) && i < |batch|
    requires batch[i].id in Survivors(Written(chats, batch, batch[i].chat), cutoff, policy.messagesPerChat)
    ensures Demoted(policy, chats, batch, clock, usage, origin)[i] == batch[i]
  {
    var c := batch[i].chat;
    var u, rows := Written(chats, batch, c), RowsOf(chats, c);
    assert batch[i] in batch;
    forall id | id in u ensures u[id].id == id { WrittenRow(chats, batch, c, id); }
    WrittenRow(chats, batch, c, batch[i].id);
    forall id | id in rows && rows[id].bodyRetained
      ensures id in u && u[id].bodyRetained && u[id].sentAt == rows[id].sentAt && rows[id].id == id
    {
      WrittenRow(chats, batch, c, id);
      FoldKeepsBody(StoredAt(chats, Key(c, id)), batch, Key(c, id));
    }
    if Demote(policy, chats, batch[i], clock[i], usage, origin) != batch[i] {
      DemotedIsDoomed(policy, chats, batch, clock, usage, origin, u, i, cutoff);
    }
  }

  lemma DemotedIsThinned(policy: Policy, chats: Chats, batch: seq<Message>, clock: seq<int>, usage: nat, origin: Origin)
    requires |batch| <= |clock|
    ensures Thinned(Demoted(policy, chats, batch, clock, usage, origin), batch)
  {
  }

  /** A body stored after the demoted write is the same-aged body of the
      undemoted one. */
  lemma ThinnedRow(chats: Chats, thin: seq<Message>, batch: seq<Message>, c: nat, id: nat)
    requires WellFormed(chats) && Thinned(thin, batch)
    requires Stage(chats, thin).Staged? && Stage(chats, batch).Staged?
    ensures id in Written(chats, thin, c) <==> id in Written(chats, batch, c)
    ensures id in Written(chats, thin, c) ==>
              var a, b := Written(chats, thin, c)[id], Written(chats, batch, c)[id];
              a.sentAt == b.sentAt && (a.bodyRetained ==> b.bodyRetained)
  {
    var k := Key(c, id);
    WrittenRow(chats, thin, c, id);
    WrittenRow(chats, batch, c, id);
    ThinnedFold(StoredAt(chats, k), thin, batch, k);
    if id in Written(chats, thin, c) && id !in RowsOf(chats, c) {
      if forall m :: m in batch ==> KeyOf(m) != k { FoldNone(StoredAt(chats, k), batch, k); }
      var m :| m in batch && KeyOf(m) == k;
      var i :| 0 <= i < |batch| && batch[i] == m;
      assert thin[i] in thin;
    }
  }

  lemma KeptRowsAgree(policy: Policy, chats: Chats, batch: seq<Message>, clock: seq<int>, usage: nat, origin: Origin,
                      cutoff: int, c: nat, id: nat)
    requires Pipeline(policy, chats, batch, clock, usage, origin, cutoff)
    requires Stage(chats, Demoted(policy, chats, batch, clock, usage, origin)).Staged?
    requires id in Survivors(Written(chats, batch, c), cutoff, policy.messagesPerChat)
    ensures var p := Written(chats, Demoted(policy, chats, batch, clock, usage, origin), c);
            id in p && p[id] == Written(chats, batch, c)[id]
  {
    var thin, k := Demoted(policy, chats, batch, clock, usage, origin), Key(c, id);
    DemotedIsThinned(policy, chats, batch, clock, usage, origin);
    forall i | 0 <= i < |batch| && KeyOf(batch[i]) == k ensures thin[i] == batch[i] {
      SurvivorWasKept(policy, chats, batch, clock, usage, origin, cutoff, i);
    }
    ThinnedFold(StoredAt(chats, k), thin, batch, k);
    WrittenRow(chats, thin, c, id);
    WrittenRow(chats, batch, c, id);
  }

  /** Deciding every message against the pre-batch snapshot, writing with duplicate
      merging and then pruning a chat leaves exactly the newest non-aged bodies of
      the old rows together with the undemoted batch. */
  lemma DecideWritePruneRefines(policy: Policy, chats: Chats, batch: seq<Message>, clock: seq<int>, usage: nat,
                                origin: Origin, cutoff: int, c: nat)
    requires Pipeline(policy, chats, batch, clock, usage, origin, cutoff)
    ensures var thin := Demoted(policy, chats, batch, clock, usage, origin);
            && Stage(chats, thin).Staged?
            && Survivors(Written(chats, thin, c), cutoff, policy.messagesPerChat)
               == Survivors(Written(chats, batch, c), cutoff, policy.messagesPerChat)
  {
    var thin, k := Demoted(policy, chats, batch, clock, usage, origin), policy.messagesPerChat;
    DemotedIsThinned(policy, chats, batch, clock, usage, origin);
    ThinnedStages(chats, thin, batch);
    var p, u := Written(chats, thin, c), Written(chats, batch, c);
    var x, y := Bodies(p, cutoff), Bodies(u, cutoff);
    forall q | q in y && F.Kept(F.LargerFirst, y, q, k) ensures q in x && x[q] == y[q] {
      assert q.minor in Survivors(u, cutoff, k);
      KeptRowsAgree(policy, chats, batch, clock, usage, origin, cutoff, c, q.minor);
    }
    forall q | q in x ensures q in y && x[q].at <= y[q].at {
      ThinnedRow(chats, thin, batch, c, q.minor);
    }
    F.Sandwich(F.LargerFirst, x, y, k);
    SurvivorsByTrim(p, u, cutoff, k);
  }

  function Select(rows: Rows, t: F.Table<Message>): Rows {
    map id | id in rows && F.Key(0, id) in t :: t[F.Key(0, id)].value
  }

  lemma SelectSame(p: Rows, u: Rows, t: F.Table<Message>)
    requires forall id: nat :: F.Key(0, id) in t ==> id in p && id in u
    ensures Select(p, t) == Select(u, t)
  {
  }

  lemma SurvivorsSelect(rows: Rows, cutoff: int, k: nat)
    ensures Survivors(rows, cutoff, k) == Select(rows, F.Trim(F.LargerFirst, Bodies(rows, cutoff), k))
    ensures forall id: nat :: F.Key(0, id) in F.Trim(F.LargerFirst, Bodies(rows, cutoff), k) ==> id in rows
  {
  }

  lemma SurvivorsByTrim(p: Rows, u: Rows, cutoff: int, k: nat)
    requires F.Trim(F.LargerFirst, Bodies(p, cutoff), k) == F.Trim(F.LargerFirst, Bodies(u, cutoff), k)
    ensures Survivors(p, cutoff, k) == Survivors(u, cutoff, k)
  {
    SurvivorsSelect(p, cutoff, k);
    SurvivorsSelect(u, cutoff, k);
    SelectSame(p, u, F.Trim(F.LargerFirst, Bodies(p, cutoff), k));
  }

  // ---- which bodies a batch brings, without the decision

  predicate HasBody(chats: Chats, k: Key) { StoredAt(chats, k).Some? && StoredAt(chats, k).value.bodyRetained }

  /** The early rule for one message: young enough, among the newest of the stored bodies,
      and for history the cache within its budget. */
  predicate Welcome(policy: Policy, chats: Chats, m: Message, now: int, usage: nat, origin: Origin) {
    && m.bodyRetained && now - m.sentAt <= policy.maxAge
    && |NewerBodies(RowsOf(chats, m.chat), m)| < policy.messagesPerChat
    && (origin.History? ==> usage < policy.cacheBytes)
  }

  ghost predicate Brings(policy: Policy, chats: Chats, batch: seq<Message>, clock: seq<int>, usage: nat, origin: Origin, k: Key)
    requires |batch| <= |clock|
  {
    exists i :: 0 <= i < |batch| && KeyOf(batch[i]) == k && Welcome(policy, chats, batch[i], clock[i], usage, origin)
  }

  /** The bodies after a batch: where a chat was pruned, no others than before and those the
      batch brings; elsewhere exactly these. */
  ghost predicate BodiesTold(policy: Policy, pre: Chats, post: Chats, batch: seq<Message>, clock: seq<int>, usage: nat, origin: Origin,
                             cutoffs: map<nat, int>)
    requires |batch| <= |clock|
  {
    forall k: Key ::
      && (HasBody(post, k) ==> HasBody(pre, k) || Brings(policy, pre, batch, clock, usage, origin, k))
      && (k.chat !in cutoffs ==> (HasBody(post, k) <==> HasBody(pre, k) || Brings(policy, pre, batch, clock, usage, origin, k)))
  }

  lemma DemoteKeepsWelcome(policy: Policy, chats: Chats, m: Message, now: int, usage: nat, origin: Origin)
    requires policy.Valid() && m.Valid() && now != 0
    ensures Demote(policy, chats, m, now, usage, origin).bodyRetained <==> Welcome(policy, chats, m, now, usage, origin)
  {
  }

  lemma {:induction false} FoldBody(prior: Option<Message>, batch: seq<Message>, k: Key)
    ensures var f := Fold(prior, batch, k);
      f.Some? && f.value.bodyRetained <==>
      (prior.Some? && prior.value.bodyRetained) || exists i :: 0 <= i < |batch| && KeyOf(batch[i]) == k && batch[i].bodyRetained
  {
    if batch != [] {
      var p, m := batch[..|batch|-1], batch[|batch|-1];
      FoldBody(prior, p, k);
      assert forall i :: 0 <= i < |p| ==> p[i] == batch[i];
    }
  }

  /** The bodies of a chat between the write and its prune. */
  lemma WrittenBodies(policy: Policy, chats: Chats, batch: seq<Message>, clock: seq<int>, usage: nat, origin: Origin, k: Key)
    requires policy.Valid() && WellFormed(chats) && |batch| <= |clock| && (forall m :: m in batch ==> m.Valid())
    requires forall i :: 0 <= i < |batch| ==> clock[i] != 0
    requires Stage(chats, Demoted(policy, chats, batch, clock, usage, origin)).Staged?
    ensures var rows := Written(chats, Demoted(policy, chats, batch, clock, usage, origin), k.chat);
      k.id in rows && rows[k.id].bodyRetained <==> HasBody(chats, k) || Brings(policy, chats, batch, clock, usage, origin, k)
  {
    var thin := Demoted(policy, chats, batch, clock, usage, origin);
    forall i | 0 <= i < |batch|
      ensures thin[i].bodyRetained <==> Welcome(policy, chats, batch[i], clock[i], usage, origin)
      ensures KeyOf(thin[i]) == KeyOf(batch[i])
    {
      assert batch[i] in batch;
      DemoteKeepsWelcome(policy, chats, batch[i], clock[i], usage, origin);
    }
    WrittenRow(chats, thin, k.chat, k.id);
    FoldBody(StoredAt(chats, k), thin, k);
    hide Welcome, Demote, Demoted, Fold, Stage, WellFormed;
  }

  lemma {:induction false} FoldWithoutBodies(prior: Option<Message>, thin: seq<Message>, k: Key)
    requires prior.Some? && prior.value.bodyRetained && forall m :: m in thin ==> !m.bodyRetained
    ensures Fold(prior, thin, k) == prior
  {
    if thin != [] {
      var p, m := thin[..|thin|-1], thin[|thin|-1];
      assert m in thin && forall x :: x in p ==> x in thin;
      FoldWithoutBodies(prior, p, k);
    }
  }

  lemma BodilessRow(chats: Chats, thin: seq<Message>, c: nat, id: nat)
    requires WellFormed(chats) && Stage(chats, thin).Staged? && forall m :: m in thin ==> !m.bodyRetained
    ensures var p, u := Written(chats, thin, c), RowsOf(chats, c);
      && (id in p && p[id].bodyRetained <==> id in u && u[id].bodyRetained)
      && (id in p && p[id].bodyRetained ==> p[id] == u[id])
  {
    var q := Key(c, id);
    WrittenRow(chats, thin, c, id);
    FoldBody(StoredAt(chats, q), thin, q);
    forall i | 0 <= i < |thin| ensures !thin[i].bodyRetained { assert thin[i] in thin; }
    hide Written, Fold, Stage, Same;
    if HasBody(chats, q) { FoldWithoutBodies(StoredAt(chats, q), thin, q); }
  }

  predicate BodyAt(rows: Rows, id: nat) { id in rows && rows[id].bodyRetained }

  /** Every body of p is one of u. */
  predicate BodiesWithin(p: Rows, u: Rows) { forall id :: id in p && p[id].bodyRetained ==> id in u && u[id] == p[id] }

  lemma BodiesAre(p: Rows, u: Rows, cutoff: int, q: F.Key)
    requires BodiesWithin(p, u)
    ensures q in Bodies(p, cutoff) ==> q in Bodies(u, cutoff) && Bodies(p, cutoff)[q] == Bodies(u, cutoff)[q]
  {
  }

  /** The newest bodies depend on the bodies alone. */
  lemma SameBodies(p: Rows, u: Rows, cutoff: int, k: nat)
    requires BodiesWithin(p, u) && BodiesWithin(u, p)
    ensures Survivors(p, cutoff, k) == Survivors(u, cutoff, k)
  {
    hide *;
    forall q
      ensures q in Bodies(p, cutoff) <==> q in Bodies(u, cutoff)
      ensures q in Bodies(p, cutoff) ==> Bodies(p, cutoff)[q] == Bodies(u, cutoff)[q]
    {
      BodiesAre(p, u, cutoff, q);
      BodiesAre(u, p, cutoff, q);
    }
    assert Bodies(p, cutoff) == Bodies(u, cutoff);
    SurvivorsByTrim(p, u, cutoff, k);
  }

  lemma SurvivorHasBody(rows: Rows, cutoff: int, k: nat, id: nat)
    ensures id in Survivors(rows, cutoff, k) ==> BodyAt(rows, id) && Survivors(rows, cutoff, k)[id] == rows[id]
  {
  }

  /** A write without bodies leaves the bodies of every chat as they were. */
  lemma BodilessWrite(chats: Chats, thin: seq<Message>, c: nat, cutoff: int, k: nat)
    requires WellFormed(chats) && Stage(chats, thin).Staged? && forall m :: m in thin ==> !m.bodyRetained
    ensures Survivors(Written(chats, thin, c), cutoff, k) == Survivors(RowsOf(chats, c), cutoff, k)
  {
    var p, u := Written(chats, thin, c), RowsOf(chats, c);
    assert BodiesWithin(p, u) && BodiesWithin(u, p) by {
      hide Written, RowsOf, WellFormed, Stage;
      forall id: nat
        ensures id in p && p[id].bodyRetained <==> id in u && u[id].bodyRetained
        ensures id in p && p[id].bodyRetained ==> p[id] == u[id]
      {
        BodilessRow(chats, thin, c, id);
      }
    }
    hide *;
    SameBodies(p, u, cutoff, k);
  }

  lemma BodyMeans(rows: Rows, id: nat)
    ensures BodyAt(rows, id) <==> id in rows && rows[id].bodyRetained
  {
  }

  lemma ShedRows(policy: Policy, chats: Chats, batch: seq<Message>, clock: seq<int>, usage: nat)
    requires |batch| <= |clock| && usage >= policy.cacheBytes
    ensures forall m :: m in Demoted(policy, chats, batch, clock, usage, History) ==> !m.bodyRetained
  {
    var thin := Demoted(policy, chats, batch, clock, usage, History);
    forall m | m in thin ensures !m.bodyRetained {
      var i :| 0 <= i < |thin| && thin[i] == m;
    }
  }

  // ---- one batch through the pipeline

  datatype BatchError = Cancelled | SnapshotTooLarge | InvalidClock | StoreFailed(result: WriteResult)

  datatype BatchOutcome = BatchOutcome(retained: nat, discarded: nat, events: seq<LiveEvent>, writeSucceeded: bool,
                                       err: Option<BatchError>)

  predicate NonDecreasing(clock: seq<int>) {
    forall i, j :: 0 <= i < j < |clock| ==> clock[i] <= clock[j]
  }

  predicate RowsAtMost(chats: Chats, k: nat) {
    forall c :: c in chats ==> |chats[c].messages| <= k
  }

  /** The chats of a batch in order of first occurrence. */
  predicate ListsChats(list: seq<nat>, batch: seq<Message>) {
    && (forall i, j :: 0 <= i < j < |list| ==> list[i] != list[j])
    && Ids(list) == Touched(batch)
    && |list| <= |batch|
  }

  /** Some chats pruned at their own cutoffs, the others untouched. */
  ghost predicate PrunedAt(mid: Chats, now: Chats, cutoffs: map<nat, int>, k: nat) {
    && now.Keys == mid.Keys
    && forall c :: c in mid ==>
         if c in cutoffs then IsPruned(mid[c], now[c], cutoffs[c], k) else now[c] == mid[c]
  }

  /** The thinned rows written, then some of the touched chats pruned. */
  ghost predicate Midway(policy: Policy, pre: Chats, post: Chats, thin: seq<Message>, countUnread: bool, cutoffs: map<nat, int>) {
    && Stage(pre, thin).Staged? && cutoffs.Keys <= Touched(thin)
    && PrunedAt(Committed(pre, Stage(pre, thin), thin, countUnread), post, cutoffs, policy.messagesPerChat)
  }

  /** A successful batch: the thinned rows written, then every touched chat pruned
      and no other chat changed. */
  ghost predicate BatchStep(policy: Policy, pre: Chats, post: Chats, thin: seq<Message>, countUnread: bool,
                            cutoffs: map<nat, int>)
  {
    Midway(policy, pre, post, thin, countUnread, cutoffs) && cutoffs.Keys == Touched(thin)
  }

  /** The identifiers a batch brings to a chat that does not hold them yet. */
  function FreshIds(chats: Chats, batch: seq<Message>, c: nat): set<nat> {
    set m | m in batch && m.chat == c && m.id !in RowsOf(chats, c) :: m.id
  }

  /** Some touched chat's rows and its new identifiers together pass a limit. */
  predicate Overfull(chats: Chats, batch: seq<Message>, limit: nat) {
    exists c :: c in Touched(batch) && |RowsOf(chats, c)| + |FreshIds(chats, batch, c)| > limit
  }

  /** What a chat holds after the write: its rows and the new identifiers. */
  lemma WrittenSize(chats: Chats, batch: seq<Message>, c: nat)
    requires Stage(chats, batch).Staged?
    ensures |Written(chats, batch, c)| == |RowsOf(chats, c)| + |FreshIds(chats, batch, c)|
  {
    RowsAfter(chats, Stage(chats, batch).rows, c);
    FreshAreNew(chats, batch, Stage(chats, batch).rows, c);
  }

  lemma FreshAreNew(chats: Chats, batch: seq<Message>, rows: map<Key, Message>, c: nat)
    requires rows.Keys == KeysOf(batch)
    ensures NewIds(chats, rows, c) == FreshIds(chats, batch, c)
  {
    forall id | id in NewIds(chats, rows, c) ensures id in FreshIds(chats, batch, c) {
      assert Key(c, id) in KeysOf(batch);
    }
    forall id | id in FreshIds(chats, batch, c) ensures id in NewIds(chats, rows, c) {
      assert Key(c, id) in rows;
    }
  }

  lemma ThinnedFresh(chats: Chats, thin: seq<Message>, batch: seq<Message>, c: nat)
    requires Thinned(thin, batch)
    ensures FreshIds(chats, thin, c) == FreshIds(chats, batch, c)
  {
    forall id | id in FreshIds(chats, thin, c) ensures id in FreshIds(chats, batch, c) {
      var i :| 0 <= i < |thin| && thin[i].chat == c && thin[i].id == id;
      assert batch[i] in batch;
    }
    forall id | id in FreshIds(chats, batch, c) ensures id in FreshIds(chats, thin, c) {
      var i :| 0 <= i < |batch| && batch[i].chat == c && batch[i].id == id;
      assert thin[i] in thin;
    }
  }

  lemma ThinnedTouched(thin: seq<Message>, batch: seq<Message>)
    requires Thinned(thin, batch)
    ensures Touched(thin) == Touched(batch) && |thin| == |batch|
  {
    ThinnedCovers(thin, batch);
  }

  lemma ThinnedOverfull(chats: Chats, thin: seq<Message>, batch: seq<Message>, limit: nat)
    requires Thinned(thin, batch)
    ensures Overfull(chats, thin, limit) <==> Overfull(chats, batch, limit)
  {
    ThinnedTouched(thin, batch);
    forall c ensures FreshIds(chats, thin, c) == FreshIds(chats, batch, c) { ThinnedFresh(chats, thin, batch, c); }
    hide FreshIds, Touched;
  }

  /** The store refuses for rows exactly when some chat would pass its 551 rows. */
  lemma FitsUnlessOverfull(chats: Chats, batch: seq<Message>)
    requires Stage(chats, batch).Staged?
    ensures FitsRows(chats, Stage(chats, batch), batch) <==> !Overfull(chats, batch, MAX_SNAPSHOT_SUMMARIES)
  {
    forall c ensures |RowsOf(chats, c) + NewRows(Stage(chats, batch).rows, c)| == |RowsOf(chats, c)| + |FreshIds(chats, batch, c)| {
      WrittenSize(chats, batch, c);
    }
  }

  lemma FreshAtMost(chats: Chats, batch: seq<Message>, c: nat)
    ensures |FreshIds(chats, batch, c)| <= |batch|
  {
    FewIds(batch);
    F.SubsetSize(FreshIds(chats, batch, c), set m | m in batch :: m.id);
  }

  lemma {:induction false} FewIds(batch: seq<Message>)
    ensures |set m | m in batch :: m.id| <= |batch|
  {
    if batch != [] {
      var p, m := batch[..|batch|-1], batch[|batch|-1];
      FewIds(p);
      assert batch == p + [m];
      assert (set m | m in batch :: m.id) == (set m | m in p :: m.id) + {m.id};
    }
  }

  lemma DemotedNext(policy: Policy, chats: Chats, batch: seq<Message>, clock: seq<int>, usage: nat, origin: Origin, i: nat)
    requires i < |batch| <= |clock|
    ensures Demoted(policy, chats, batch[..i+1], clock, usage, origin) ==
            Demoted(policy, chats, batch[..i], clock, usage, origin)
            + [Demote(policy, chats, batch[i], clock[i], usage, origin)]
  {
  }

  lemma ListNext(list: seq<nat>, batch: seq<Message>, i: nat)
    requires i < |batch| && ListsChats(list, batch[..i])
    ensures ListsChats(if batch[i].chat in list then list else list + [batch[i].chat], batch[..i+1])
  {
    assert batch[..i+1] == batch[..i] + [batch[i]];
    TouchedLast(batch[..i], batch[i]);
    assert batch[i].chat in list <==> batch[i].chat in Touched(batch[..i]);
    assert Ids(list + [batch[i].chat]) == Ids(list) + {batch[i].chat};
  }

  /** No zero reading of the clock among those from one position up to another. */
  predicate ClockGood(clock: seq<int>, from: nat, to: nat) {
    forall i :: from <= i < to && i < |clock| ==> clock[i] != 0
  }

  /** What can stop the decisions. */
  ghost predicate StopsDeciding(err: BatchError, chats: Chats, limit: nat, batch: seq<Message>, clock: seq<int>, cancelAt: nat) {
    match err
    case Cancelled => cancelAt < |batch|
    case SnapshotTooLarge => exists c :: c in Touched(batch) && |RowsOf(chats, c)| > limit
    case InvalidClock => !ClockGood(clock, 0, |batch|)
    case StoreFailed(_) => false
  }

  /** The decisions for the first i messages. */
  ghost predicate DecidedUpTo(policy: Policy, chats: Chats, limit: nat, batch: seq<Message>, origin: Origin, clock: seq<int>,
                              usage: nat, i: nat, retained: seq<Message>, list: seq<nat>)
    requires i <= |batch| <= |clock|
  {
    && retained == Demoted(policy, chats, batch[..i], clock, usage, origin)
    && ListsChats(list, batch[..i]) && ClockGood(clock, 0, i)
    && forall j :: 0 <= j < i ==> |RowsOf(chats, batch[j].chat)| <= limit
  }

  /** Every message of a batch can be decided. */
  ghost predicate Decidable(chats: Chats, limit: nat, batch: seq<Message>, clock: seq<int>, cancelAt: nat) {
    && |batch| <= cancelAt && ClockGood(clock, 0, |batch|)
    && forall c :: c in Touched(batch) ==> |RowsOf(chats, c)| <= limit
  }

  lemma DecidedAll(policy: Policy, chats: Chats, limit: nat, batch: seq<Message>, origin: Origin, clock: seq<int>,
                   usage: nat, retained: seq<Message>, list: seq<nat>, cancelAt: nat)
    requires |batch| <= |clock| && |batch| <= cancelAt
    requires DecidedUpTo(policy, chats, limit, batch, origin, clock, usage, |batch|, retained, list)
    ensures Decidable(chats, limit, batch, clock, cancelAt)
    ensures retained == Demoted(policy, chats, batch, clock, usage, origin) && ListsChats(list, batch)
  {
    assert batch[..|batch|] == batch;
    forall c | c in Touched(batch) ensures |RowsOf(chats, c)| <= limit {
      var m :| m in batch && m.chat == c;
      var j :| 0 <= j < |batch| && batch[j] == m;
    }
  }

  lemma DecidedNext(policy: Policy, chats: Chats, limit: nat, batch: seq<Message>, origin: Origin, clock: seq<int>, usage: nat,
                    i: nat, retained: seq<Message>, list: seq<nat>)
    requires i < |batch| <= |clock| && clock[i] != 0 && |RowsOf(chats, batch[i].chat)| <= limit
    requires DecidedUpTo(policy, chats, limit, batch, origin, clock, usage, i, retained, list)
    ensures DecidedUpTo(policy, chats, limit, batch, origin, clock, usage, i + 1,
                        retained + [Demote(policy, chats, batch[i], clock[i], usage, origin)],
                        if batch[i].chat in list then list else list + [batch[i].chat])
  {
    DemotedNext(policy, chats, batch, clock, usage, origin, i);
    ListNext(list, batch, i);
  }

  /** Decides one message against the current store. */
  method DecideOne(store: Memory, policy: Policy, snapshotLimit: nat, m: Message, origin: Origin, now: int, usage: nat)
    returns (kept: Message, err: Option<BatchError>)
    requires store.Valid() && policy.Valid() && m.Valid()
    ensures err.None? ==> kept == Demote(policy, store.chats, m, now, usage, origin)
    ensures err.None? ==> now != 0 && |RowsOf(store.chats, m.chat)| <= snapshotLimit
    ensures err.Some? ==> (err.value == SnapshotTooLarge && |RowsOf(store.chats, m.chat)| > snapshotLimit) ||
                          (err.value == InvalidClock && now == 0)
  {
    var snapshot, _ := store.RetentionSnapshot(m.chat);
    if |snapshot| > snapshotLimit {
      return m, Some(SnapshotTooLarge);
    }
    var newer := CountNewerBodies(snapshot, RowsOf(store.chats, m.chat), m);
    var decision := Decide(policy, m, now, newer, usage, origin);
    if decision.Invalid? {
      return m, Some(InvalidClock);
    }
    return if decision.action.KeepBody? then m else m.WithoutBody(), None;
  }

  /** Decides every message against the current store, which the loop does not
      change. */
  method DecideBatch(store: Memory, policy: Policy, snapshotLimit: nat, batch: seq<Message>, origin: Origin,
                     clock: seq<int>, usage: nat, cancelAt: nat)
    returns (retained: seq<Message>, chats: seq<nat>, err: Option<BatchError>)
    requires store.Valid() && policy.Valid() && |batch| <= |clock| && (forall m :: m in batch ==> m.Valid())
    ensures err.None? <==> Decidable(store.chats, snapshotLimit, batch, clock, cancelAt)
    ensures err.None? ==> retained == Demoted(policy, store.chats, batch, clock, usage, origin) && ListsChats(chats, batch)
    ensures err.Some? ==> StopsDeciding(err.value, store.chats, snapshotLimit, batch, clock, cancelAt)
  {
    hide Demoted, Demote, ListsChats;
    retained, chats, err := [], [], None;
    DecidedNone(policy, store.chats, snapshotLimit, batch, origin, clock, usage);
    for i := 0 to |batch|
      invariant err.None? && i <= cancelAt
      invariant DecidedUpTo(policy, store.chats, snapshotLimit, batch, origin, clock, usage, i, retained, chats)
    {
      if i >= cancelAt {
        err := Some(Cancelled);
        return;
      }
      var m := batch[i];
      assert m in batch && m.chat in Touched(batch);
      var kept;
      kept, err := DecideOne(store, policy, snapshotLimit, m, origin, clock[i], usage);
      if err.Some? {
        return;
      }
      DecidedNext(policy, store.chats, snapshotLimit, batch, origin, clock, usage, i, retained, chats);
      retained := retained + [kept];
      if m.chat !in chats {
        chats := chats + [m.chat];
      }
    }
    DecidedAll(policy, store.chats, snapshotLimit, batch, origin, clock, usage, retained, chats, cancelAt);
  }

  lemma DecidedNone(policy: Policy, chats: Chats, limit: nat, batch: seq<Message>, origin: Origin, clock: seq<int>, usage: nat)
    requires |batch| <= |clock|
    ensures DecidedUpTo(policy, chats, limit, batch, origin, clock, usage, 0, [], [])
  {
  }

  /** One chat's prune is the plan applied to its state. */
  lemma PlanApplied(chats: Chats, plan: PrunePlan, c: nat, cutoff: int, k: nat)
    requires c in chats && PlanMeans(plan, c, chats[c].messages, chats[c].anchor, cutoff, k)
    ensures c in Pruned(chats, plan) && IsPruned(chats[c], Pruned(chats, plan)[c], cutoff, k)
    ensures forall o :: o in chats && o != c ==> o in Pruned(chats, plan) && Pruned(chats, plan)[o] == chats[o]
    ensures Pruned(chats, plan).Keys == chats.Keys
  {
  }

  /** Snapshot, plan and apply for one chat. */
  method PruneChat(store: Memory, policy: Policy, snapshotLimit: nat, c: nat, now: int) returns (err: Option<BatchError>)
    requires store.Valid() && policy.Valid() && c in store.chats
    modifies store
    ensures store.Valid()
    ensures err.None? ==> PrunedOne(old(store.chats), store.chats, c, policy.Cutoff(now), policy.messagesPerChat)
    ensures err.None? ==> now != 0 && |RowsOf(old(store.chats), c)| <= snapshotLimit
    ensures err.Some? ==> store.chats == old(store.chats)
    ensures err.Some? ==> (err.value == SnapshotTooLarge && |RowsOf(store.chats, c)| > snapshotLimit) ||
                          (err.value == InvalidClock && now == 0)
  {
    var snapshot, anchor := store.RetentionSnapshot(c);
    if |snapshot| > snapshotLimit {
      return Some(SnapshotTooLarge);
    }
    var plan := PlanPrune(policy, c, snapshot, RowsOf(store.chats, c), anchor, now);
    if plan.None? {
      return Some(InvalidClock);
    }
    PlanApplied(store.chats, plan.value, c, policy.Cutoff(now), policy.messagesPerChat);
    var result := store.ApplyPrune(plan.value);
    return None;
  }

  ghost predicate PrunedOne(before: Chats, after: Chats, c: nat, cutoff: int, k: nat) {
    && after.Keys == before.Keys && c in before
    && IsPruned(before[c], after[c], cutoff, k)
    && forall o :: o in before && o != c ==> after[o] == before[o]
  }

  lemma PrunedNext(mid: Chats, before: Chats, after: Chats, cutoffs: map<nat, int>, c: nat, cutoff: int, k: nat)
    requires PrunedAt(mid, before, cutoffs, k) && c !in cutoffs && PrunedOne(before, after, c, cutoff, k)
    ensures PrunedAt(mid, after, cutoffs[c := cutoff], k)
  {
  }

  /** What can stop the prunes; chats are pruned in the order of the list. */
  ghost predicate StopsPruning(err: BatchError, mid: Chats, limit: nat, list: seq<nat>, clock: seq<int>, cancelAt: nat) {
    match err
    case Cancelled => cancelAt < |list|
    case SnapshotTooLarge => exists c :: c in list && |RowsOf(mid, c)| > limit
    case InvalidClock => !ClockGood(clock, 0, |list|)
    case StoreFailed(_) => false
  }

  /** The first i chats of the list pruned, each within the limit, the others untouched. */
  ghost predicate PrunedUpTo(policy: Policy, mid: Chats, now: Chats, list: seq<nat>, clock: seq<int>, limit: nat,
                             i: nat, cutoffs: map<nat, int>)
    requires i <= |list| <= |clock|
  {
    && PrunedAt(mid, now, cutoffs, policy.messagesPerChat)
    && cutoffs.Keys == Ids(list[..i]) && CutoffsRead(policy, clock, i, cutoffs)
    && ClockGood(clock, 0, i) && forall j :: 0 <= j < i ==> |RowsOf(mid, list[j])| <= limit
  }

  predicate CutoffsRead(policy: Policy, clock: seq<int>, n: nat, cutoffs: map<nat, int>)
    requires n <= |clock|
  {
    forall c :: c in cutoffs ==> exists j :: 0 <= j < n && cutoffs[c] == policy.Cutoff(clock[j])
  }

  lemma StillThere(policy: Policy, mid: Chats, now: Chats, list: seq<nat>, clock: seq<int>, limit: nat,
                   i: nat, cutoffs: map<nat, int>)
    requires i < |list| <= |clock| && PrunedUpTo(policy, mid, now, list, clock, limit, i, cutoffs)
    requires (forall m, n :: 0 <= m < n < |list| ==> list[m] != list[n]) && (list[i] in mid || list[i] in now)
    ensures list[i] in now && list[i] in mid && now[list[i]] == mid[list[i]]
    ensures RowsOf(now, list[i]) == RowsOf(mid, list[i])
  {
    assert list[i] !in Ids(list[..i]);
  }

  lemma PrunedUpToNext(policy: Policy, mid: Chats, before: Chats, after: Chats, list: seq<nat>, clock: seq<int>, limit: nat,
                       i: nat, cutoffs: map<nat, int>)
    requires i < |list| <= |clock| && (forall m, n :: 0 <= m < n < |list| ==> list[m] != list[n])
    requires PrunedUpTo(policy, mid, before, list, clock, limit, i, cutoffs)
    requires PrunedOne(before, after, list[i], policy.Cutoff(clock[i]), policy.messagesPerChat)
    requires clock[i] != 0 && |RowsOf(before, list[i])| <= limit
    ensures PrunedUpTo(policy, mid, after, list, clock, limit, i + 1, cutoffs[list[i] := policy.Cutoff(clock[i])])
  {
    StillThere(policy, mid, before, list, clock, limit, i, cutoffs);
    IdsNext(list, i);
    assert list[i] !in Ids(list[..i]);
    ClockGoodNext(clock, i);
    CutoffKeys(cutoffs, list[i], policy.Cutoff(clock[i]));
    hide PrunedAt, PrunedOne, CutoffsRead, RowsOf, ClockGood, Ids;
    PrunedNext(mid, before, after, cutoffs, list[i], policy.Cutoff(clock[i]), policy.messagesPerChat);
    CutoffsReadNext(policy, clock, i, cutoffs, list[i]);
  }

  lemma ClockGoodNext(clock: seq<int>, i: nat)
    requires i < |clock| && ClockGood(clock, 0, i) && clock[i] != 0
    ensures ClockGood(clock, 0, i + 1)
  {
  }

  lemma CutoffKeys(cutoffs: map<nat, int>, c: nat, cutoff: int)
    ensures cutoffs[c := cutoff].Keys == cutoffs.Keys + {c}
  {
  }

  lemma CutoffsReadNext(policy: Policy, clock: seq<int>, n: nat, cutoffs: map<nat, int>, c: nat)
    requires n < |clock| && CutoffsRead(policy, clock, n, cutoffs)
    ensures CutoffsRead(policy, clock, n + 1, cutoffs[c := policy.Cutoff(clock[n])])
  {
  }

  lemma PrunedNothing(policy: Policy, mid: Chats, list: seq<nat>, clock: seq<int>, limit: nat)
    requires |list| <= |clock|
    ensures PrunedUpTo(policy, mid, mid, list, clock, limit, 0, map[])
  {
    assert Ids(list[..0]) == {};
  }

  /** Prunes the chats one by one, until something stops it. */
  method PruneChats(store: Memory, policy: Policy, snapshotLimit: nat, chats: seq<nat>, clock: seq<int>, cancelAt: nat)
    returns (err: Option<BatchError>, ghost done: nat, ghost cutoffs: map<nat, int>)
    requires store.Valid() && policy.Valid() && |chats| <= |clock|
    requires forall i, j :: 0 <= i < j < |chats| ==> chats[i] != chats[j]
    requires forall c :: c in chats ==> c in store.chats
    modifies store
    ensures store.Valid() && done <= |chats| && done <= cancelAt
    ensures PrunedUpTo(policy, old(store.chats), store.chats, chats, clock, snapshotLimit, done, cutoffs)
    ensures err.None? ==> done == |chats| <= cancelAt
    ensures err.Some? ==> StopsPruning(err.value, old(store.chats), snapshotLimit, chats, clock, cancelAt)
  {
    hide PrunedUpTo, PrunedOne, PrunedAt, RowsBounded, WellFormed;
    err, cutoffs, done := None, map[], 0;
    ghost var mid := store.chats;
    PrunedNothing(policy, mid, chats, clock, snapshotLimit);
    for i := 0 to |chats|
      invariant store.Valid() && done == i && i <= cancelAt
      invariant PrunedUpTo(policy, mid, store.chats, chats, clock, snapshotLimit, i, cutoffs)
    {
      if i >= cancelAt {
        return Some(Cancelled), i, cutoffs;
      }
      var c := chats[i];
      assert c in chats;
      ghost var before := store.chats;
      StillThere(policy, mid, before, chats, clock, snapshotLimit, i, cutoffs);
      err := PruneChat(store, policy, snapshotLimit, c, clock[i]);
      if err.Some? {
        return;
      }
      PrunedUpToNext(policy, mid, before, store.chats, chats, clock, snapshotLimit, i, cutoffs);
      cutoffs, done := cutoffs[c := policy.Cutoff(clock[i])], i + 1;
    }
    err := None;
  }

  lemma CommittedNothing(chats: Chats, countUnread: bool)
    ensures Stage(chats, []) == Staged(map[], [])
    ensures Committed(chats, Stage(chats, []), [], countUnread) == chats
  {
    forall c | c in chats ensures Committed(chats, Stage(chats, []), [], countUnread)[c] == chats[c] {
      NothingNew([], map[], c);
      assert chats[c].messages + map[] == chats[c].messages;
    }
  }

  /** Writes the retained rows; an empty batch writes nothing. */
  method WriteRetained(store: Memory, thin: seq<Message>, origin: Origin) returns (events: seq<LiveEvent>, err: Option<BatchError>)
    requires store.Valid() && |thin| <= MAX_WRITE_BATCH && (forall m :: m in thin ==> m.Valid())
    modifies store
    ensures store.Valid()
    ensures err.None? <==> Agree(old(store.chats), thin) && FitsChats(old(store.chats), thin, store.maxChats)
                           && !Overfull(old(store.chats), thin, MAX_SNAPSHOT_SUMMARIES)
    ensures err.Some? ==> store.chats == old(store.chats) && events == []
    ensures err.Some? ==> err == Some(StoreFailed(if !Agree(old(store.chats), thin) then Rejected else CapacityExceeded))
    ensures err.None? ==> Wrote(old(store.chats), store.chats, thin, origin.Realtime?)
    ensures err.None? ==> events == NewEvents(old(store.chats), thin, origin)
  {
    ghost var pre := store.chats;
    StageMeans(pre, thin);
    if |thin| == 0 {
      CommittedNothing(pre, origin.Realtime?);
      assert pre.Keys + Touched(thin) == pre.Keys && |pre.Keys| == |pre|;
      return [], None;
    }
    var r := store.WriteBatch(thin, origin, origin.Realtime?);
    if Agree(pre, thin) { FitsUnlessOverfull(pre, thin); }
    if !r.Written? {
      return [], Some(StoreFailed(r));
    }
    return r.events, None;
  }

  /** A successful write, as the store performs it. */
  ghost predicate Wrote(before: Chats, after: Chats, thin: seq<Message>, countUnread: bool) {
    Stage(before, thin).Staged? && after == Committed(before, Stage(before, thin), thin, countUnread)
  }

  /** The events of a realtime batch. */
  ghost function NewEvents(chats: Chats, thin: seq<Message>, origin: Origin): seq<LiveEvent> {
    var s := Stage(chats, thin);
    if s.Staged? && origin.Realtime? then Events(chats, s.rows, thin, s.inserted) else []
  }

  /** How often a batch reads the clock: once per message and once per chat. */
  function Readings(batch: seq<Message>): nat { |batch| + |Touched(batch)| }

  /** Nothing stands in the way of a batch. */
  ghost predicate Clear(chats: Chats, maxChats: nat, limit: nat, batch: seq<Message>, clock: seq<int>, cancelAt: nat) {
    && Readings(batch) <= cancelAt && ClockGood(clock, 0, Readings(batch))
    && Agree(chats, batch) && FitsChats(chats, batch, maxChats)
    && !Overfull(chats, batch, limit) && !Overfull(chats, batch, MAX_SNAPSHOT_SUMMARIES)
  }

  /** The batch gets as far as its write, and the store accepts it. */
  ghost predicate Writable(chats: Chats, maxChats: nat, limit: nat, batch: seq<Message>, clock: seq<int>, cancelAt: nat) {
    && batch != [] && Decidable(chats, limit, batch, clock, cancelAt)
    && Agree(chats, batch) && FitsChats(chats, batch, maxChats) && !Overfull(chats, batch, MAX_SNAPSHOT_SUMMARIES)
  }

  /** What each error tells about the batch and the store before it. */
  ghost predicate Stops(err: BatchError, chats: Chats, maxChats: nat, limit: nat, batch: seq<Message>, clock: seq<int>, cancelAt: nat) {
    match err
    case Cancelled => cancelAt < Readings(batch)
    case InvalidClock => !ClockGood(clock, 0, Readings(batch))
    case SnapshotTooLarge => Overfull(chats, batch, limit)
    case StoreFailed(Rejected) => !Agree(chats, batch)
    case StoreFailed(CapacityExceeded) => !FitsChats(chats, batch, maxChats) || Overfull(chats, batch, MAX_SNAPSHOT_SUMMARIES)
    case StoreFailed(Written(_)) => false
  }

  /** What a batch leaves behind: nothing, or its rows with some touched chats pruned. */
  ghost predicate Leaves(policy: Policy, pre: Chats, post: Chats, thin: seq<Message>, countUnread: bool, written: bool,
                         cutoffs: map<nat, int>)
  {
    if written then Midway(policy, pre, post, thin, countUnread, cutoffs) else post == pre && cutoffs == map[]
  }

  lemma {:induction false} ListSize(list: seq<nat>)
    requires forall i, j :: 0 <= i < j < |list| ==> list[i] != list[j]
    ensures |Ids(list)| == |list|
  {
    if list != [] {
      var n := |list| - 1;
      ListSize(list[..n]);
      IdsNext(list, n);
      assert list[..n+1] == list;
    }
  }

  lemma UndecidedIsUnwritten(chats: Chats, maxChats: nat, limit: nat, batch: seq<Message>, clock: seq<int>, cancelAt: nat)
    requires !Decidable(chats, limit, batch, clock, cancelAt)
    ensures !Writable(chats, maxChats, limit, batch, clock, cancelAt)
  {
  }

  lemma DecidingStops(err: BatchError, chats: Chats, maxChats: nat, limit: nat, batch: seq<Message>, clock: seq<int>, cancelAt: nat)
    requires StopsDeciding(err, chats, limit, batch, clock, cancelAt)
    ensures Stops(err, chats, maxChats, limit, batch, clock, cancelAt)
  {
  }

  /** An error of the prunes, told of the store before the batch. */
  lemma PruningStops(err: BatchError, pre: Chats, mid: Chats, maxChats: nat, limit: nat, thin: seq<Message>, batch: seq<Message>,
                     countUnread: bool, list: seq<nat>, clock: seq<int>, cancelAt: nat)
    requires Thinned(thin, batch) && Wrote(pre, mid, thin, countUnread) && ListsChats(list, batch)
    requires |batch| <= |clock| && |batch| <= cancelAt
    requires StopsPruning(err, mid, limit, list, clock[|batch|..], cancelAt - |batch|)
    ensures Stops(err, pre, maxChats, limit, batch, clock, cancelAt)
  {
    ListSize(list);
    if err.SnapshotTooLarge? {
      var c :| c in list && |RowsOf(mid, c)| > limit;
      assert c in Ids(list);
      CommittedRows(pre, thin, countUnread, c);
      WrittenSize(pre, thin, c);
      ThinnedFresh(pre, thin, batch, c);
    } else if err.InvalidClock? {
      var i :| 0 <= i < |list| && i < |clock[|batch|..]| && clock[|batch|..][i] == 0;
      assert clock[|batch| + i] == 0;
    }
  }

  lemma PrunedAllClear(policy: Policy, pre: Chats, mid: Chats, now: Chats, maxChats: nat, limit: nat, thin: seq<Message>,
                       batch: seq<Message>, countUnread: bool, list: seq<nat>, clock: seq<int>, cancelAt: nat, cutoffs: map<nat, int>)
    requires Thinned(thin, batch) && Wrote(pre, mid, thin, countUnread) && ListsChats(list, batch)
    requires Agree(pre, batch) && FitsChats(pre, batch, maxChats) && !Overfull(pre, batch, MAX_SNAPSHOT_SUMMARIES)
    requires |batch| + |list| <= |clock| && |batch| + |list| <= cancelAt && ClockGood(clock, 0, |batch|)
    requires PrunedUpTo(policy, mid, now, list, clock[|batch|..], limit, |list|, cutoffs)
    ensures Clear(pre, maxChats, limit, batch, clock, cancelAt)
  {
    ListSize(list);
    forall i | |batch| <= i < |batch| + |list| ensures clock[i] != 0 {
      assert clock[|batch|..][i - |batch|] != 0;
    }
    forall c | c in Touched(batch) ensures |RowsOf(pre, c)| + |FreshIds(pre, batch, c)| <= limit {
      assert c in Ids(list);
      var j :| 0 <= j < |list| && list[j] == c;
      CommittedRows(pre, thin, countUnread, c);
      WrittenSize(pre, thin, c);
      ThinnedFresh(pre, thin, batch, c);
    }
  }

  /** An error and a clear way exclude each other. */
  lemma StopsUnlessClear(err: BatchError, chats: Chats, maxChats: nat, limit: nat, batch: seq<Message>, clock: seq<int>, cancelAt: nat)
    requires Stops(err, chats, maxChats, limit, batch, clock, cancelAt)
    ensures !Clear(chats, maxChats, limit, batch, clock, cancelAt)
  {
  }

  lemma ThinnedIsValid(thin: seq<Message>, batch: seq<Message>)
    requires Thinned(thin, batch) && forall m :: m in batch ==> m.Valid()
    ensures forall m :: m in thin ==> m.Valid()
  {
    forall m | m in thin ensures m.Valid() {
      var i :| 0 <= i < |thin| && thin[i] == m;
      assert batch[i] in batch;
    }
  }

  lemma ThinnedAgrees(chats: Chats, thin: seq<Message>, batch: seq<Message>)
    requires Thinned(thin, batch)
    ensures Agree(chats, thin) <==> Agree(chats, batch)
  {
    ThinnedCovers(thin, batch);
    if Agree(chats, thin) { CoveredAgrees(chats, thin, batch); }
    if Agree(chats, batch) { CoveredAgrees(chats, batch, thin); }
  }

  /** The messages were decided before the chats were pruned. */
  predicate ClockRead(policy: Policy, clock: seq<int>, n: nat, cutoffs: map<nat, int>) {
    && n <= |clock| && ClockGood(clock, 0, n)
    && forall c :: c in cutoffs ==> exists i :: n <= i < |clock| && cutoffs[c] == policy.Cutoff(clock[i])
  }

  lemma LaterClock(policy: Policy, clock: seq<int>, n: nat, m: nat, cutoffs: map<nat, int>)
    requires n + m <= |clock| && ClockGood(clock, 0, n) && CutoffsRead(policy, clock[n..], m, cutoffs)
    ensures ClockRead(policy, clock, n, cutoffs)
  {
    forall c | c in cutoffs ensures exists i :: n <= i < |clock| && cutoffs[c] == policy.Cutoff(clock[i]) {
      var i :| 0 <= i < m && cutoffs[c] == policy.Cutoff(clock[n..][i]);
      assert cutoffs[c] == policy.Cutoff(clock[n + i]);
    }
  }

  /** The listed chats are all there after the write. */
  lemma ListedAreStored(list: seq<nat>, thin: seq<Message>, batch: seq<Message>, pre: Chats, mid: Chats, countUnread: bool)
    requires ListsChats(list, batch) && Thinned(thin, batch) && Wrote(pre, mid, thin, countUnread)
    ensures (forall c :: c in list ==> c in mid) && |list| <= |batch|
    ensures forall i, j :: 0 <= i < j < |list| ==> list[i] != list[j]
  {
    ThinnedTouched(thin, batch);
    forall c | c in list ensures c in mid {
      assert c in Ids(list);
    }
  }

  /** What the prunes leave, told of the store before the batch. */
  lemma PrunedLeaves(policy: Policy, pre: Chats, mid: Chats, now: Chats, thin: seq<Message>, batch: seq<Message>,
                     countUnread: bool, list: seq<nat>, clock: seq<int>, limit: nat, done: nat, cutoffs: map<nat, int>)
    requires ListsChats(list, batch) && Thinned(thin, batch) && Wrote(pre, mid, thin, countUnread)
    requires done <= |list| <= |clock| && PrunedUpTo(policy, mid, now, list, clock, limit, done, cutoffs)
    ensures Leaves(policy, pre, now, thin, countUnread, true, cutoffs)
    ensures done == |list| ==> BatchStep(policy, pre, now, thin, countUnread, cutoffs)
  {
    ThinnedTouched(thin, batch);
    IdsOfFront(list, done);
    hide PrunedAt, Committed, CutoffsRead, ClockGood, Thinned, Ids;
  }

  lemma IdsOfFront(list: seq<nat>, n: nat)
    requires n <= |list|
    ensures Ids(list[..n]) <= Ids(list) && (n == |list| ==> Ids(list[..n]) == Ids(list))
  {
    if n == |list| { assert list[..n] == list; }
  }

  /** How a batch ends. It succeeds exactly when nothing stands in its way, and each error
      tells what did. The store keeps the rows exactly when the batch gets to a write that
      the store accepts; a failure after that leaves the new rows with some of the touched
      chats pruned, any other failure leaves the store as it was. */
  ghost predicate BatchEnds(policy: Policy, pre: Chats, post: Chats, maxChats: nat, limit: nat, thin: seq<Message>, batch: seq<Message>,
                       origin: Origin, clock: seq<int>, cancelAt: nat, o: BatchOutcome, cutoffs: map<nat, int>)
  {
    && (o.err.None? <==> Clear(pre, maxChats, limit, batch, clock, cancelAt))
    && (o.err.Some? ==> Stops(o.err.value, pre, maxChats, limit, batch, clock, cancelAt))
    && Leaves(policy, pre, post, thin, origin.Realtime?, o.writeSucceeded, cutoffs)
    && o.events == (if o.writeSucceeded then NewEvents(pre, thin, origin) else [])
    && (o.err.None? ==> BatchStep(policy, pre, post, thin, origin.Realtime?, cutoffs))
    && (o.writeSucceeded <==> Writable(pre, maxChats, limit, batch, clock, cancelAt))
    && o.retained == (if o.writeSucceeded then |batch| else 0)
    && (o.writeSucceeded ==> |cutoffs| <= cancelAt - |batch|)
    && (o.err.None? || o.writeSucceeded ==> ClockRead(policy, clock, |batch|, cutoffs))
  }

  /** A refused write changes nothing. */
  lemma RefusedIsDone(policy: Policy, pre: Chats, maxChats: nat, limit: nat, thin: seq<Message>, batch: seq<Message>,
                      origin: Origin, clock: seq<int>, cancelAt: nat, err: BatchError)
    requires Stops(err, pre, maxChats, limit, batch, clock, cancelAt) && !Writable(pre, maxChats, limit, batch, clock, cancelAt)
    ensures BatchEnds(policy, pre, pre, maxChats, limit, thin, batch, origin, clock, cancelAt,
                 BatchOutcome(0, 0, [], false, Some(err)), map[])
  {
    StopsUnlessClear(err, pre, maxChats, limit, batch, clock, cancelAt);
  }

  lemma RefusalStops(pre: Chats, maxChats: nat, limit: nat, thin: seq<Message>, batch: seq<Message>, clock: seq<int>, cancelAt: nat,
                     err: BatchError)
    requires Thinned(thin, batch)
    requires !(Agree(pre, thin) && FitsChats(pre, thin, maxChats) && !Overfull(pre, thin, MAX_SNAPSHOT_SUMMARIES))
    requires err == StoreFailed(if !Agree(pre, thin) then Rejected else CapacityExceeded)
    ensures Stops(err, pre, maxChats, limit, batch, clock, cancelAt) && !Writable(pre, maxChats, limit, batch, clock, cancelAt)
  {
    ThinnedTouched(thin, batch);
    ThinnedAgrees(pre, thin, batch);
    ThinnedOverfull(pre, thin, batch, MAX_SNAPSHOT_SUMMARIES);
    hide Thinned, Agree, Overfull, Touched;
  }

  lemma CutoffsCount(policy: Policy, mid: Chats, now: Chats, list: seq<nat>, clock: seq<int>, limit: nat, done: nat,
                     cutoffs: map<nat, int>)
    requires done <= |list| <= |clock| && PrunedUpTo(policy, mid, now, list, clock, limit, done, cutoffs)
    requires forall i, j :: 0 <= i < j < |list| ==> list[i] != list[j]
    ensures |cutoffs| == done
  {
    ListSize(list[..done]);
    assert |cutoffs| == |cutoffs.Keys|;
  }

  lemma ListLength(list: seq<nat>, batch: seq<Message>)
    requires ListsChats(list, batch)
    ensures |list| <= |batch|
  {
  }

  lemma FitsAlike(pre: Chats, maxChats: nat, thin: seq<Message>, batch: seq<Message>)
    requires Thinned(thin, batch)
    requires Agree(pre, thin) && FitsChats(pre, thin, maxChats) && !Overfull(pre, thin, MAX_SNAPSHOT_SUMMARIES)
    ensures Agree(pre, batch) && FitsChats(pre, batch, maxChats) && !Overfull(pre, batch, MAX_SNAPSHOT_SUMMARIES)
  {
    ThinnedTouched(thin, batch);
    ThinnedAgrees(pre, thin, batch);
    ThinnedOverfull(pre, thin, batch, MAX_SNAPSHOT_SUMMARIES);
    hide Thinned, Agree, Overfull, Touched;
  }

  /** The prunes ended, with or without an error. */
  lemma PrunedIsDone(policy: Policy, pre: Chats, mid: Chats, now: Chats, maxChats: nat, limit: nat, thin: seq<Message>,
                     batch: seq<Message>, origin: Origin, list: seq<nat>, clock: seq<int>, cancelAt: nat, done: nat,
                     cutoffs: map<nat, int>, o: BatchOutcome)
    requires Thinned(thin, batch) && Wrote(pre, mid, thin, origin.Realtime?) && ListsChats(list, batch)
    requires Agree(pre, thin) && FitsChats(pre, thin, maxChats) && !Overfull(pre, thin, MAX_SNAPSHOT_SUMMARIES)
    requires 2 * |batch| <= |clock| && |batch| <= cancelAt && ClockGood(clock, 0, |batch|) && done <= |list|
    requires PrunedUpTo(policy, mid, now, list, clock[|batch|..], limit, done, cutoffs)
    requires o.err.None? ==> done == |list| <= cancelAt - |batch|
    requires o.err.Some? ==> StopsPruning(o.err.value, mid, limit, list, clock[|batch|..], cancelAt - |batch|)
    requires batch != [] && o.writeSucceeded && o.retained == |batch| && o.events == NewEvents(pre, thin, origin)
    requires Decidable(pre, limit, batch, clock, cancelAt) && done <= cancelAt - |batch|
    ensures BatchEnds(policy, pre, now, maxChats, limit, thin, batch, origin, clock, cancelAt, o, cutoffs)
  {
    FitsAlike(pre, maxChats, thin, batch);
    ListLength(list, batch);
    CutoffsCount(policy, mid, now, list, clock[|batch|..], limit, done, cutoffs);
    assert CutoffsRead(policy, clock[|batch|..], done, cutoffs);
    LaterClock(policy, clock, |batch|, done, cutoffs);
    hide Thinned, Agree, Overfull, ListsChats, PrunedUpTo, StopsPruning, Clear, Stops, Leaves, BatchStep, ClockRead, Wrote;
    PrunedLeaves(policy, pre, mid, now, thin, batch, origin.Realtime?, list, clock[|batch|..], limit, done, cutoffs);
    if o.err.Some? {
      PruningStops(o.err.value, pre, mid, maxChats, limit, thin, batch, origin.Realtime?, list, clock, cancelAt);
      StopsUnlessClear(o.err.value, pre, maxChats, limit, batch, clock, cancelAt);
    } else {
      PrunedAllClear(policy, pre, mid, now, maxChats, limit, thin, batch, origin.Realtime?, list, clock, cancelAt, cutoffs);
    }
  }

  /** An empty batch changes nothing and cannot fail any more. */
  lemma EmptyIsDone(policy: Policy, pre: Chats, maxChats: nat, limit: nat, origin: Origin, clock: seq<int>, cancelAt: nat)
    requires |pre| <= maxChats
    ensures BatchEnds(policy, pre, pre, maxChats, limit, [], [], origin, clock, cancelAt, BatchOutcome(0, 0, [], false, None), map[])
  {
    hide Clear, BatchStep, Leaves, Writable, ClockRead, Stops;
    EmptyIsClear(pre, maxChats, limit, clock, cancelAt);
    EmptyStep(policy, pre, origin.Realtime?);
    EmptyLeaves(policy, pre, maxChats, limit, origin.Realtime?, clock, cancelAt);
  }

  lemma EmptyLeaves(policy: Policy, pre: Chats, maxChats: nat, limit: nat, countUnread: bool, clock: seq<int>, cancelAt: nat)
    ensures Leaves(policy, pre, pre, [], countUnread, false, map[]) && ClockRead(policy, clock, 0, map[])
    ensures !Writable(pre, maxChats, limit, [], clock, cancelAt)
  {
  }

  lemma EmptyIsClear(pre: Chats, maxChats: nat, limit: nat, clock: seq<int>, cancelAt: nat)
    requires |pre| <= maxChats
    ensures Clear(pre, maxChats, limit, [], clock, cancelAt)
  {
    assert Touched([]) == {};
    assert pre.Keys + Touched([]) == pre.Keys && |pre.Keys| == |pre|;
  }

  lemma EmptyStep(policy: Policy, pre: Chats, countUnread: bool)
    ensures BatchStep(policy, pre, pre, [], countUnread, map[])
  {
    assert Touched([]) == {};
    CommittedNothing(pre, countUnread);
  }

  method WriteAndPrune(store: Memory, policy: Policy, snapshotLimit: nat, thin: seq<Message>, batch: seq<Message>, origin: Origin,
                       chats: seq<nat>, clock: seq<int>, cancelAt: nat)
    returns (o: BatchOutcome, ghost cutoffs: map<nat, int>)
    requires store.Valid() && policy.Valid() && |batch| <= MAX_WRITE_BATCH && (forall m :: m in batch ==> m.Valid())
    requires Thinned(thin, batch) && ListsChats(chats, batch)
    requires 2 * |batch| <= |clock| && Decidable(store.chats, snapshotLimit, batch, clock, cancelAt)
    modifies store
    ensures store.Valid()
    ensures BatchEnds(policy, old(store.chats), store.chats, store.maxChats, snapshotLimit, thin, batch, origin, clock, cancelAt, o, cutoffs)
  {
    hide BatchEnds, Overfull, Wrote, PrunedUpTo, StopsPruning, Agree, ListsChats, Stops, WellFormed, RowsBounded, FitsChats;
    ghost var pre := store.chats;
    cutoffs := map[];
    ThinnedIsValid(thin, batch);
    assert |thin| == |batch|;
    if |batch| == 0 {
      EmptyIsDone(policy, pre, store.maxChats, snapshotLimit, origin, clock, cancelAt);
      o := BatchOutcome(0, 0, [], false, None);
      return;
    }
    var events, err := WriteRetained(store, thin, origin);
    if err.Some? {
      RefusalStops(pre, store.maxChats, snapshotLimit, thin, batch, clock, cancelAt, err.value);
      RefusedIsDone(policy, pre, store.maxChats, snapshotLimit, thin, batch, origin, clock, cancelAt, err.value);
      o := BatchOutcome(0, 0, [], false, err);
      return;
    }
    ghost var mid := store.chats;
    ListedAreStored(chats, thin, batch, pre, mid, origin.Realtime?);
    ghost var done;
    err, done, cutoffs := PruneChats(store, policy, snapshotLimit, chats, clock[|batch|..], cancelAt - |batch|);
    o := BatchOutcome(|thin|, 0, events, true, err);
    PrunedIsDone(policy, pre, mid, store.chats, store.maxChats, snapshotLimit, thin, batch, origin, chats, clock, cancelAt, done, cutoffs, o);
  }

  /** The bodies a batch leaves are those of the early rule, whether it ended or stopped. */
  lemma BatchBodies(policy: Policy, pre: Chats, post: Chats, batch: seq<Message>, clock: seq<int>, usage: nat, origin: Origin,
                    cutoffs: map<nat, int>)
    requires policy.Valid() && WellFormed(pre) && |batch| <= |clock| && (forall m :: m in batch ==> m.Valid())
    requires forall i :: 0 <= i < |batch| ==> clock[i] != 0
    requires Midway(policy, pre, post, Demoted(policy, pre, batch, clock, usage, origin), origin.Realtime?, cutoffs)
    ensures BodiesTold(policy, pre, post, batch, clock, usage, origin, cutoffs)
  {
    forall k: Key
      ensures HasBody(post, k) ==> HasBody(pre, k) || Brings(policy, pre, batch, clock, usage, origin, k)
      ensures k.chat !in cutoffs ==> (HasBody(post, k) <==> HasBody(pre, k) || Brings(policy, pre, batch, clock, usage, origin, k))
    {
      hide *;
      var thin := Demoted(policy, pre, batch, clock, usage, origin);
      MidwayStages(policy, pre, post, thin, origin.Realtime?, cutoffs);
      WrittenBodies(policy, pre, batch, clock, usage, origin, k);
      MidwayBody(policy, pre, post, thin, origin.Realtime?, cutoffs, k);
    }
  }

  lemma MidwayStages(policy: Policy, pre: Chats, post: Chats, thin: seq<Message>, countUnread: bool, cutoffs: map<nat, int>)
    requires Midway(policy, pre, post, thin, countUnread, cutoffs)
    ensures Stage(pre, thin).Staged?
  {
  }

  /** A body after the prunes was one after the write, and where no prune was it is one. */
  lemma MidwayBody(policy: Policy, pre: Chats, post: Chats, thin: seq<Message>, countUnread: bool, cutoffs: map<nat, int>, k: Key)
    requires Midway(policy, pre, post, thin, countUnread, cutoffs)
    ensures var rows := Written(pre, thin, k.chat);
      && (HasBody(post, k) ==> k.id in rows && rows[k.id].bodyRetained && StoredAt(post, k) == Some(rows[k.id]))
      && (k.chat !in cutoffs && k.id in rows && rows[k.id].bodyRetained ==> HasBody(post, k))
  {
    hide *;
    MidwayStages(policy, pre, post, thin, countUnread, cutoffs);
    MidwayRows(policy, pre, post, thin, countUnread, cutoffs, k.chat);
    var rows := Written(pre, thin, k.chat);
    StoredMeans(post, k);
    BodyMeans(rows, k.id);
    if k.chat in cutoffs { SurvivorHasBody(rows, cutoffs[k.chat], policy.messagesPerChat, k.id); }
  }

  lemma StoredMeans(chats: Chats, k: Key)
    ensures var rows := RowsOf(chats, k.chat);
      && StoredAt(chats, k) == (if k.id in rows then Some(rows[k.id]) else None)
      && (HasBody(chats, k) <==> k.id in rows && rows[k.id].bodyRetained)
  {
  }

  /** History over the cache budget brings no body: a chat it pruned holds the newest
      non-aged bodies of its old rows, any other chat its old bodies. */
  ghost predicate Sheds(policy: Policy, pre: Chats, post: Chats, cutoffs: map<nat, int>) {
    && (forall c :: c in cutoffs ==> PrunedAlone(policy, pre, post, cutoffs, c))
    && (forall k: Key :: BodyOld(pre, post, cutoffs, k))
  }

  predicate PrunedAlone(policy: Policy, pre: Chats, post: Chats, cutoffs: map<nat, int>, c: nat)
    requires c in cutoffs
  {
    RowsOf(post, c) == Survivors(RowsOf(pre, c), cutoffs[c], policy.messagesPerChat)
  }

  predicate BodyOld(pre: Chats, post: Chats, cutoffs: map<nat, int>, k: Key) {
    && (HasBody(post, k) ==> HasBody(pre, k) && StoredAt(post, k) == StoredAt(pre, k))
    && (k.chat !in cutoffs && HasBody(pre, k) ==> HasBody(post, k))
  }

  lemma ShedChat(policy: Policy, pre: Chats, post: Chats, thin: seq<Message>, cutoffs: map<nat, int>, c: nat)
    requires WellFormed(pre) && Midway(policy, pre, post, thin, false, cutoffs) && (forall m :: m in thin ==> !m.bodyRetained)
    requires c in cutoffs
    ensures PrunedAlone(policy, pre, post, cutoffs, c)
  {
    hide Midway, Stage, Written, Survivors, WellFormed;
    MidwayStages(policy, pre, post, thin, false, cutoffs);
    MidwayRows(policy, pre, post, thin, false, cutoffs, c);
    BodilessWrite(pre, thin, c, cutoffs[c], policy.messagesPerChat);
  }

  lemma ShedBody(policy: Policy, pre: Chats, post: Chats, thin: seq<Message>, cutoffs: map<nat, int>, k: Key)
    requires WellFormed(pre) && Midway(policy, pre, post, thin, false, cutoffs) && forall m :: m in thin ==> !m.bodyRetained
    ensures BodyOld(pre, post, cutoffs, k)
  {
    MidwayBody(policy, pre, post, thin, false, cutoffs, k);
    BodilessRow(pre, thin, k.chat, k.id);
    hide Midway, Written, Stage, WellFormed;
  }

  lemma HistorySheds(policy: Policy, pre: Chats, post: Chats, batch: seq<Message>, clock: seq<int>, usage: nat, cutoffs: map<nat, int>)
    requires policy.Valid() && WellFormed(pre) && |batch| <= |clock| && usage >= policy.cacheBytes
    requires Midway(policy, pre, post, Demoted(policy, pre, batch, clock, usage, History), false, cutoffs)
    ensures Sheds(policy, pre, post, cutoffs)
  {
    var thin := Demoted(policy, pre, batch, clock, usage, History);
    ShedRows(policy, pre, batch, clock, usage);
    hide *;
    ThinSheds(policy, pre, post, thin, cutoffs);
  }

  lemma ThinSheds(policy: Policy, pre: Chats, post: Chats, thin: seq<Message>, cutoffs: map<nat, int>)
    requires WellFormed(pre) && Midway(policy, pre, post, thin, false, cutoffs) && forall m :: m in thin ==> !m.bodyRetained
    ensures Sheds(policy, pre, post, cutoffs)
  {
    hide *;
    forall c | c in cutoffs ensures PrunedAlone(policy, pre, post, cutoffs, c) {
      ShedChat(policy, pre, post, thin, cutoffs, c);
    }
    forall k: Key ensures BodyOld(pre, post, cutoffs, k) {
      ShedBody(policy, pre, post, thin, cutoffs, k);
    }
    ShedsIf(policy, pre, post, cutoffs);
  }

  lemma ShedsIf(policy: Policy, pre: Chats, post: Chats, cutoffs: map<nat, int>)
    requires forall c :: c in cutoffs ==> PrunedAlone(policy, pre, post, cutoffs, c)
    requires forall k: Key :: BodyOld(pre, post, cutoffs, k)
    ensures Sheds(policy, pre, post, cutoffs)
  {
  }

  /** What a batch that was written leaves of bodies, whether it ended or stopped. */
  lemma BatchTells(policy: Policy, pre: Chats, post: Chats, maxChats: nat, limit: nat, batch: seq<Message>, origin: Origin,
                   clock: seq<int>, usage: nat, cancelAt: nat, o: BatchOutcome, cutoffs: map<nat, int>)
    requires policy.Valid() && WellFormed(pre) && |batch| <= |clock| && (forall m :: m in batch ==> m.Valid())
    requires BatchEnds(policy, pre, post, maxChats, limit, Demoted(policy, pre, batch, clock, usage, origin), batch, origin, clock,
                       cancelAt, o, cutoffs)
    ensures o.writeSucceeded ==> BodiesTold(policy, pre, post, batch, clock, usage, origin, cutoffs)
    ensures o.writeSucceeded && origin.History? && usage >= policy.cacheBytes ==> Sheds(policy, pre, post, cutoffs)
  {
    hide Clear, Stops, Midway, WellFormed, Demoted, Sheds, BodiesTold, BatchStep, ClockRead, NewEvents, Agree, Overfull, FitsChats;
    if o.writeSucceeded {
      assert forall i :: 0 <= i < |batch| ==> clock[i] != 0;
      BatchBodies(policy, pre, post, batch, clock, usage, origin, cutoffs);
      if origin.History? && usage >= policy.cacheBytes {
        HistorySheds(policy, pre, post, batch, clock, usage, cutoffs);
      }
    }
  }

  // ---- what a message without its body leaves

  predicate Bare(m: Message) { !m.bodyRetained ==> m.text == 0 && m.quote == 0 }

  /** No row without its body has text or a quote. */
  ghost predicate BareStore(chats: Chats) { forall k: Key :: BareAt(StoredAt(chats, k)) }

  predicate BareAt(row: Option<Message>) { row.Some? ==> Bare(row.value) }

  lemma DemotedIsBare(policy: Policy, chats: Chats, batch: seq<Message>, clock: seq<int>, usage: nat, origin: Origin)
    requires |batch| <= |clock| && forall m :: m in batch ==> Bare(m)
    ensures forall m :: m in Demoted(policy, chats, batch, clock, usage, origin) ==> Bare(m)
  {
    var thin := Demoted(policy, chats, batch, clock, usage, origin);
    forall m | m in thin ensures Bare(m) {
      var i :| 0 <= i < |thin| && thin[i] == m;
      assert batch[i] in batch;
    }
  }

  lemma {:induction false} FoldBare(prior: Option<Message>, batch: seq<Message>, k: Key)
    requires BareAt(prior) && forall m :: m in batch ==> Bare(m)
    ensures BareAt(Fold(prior, batch, k))
  {
    if batch != [] {
      var p, m := batch[..|batch|-1], batch[|batch|-1];
      assert m in batch && forall x :: x in p ==> x in batch;
      FoldBare(prior, p, k);
    }
  }

  lemma WrittenBare(chats: Chats, thin: seq<Message>, k: Key)
    requires WellFormed(chats) && Stage(chats, thin).Staged? && BareAt(StoredAt(chats, k)) && forall m :: m in thin ==> Bare(m)
    ensures k.id in Written(chats, thin, k.chat) ==> Bare(Written(chats, thin, k.chat)[k.id])
  {
    WrittenRow(chats, thin, k.chat, k.id);
    FoldBare(StoredAt(chats, k), thin, k);
    hide Written, Fold, Stage, WellFormed;
  }

  lemma MidwayBare(policy: Policy, pre: Chats, post: Chats, thin: seq<Message>, countUnread: bool, cutoffs: map<nat, int>, k: Key)
    requires WellFormed(pre) && Midway(policy, pre, post, thin, countUnread, cutoffs)
    requires BareAt(StoredAt(pre, k)) && forall m :: m in thin ==> Bare(m)
    ensures BareAt(StoredAt(post, k))
  {
    MidwayStages(policy, pre, post, thin, countUnread, cutoffs);
    MidwayRows(policy, pre, post, thin, countUnread, cutoffs, k.chat);
    hide Midway, Stage, WellFormed, Bare;
    WrittenBare(pre, thin, k);
    if k.chat in cutoffs {
      SurvivorHasBody(Written(pre, thin, k.chat), cutoffs[k.chat], policy.messagesPerChat, k.id);
    }
  }

  /** What a batch loses of a message it loses entirely: rows without bodies never keep
      text or quotes. */
  lemma BatchStaysBare(policy: Policy, pre: Chats, post: Chats, maxChats: nat, limit: nat, batch: seq<Message>, origin: Origin,
                       clock: seq<int>, usage: nat, cancelAt: nat, o: BatchOutcome, cutoffs: map<nat, int>)
    requires WellFormed(pre) && |batch| <= |clock| && BareStore(pre) && forall m :: m in batch ==> Bare(m)
    requires BatchEnds(policy, pre, post, maxChats, limit, Demoted(policy, pre, batch, clock, usage, origin), batch, origin, clock,
                       cancelAt, o, cutoffs)
    ensures BareStore(post)
  {
    hide Clear, Stops, Midway, WellFormed, Demoted, BatchStep, ClockRead, NewEvents, Agree, Overfull, FitsChats, Bare, BareAt;
    var thin := Demoted(policy, pre, batch, clock, usage, origin);
    DemotedIsBare(policy, pre, batch, clock, usage, origin);
    if o.writeSucceeded {
      forall k: Key ensures BareAt(StoredAt(post, k)) {
        MidwayBare(policy, pre, post, thin, origin.Realtime?, cutoffs, k);
      }
    }
  }

  /** Decide, write, prune. The clock is read once per message and once per chat, and
      cancellation can strike before any of those reads. */
  method ApplyBoundedBatch(store: Memory, policy: Policy, snapshotLimit: nat, batch: seq<Message>, origin: Origin,
                           clock: seq<int>, usage: nat, cancelAt: nat)
    returns (o: BatchOutcome, ghost cutoffs: map<nat, int>)
    requires store.Valid() && policy.Valid() && |batch| <= MAX_WRITE_BATCH && (forall m :: m in batch ==> m.Valid())
    requires 2 * |batch| <= |clock|
    modifies store
    ensures store.Valid()
    ensures BatchEnds(policy, old(store.chats), store.chats, store.maxChats, snapshotLimit,
                      Demoted(policy, old(store.chats), batch, clock, usage, origin), batch, origin, clock, cancelAt, o, cutoffs)
    ensures o.writeSucceeded ==> BodiesTold(policy, old(store.chats), store.chats, batch, clock, usage, origin, cutoffs)
    ensures o.writeSucceeded && origin.History? && usage >= policy.cacheBytes ==> Sheds(policy, old(store.chats), store.chats, cutoffs)
    ensures BareStore(old(store.chats)) && (forall m :: m in batch ==> Bare(m)) ==> BareStore(store.chats)
  {
    ghost var pre := store.chats;
    cutoffs := map[];
    hide BatchEnds, Stops, Writable, Thinned, BodiesTold, Sheds, BareStore, Bare;
    var retained, chats, err := DecideBatch(store, policy, snapshotLimit, batch, origin, clock, usage, cancelAt);
    if err.Some? {
      DecidingStops(err.value, pre, store.maxChats, snapshotLimit, batch, clock, cancelAt);
      UndecidedIsUnwritten(pre, store.maxChats, snapshotLimit, batch, clock, cancelAt);
      RefusedIsDone(policy, pre, store.maxChats, snapshotLimit, Demoted(policy, pre, batch, clock, usage, origin), batch, origin,
                    clock, cancelAt, err.value);
      o := BatchOutcome(0, 0, [], false, err);
      return;
    }
    DemotedIsThinned(policy, pre, batch, clock, usage, origin);
    o, cutoffs := WriteAndPrune(store, policy, snapshotLimit, retained, batch, origin, chats, clock, cancelAt);
    BatchTells(policy, pre, store.chats, store.maxChats, snapshotLimit, batch, origin, clock, usage, cancelAt, o, cutoffs);
    if BareStore(pre) && forall m :: m in batch ==> Bare(m) {
      BatchStaysBare(policy, pre, store.chats, store.maxChats, snapshotLimit, batch, origin, clock, usage, cancelAt, o, cutoffs);
    }
  }

  /** For a successful realtime batch, or history below the cache limit, under a
      clock that never goes back, every touched chat holds exactly the newest
      non-aged bodies of its old rows and the whole batch; other chats keep their
      rows. */
  lemma SuccessfulBatchKeepsNewest(policy: Policy, pre: Chats, post: Chats, batch: seq<Message>, clock: seq<int>, usage: nat,
                                   origin: Origin, cutoffs: map<nat, int>, c: nat)
    requires policy.Valid() && WellFormed(pre) && (forall m :: m in batch ==> m.Valid()) && |batch| <= |clock|
    requires BatchStep(policy, pre, post, Demoted(policy, pre, batch, clock, usage, origin), origin.Realtime?, cutoffs)
    requires ClockRead(policy, clock, |batch|, cutoffs) && NonDecreasing(clock)
    requires origin.Realtime? || usage < policy.cacheBytes
    ensures Stage(pre, batch).Staged? && cutoffs.Keys == Touched(batch)
    ensures RowsOf(post, c) == if c in Touched(batch) then
              Survivors(Written(pre, batch, c), cutoffs[c], policy.messagesPerChat) else RowsOf(pre, c)
  {
    var thin := Demoted(policy, pre, batch, clock, usage, origin);
    DemotedIsThinned(policy, pre, batch, clock, usage, origin);
    ThinnedStages(pre, thin, batch);
    MidwayRows(policy, pre, post, thin, origin.Realtime?, cutoffs, c);
    if c in Touched(batch) {
      TouchedKeepsNewest(policy, pre, batch, clock, usage, origin, cutoffs, c);
    }
  }

  lemma TouchedKeepsNewest(policy: Policy, pre: Chats, batch: seq<Message>, clock: seq<int>, usage: nat,
                           origin: Origin, cutoffs: map<nat, int>, c: nat)
    requires policy.Valid() && WellFormed(pre) && (forall m :: m in batch ==> m.Valid()) && |batch| <= |clock|
    requires Stage(pre, batch).Staged? && Stage(pre, Demoted(policy, pre, batch, clock, usage, origin)).Staged?
    requires ClockRead(policy, clock, |batch|, cutoffs) && NonDecreasing(clock) && c in cutoffs && c in Touched(batch)
    requires origin.Realtime? || usage < policy.cacheBytes
    ensures Survivors(Written(pre, Demoted(policy, pre, batch, clock, usage, origin), c), cutoffs[c], policy.messagesPerChat)
         == Survivors(Written(pre, batch, c), cutoffs[c], policy.messagesPerChat)
  {
    EarlierCutoffs(policy, clock, |batch|, cutoffs, c);
    DecideWritePruneRefines(policy, pre, batch, clock, usage, origin, cutoffs[c], c);
  }

  lemma EarlierCutoffs(policy: Policy, clock: seq<int>, n: nat, cutoffs: map<nat, int>, c: nat)
    requires ClockRead(policy, clock, n, cutoffs) && NonDecreasing(clock) && c in cutoffs
    ensures forall i :: 0 <= i < n ==> clock[i] != 0 && policy.Cutoff(clock[i]) <= cutoffs[c]
  {
    var j :| n <= j < |clock| && cutoffs[c] == policy.Cutoff(clock[j]);
  }

  /** The rows of every chat after the write and the prunes so far. */
  lemma MidwayRows(policy: Policy, pre: Chats, post: Chats, thin: seq<Message>, countUnread: bool, cutoffs: map<nat, int>, c: nat)
    requires Midway(policy, pre, post, thin, countUnread, cutoffs)
    ensures RowsOf(post, c) == if c in cutoffs then
              Survivors(Written(pre, thin, c), cutoffs[c], policy.messagesPerChat) else Written(pre, thin, c)
    ensures c !in Touched(thin) ==> RowsOf(post, c) == RowsOf(pre, c)
  {
    CommittedRows(pre, thin, countUnread, c);
    var mid := Committed(pre, Stage(pre, thin), thin, countUnread);
    assert RowsOf(post, c) == if c in cutoffs then Survivors(mid[c].messages, cutoffs[c], policy.messagesPerChat)
                              else RowsOf(mid, c);
  }

  // ---- whole runs of the single writer

  /** A row's place in the newest-first order. */
  datatype Place = Place(sentAt: int, id: nat)

  type PruneLog = map<nat, set<Place>>

  function LogOf(log: PruneLog, c: nat): set<Place> { if c in log then log[c] else {} }

  function Places(rows: Rows): set<Place> { set id | id in rows :: Place(rows[id].sentAt, id) }

  /** The log of every row ever pruned, after one more batch. */
  ghost function Logged(log: PruneLog, policy: Policy, pre: Chats, thin: seq<Message>, cutoffs: map<nat, int>): PruneLog
    requires Stage(pre, thin).Staged?
  {
    map c | c in log.Keys + cutoffs.Keys ::
      LogOf(log, c) + if c in cutoffs then Places(Dropped(Written(pre, thin, c), cutoffs[c], policy.messagesPerChat)) else {}
  }

  /** The anchor is the oldest place in the log. */
  ghost predicate AnchorsOldest(anchor: Option<Anchor>, log: set<Place>) {
    match anchor
    case None => log == {}
    case Some(a) =>
      && Place(a.sentAt, a.id) in log
      && forall p :: p in log ==> a.sentAt < p.sentAt || (a.sentAt == p.sentAt && a.id <= p.id)
  }

  /** No chat exceeds the configured count by more than extra rows, and each anchor is
      the oldest place ever pruned. */
  ghost predicate Within(policy: Policy, chats: Chats, extra: nat, log: PruneLog) {
    && WellFormed(chats)
    && RowsAtMost(chats, policy.messagesPerChat + extra)
    && forall c :: AnchorsOldest(AnchorOf(chats, c), LogOf(log, c))
  }

  /** What holds between batches. */
  ghost predicate Settled(policy: Policy, chats: Chats, log: PruneLog) { Within(policy, chats, 0, log) }

  lemma SurvivorsSize(rows: Rows, cutoff: int, k: nat)
    ensures |Survivors(rows, cutoff, k)| <= k && |Survivors(rows, cutoff, k)| <= |rows|
  {
    var s, t := Survivors(rows, cutoff, k), F.Trim(F.LargerFirst, Bodies(rows, cutoff), k);
    var keys := set id | id in s.Keys :: F.Key(0, id);
    KeysSize(s.Keys, keys);
    F.SubsetSize(keys, t.Keys);
    F.TrimSize(F.LargerFirst, Bodies(rows, cutoff), k);
    assert |s| == |s.Keys| && |t| == |t.Keys| && |rows| == |rows.Keys|;
    F.SubsetSize(s.Keys, rows.Keys);
  }

  lemma AnchorFollows(before: Option<Anchor>, log: set<Place>, dropped: Rows, after: Option<Anchor>)
    requires KeyedById(dropped) && AnchorsOldest(before, log) && AnchorMoves(before, dropped, after)
    ensures AnchorsOldest(after, log + Places(dropped))
  {
    if dropped == map[] {
      assert log + Places(dropped) == log;
    } else {
      var m :| IsOldest(m, dropped) &&
           after == if before.None? || AnchorOlder(AnchorFor(m), before.value) then Some(AnchorFor(m)) else before;
      assert Place(m.sentAt, m.id) in Places(dropped);
      forall p | p in log + Places(dropped)
        ensures after.value.sentAt < p.sentAt || (after.value.sentAt == p.sentAt && after.value.id <= p.id)
      {
        if p in Places(dropped) {
          assert p.id == m.id || Newer(dropped[p.id], m);
        }
      }
    }
  }

  lemma WrittenKeyed(chats: Chats, batch: seq<Message>, c: nat)
    requires WellFormed(chats) && Stage(chats, batch).Staged?
    ensures KeyedById(Written(chats, batch, c))
  {
    forall id | id in Written(chats, batch, c) ensures Written(chats, batch, c)[id].id == id {
      WrittenRow(chats, batch, c, id);
    }
  }

  lemma PrunedAnchor(before: ChatState, after: ChatState, cutoff: int, k: nat, log: set<Place>)
    requires IsPruned(before, after, cutoff, k) && KeyedById(before.messages) && AnchorsOldest(before.anchor, log)
    ensures AnchorsOldest(after.anchor, log + Places(Dropped(before.messages, cutoff, k)))
  {
    AnchorFollows(before.anchor, log, Dropped(before.messages, cutoff, k), after.anchor);
  }

  lemma CommittedAnchor(chats: Chats, s: Staging, batch: seq<Message>, countUnread: bool, c: nat)
    requires s.Staged? && |s.inserted| == |batch|
    ensures AnchorOf(Committed(chats, s, batch, countUnread), c) == AnchorOf(chats, c)
  {
  }

  /** The state of a pruned chat between the write and its prune. */
  lemma StepMiddle(policy: Policy, pre: Chats, post: Chats, thin: seq<Message>, countUnread: bool,
                   cutoffs: map<nat, int>, c: nat) returns (mid: ChatState)
    requires Midway(policy, pre, post, thin, countUnread, cutoffs) && c in cutoffs
    ensures c in post && IsPruned(mid, post[c], cutoffs[c], policy.messagesPerChat)
    ensures mid.messages == Written(pre, thin, c) && mid.anchor == AnchorOf(pre, c)
  {
    var chats := Committed(pre, Stage(pre, thin), thin, countUnread);
    assert c in chats;
    mid := chats[c];
    CommittedRows(pre, thin, countUnread, c);
    CommittedAnchor(pre, Stage(pre, thin), thin, countUnread, c);
  }

  lemma StepElsewhere(policy: Policy, pre: Chats, post: Chats, thin: seq<Message>, countUnread: bool,
                      cutoffs: map<nat, int>, c: nat)
    requires Midway(policy, pre, post, thin, countUnread, cutoffs) && c !in cutoffs
    ensures AnchorOf(post, c) == AnchorOf(pre, c)
  {
    CommittedAnchor(pre, Stage(pre, thin), thin, countUnread, c);
  }

  lemma StepAnchors(policy: Policy, pre: Chats, post: Chats, thin: seq<Message>, countUnread: bool,
                    cutoffs: map<nat, int>, log: PruneLog, c: nat)
    requires WellFormed(pre) && Midway(policy, pre, post, thin, countUnread, cutoffs)
    requires AnchorsOldest(AnchorOf(pre, c), LogOf(log, c))
    ensures AnchorsOldest(AnchorOf(post, c), LogOf(Logged(log, policy, pre, thin, cutoffs), c))
  {
    if c in cutoffs {
      var mid := StepMiddle(policy, pre, post, thin, countUnread, cutoffs, c);
      WrittenKeyed(pre, thin, c);
      PrunedAnchor(mid, post[c], cutoffs[c], policy.messagesPerChat, LogOf(log, c));
    } else {
      StepElsewhere(policy, pre, post, thin, countUnread, cutoffs, c);
    }
  }

  /** Before its prune a chat holds its rows and the new identifiers, afterwards no more
      than the configured count. */
  lemma MidwaySize(policy: Policy, pre: Chats, post: Chats, thin: seq<Message>, countUnread: bool, cutoffs: map<nat, int>, c: nat)
    requires Midway(policy, pre, post, thin, countUnread, cutoffs)
    ensures |RowsOf(post, c)| <= |RowsOf(pre, c)| + |FreshIds(pre, thin, c)| <= |RowsOf(pre, c)| + |thin|
    ensures c in cutoffs ==> |RowsOf(post, c)| <= policy.messagesPerChat
    ensures c !in Touched(thin) ==> |RowsOf(post, c)| == |RowsOf(pre, c)|
  {
    MidwayRows(policy, pre, post, thin, countUnread, cutoffs, c);
    WrittenSize(pre, thin, c);
    FreshAtMost(pre, thin, c);
    if c in cutoffs { SurvivorsSize(Written(pre, thin, c), cutoffs[c], policy.messagesPerChat); }
  }

  lemma AnchorsStay(policy: Policy, pre: Chats, post: Chats, thin: seq<Message>, countUnread: bool,
                    cutoffs: map<nat, int>, log: PruneLog)
    requires WellFormed(pre) && Midway(policy, pre, post, thin, countUnread, cutoffs)
    requires forall c :: AnchorsOldest(AnchorOf(pre, c), LogOf(log, c))
    ensures forall c :: AnchorsOldest(AnchorOf(post, c), LogOf(Logged(log, policy, pre, thin, cutoffs), c))
  {
    forall c ensures AnchorsOldest(AnchorOf(post, c), LogOf(Logged(log, policy, pre, thin, cutoffs), c)) {
      StepAnchors(policy, pre, post, thin, countUnread, cutoffs, log, c);
    }
  }

  /** A batch that was written and then stopped keeps the anchors and exceeds the row bound
      by at most its own messages. */
  lemma StoppedBatchStaysWithin(policy: Policy, pre: Chats, post: Chats, thin: seq<Message>, countUnread: bool,
                                cutoffs: map<nat, int>, extra: nat, log: PruneLog)
    requires Within(policy, pre, extra, log) && WellFormed(post) && Midway(policy, pre, post, thin, countUnread, cutoffs)
    ensures Within(policy, post, extra + |thin|, Logged(log, policy, pre, thin, cutoffs))
  {
    forall c | c in post ensures |post[c].messages| <= policy.messagesPerChat + extra + |thin| {
      MidwaySize(policy, pre, post, thin, countUnread, cutoffs, c);
      assert post[c].messages == RowsOf(post, c) && |RowsOf(pre, c)| <= policy.messagesPerChat + extra;
    }
    AnchorsStay(policy, pre, post, thin, countUnread, cutoffs, log);
  }

  /** One chat after a successful batch. */
  lemma StepSize(policy: Policy, pre: Chats, post: Chats, thin: seq<Message>, countUnread: bool, cutoffs: map<nat, int>,
                 extra: nat, c: nat)
    requires RowsAtMost(pre, policy.messagesPerChat + extra) && BatchStep(policy, pre, post, thin, countUnread, cutoffs)
    ensures |RowsOf(post, c)| <= policy.messagesPerChat + extra
    ensures c in Touched(thin) ==> |RowsOf(post, c)| <= policy.messagesPerChat
    ensures |Written(pre, thin, c)| <= policy.messagesPerChat + extra + |thin|
  {
    MidwaySize(policy, pre, post, thin, countUnread, cutoffs, c);
    WrittenSize(pre, thin, c);
    assert |RowsOf(pre, c)| <= policy.messagesPerChat + extra;
  }

  /** Every successful batch keeps the row bound, brings the chats it touches back to the
      configured count, and before pruning exceeds the bound by at most its messages. */
  lemma BatchKeepsSizes(policy: Policy, pre: Chats, post: Chats, thin: seq<Message>, countUnread: bool,
                        cutoffs: map<nat, int>, extra: nat)
    requires RowsAtMost(pre, policy.messagesPerChat + extra) && BatchStep(policy, pre, post, thin, countUnread, cutoffs)
    ensures forall c :: |RowsOf(post, c)| <= policy.messagesPerChat + extra
    ensures forall c :: c in Touched(thin) ==> |RowsOf(post, c)| <= policy.messagesPerChat
    ensures forall c :: |Written(pre, thin, c)| <= policy.messagesPerChat + extra + |thin|
  {
    forall c ensures |RowsOf(post, c)| <= policy.messagesPerChat + extra {
      StepSize(policy, pre, post, thin, countUnread, cutoffs, extra, c);
    }
    forall c | c in Touched(thin) ensures |RowsOf(post, c)| <= policy.messagesPerChat {
      StepSize(policy, pre, post, thin, countUnread, cutoffs, extra, c);
    }
    forall c ensures |Written(pre, thin, c)| <= policy.messagesPerChat + extra + |thin| {
      StepSize(policy, pre, post, thin, countUnread, cutoffs, extra, c);
    }
  }

  /** Every successful batch keeps the row bound and the anchors. */
  lemma BatchStaysWithin(policy: Policy, pre: Chats, post: Chats, thin: seq<Message>, countUnread: bool,
                         cutoffs: map<nat, int>, extra: nat, log: PruneLog)
    requires Within(policy, pre, extra, log) && WellFormed(post) && BatchStep(policy, pre, post, thin, countUnread, cutoffs)
    ensures Within(policy, post, extra, Logged(log, policy, pre, thin, cutoffs))
  {
    BatchKeepsSizes(policy, pre, post, thin, countUnread, cutoffs, extra);
    RowsByChat(post, policy.messagesPerChat + extra);
    AnchorsStay(policy, pre, post, thin, countUnread, cutoffs, log);
  }

  lemma RowsByChat(chats: Chats, n: nat)
    requires forall c :: |RowsOf(chats, c)| <= n
    ensures RowsAtMost(chats, n)
  {
    assert forall c :: c in chats ==> chats[c].messages == RowsOf(chats, c);
  }

  lemma EmptyIsSettled(policy: Policy)
    ensures Settled(policy, map[], map[])
  {
  }

  // ---- row trouble

  /** The batch failed because a chat has too many rows: the snapshot limit is met, or the
      store refuses although the chats fit. */
  predicate RowTrouble(err: Option<BatchError>, chats: Chats, maxChats: nat, batch: seq<Message>) {
    || err == Some(SnapshotTooLarge)
    || (err == Some(StoreFailed(CapacityExceeded)) && FitsChats(chats, batch, maxChats))
  }

  /** Nothing but rows can stand in the way. */
  ghost predicate OtherwiseClear(chats: Chats, maxChats: nat, batch: seq<Message>, clock: seq<int>, cancelAt: nat) {
    && Readings(batch) <= cancelAt && ClockGood(clock, 0, Readings(batch))
    && Agree(chats, batch) && FitsChats(chats, batch, maxChats)
  }

  /** How a batch ended, as its contract tells. */
  ghost predicate Ended(err: Option<BatchError>, chats: Chats, maxChats: nat, limit: nat, batch: seq<Message>, clock: seq<int>,
                        cancelAt: nat)
  {
    && (err.None? <==> Clear(chats, maxChats, limit, batch, clock, cancelAt))
    && (err.Some? ==> Stops(err.value, chats, maxChats, limit, batch, clock, cancelAt))
  }

  /** For every store and batch: rows are the trouble exactly when some touched chat's rows
      and its new identifiers together pass the limit. */
  lemma RowTroubleExactly(err: Option<BatchError>, chats: Chats, maxChats: nat, limit: nat, batch: seq<Message>,
                          clock: seq<int>, cancelAt: nat)
    requires limit <= MAX_SNAPSHOT_SUMMARIES && Ended(err, chats, maxChats, limit, batch, clock, cancelAt)
    ensures RowTrouble(err, chats, maxChats, batch) ==> Overfull(chats, batch, limit)
    ensures OtherwiseClear(chats, maxChats, batch, clock, cancelAt) ==>
              (RowTrouble(err, chats, maxChats, batch) <==> Overfull(chats, batch, limit))
  {
    hide Overfull, Agree, ClockGood, FitsChats, Touched;
    if Overfull(chats, batch, MAX_SNAPSHOT_SUMMARIES) { OverfullEarlier(chats, batch, limit, MAX_SNAPSHOT_SUMMARIES); }
  }

  lemma OverfullEarlier(chats: Chats, batch: seq<Message>, limit: nat, higher: nat)
    requires limit <= higher && Overfull(chats, batch, higher)
    ensures Overfull(chats, batch, limit)
  {
  }

  /** A chat that exceeds the configured count by at most extra rows passes the limit only
      when extra and the batch together do. */
  lemma OverfullNeeds(policy: Policy, chats: Chats, extra: nat, log: PruneLog, batch: seq<Message>, limit: nat)
    requires Within(policy, chats, extra, log) && Overfull(chats, batch, limit)
    ensures policy.messagesPerChat + extra + |batch| > limit
  {
    var c :| c in Touched(batch) && |RowsOf(chats, c)| + |FreshIds(chats, batch, c)| > limit;
    FreshAtMost(chats, batch, c);
    assert |RowsOf(chats, c)| <= policy.messagesPerChat + extra;
  }
}
