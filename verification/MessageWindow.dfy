/** The in-memory message window of a chat: a bounded array in ascending order that
    live messages and older pages are inserted into. */
module MessageWindow {
  const COMPACT_CAPACITY: nat := 32
  const SELECTED_CAPACITY: nat := 256
  const OLDER_PAGE_SIZE: nat := 50

  /** Time 0 is Go's zero time; content stands for everything else on screen. */
  datatype Row = Row(id: nat, sentAt: nat, content: int)

  /** The order of the window. A message without a time goes after all others. */
  predicate Before(a: Row, b: Row) {
    if a.sentAt == 0 || b.sentAt == 0 then a.sentAt != 0 && b.sentAt == 0
    else a.sentAt < b.sentAt || (a.sentAt == b.sentAt && a.id < b.id)
  }

  predicate Timed(s: seq<Row>) { forall i :: 0 <= i < |s| ==> s[i].sentAt != 0 }

  predicate Ascending(s: seq<Row>) { forall i, j :: 0 <= i < j < |s| ==> Before(s[i], s[j]) }

  predicate HasId(s: seq<Row>, id: nat) { exists i :: 0 <= i < |s| && s[i].id == id }

  /** The newest n of a window. */
  function Last(s: seq<Row>, n: nat): (r: seq<Row>)
    ensures |r| == if |s| <= n then |s| else n
  {
    if |s| <= n then s else s[|s| - n..]
  }

  /** Where a message goes: in front of the first one it comes before. */
  function Position(s: seq<Row>, m: Row): (p: nat)
    ensures p <= |s| && (p < |s| ==> Before(m, s[p]))
    ensures forall i :: 0 <= i < p ==> !Before(m, s[i])
  {
    if s == [] || Before(m, s[0]) then 0 else 1 + Position(s[1..], m)
  }

  function Inserted(s: seq<Row>, m: Row): seq<Row> {
    s[..Position(s, m)] + [m] + s[Position(s, m)..]
  }

  /** One live message: duplicates are ignored, the window stays within its capacity. */
  function Deliver(s: seq<Row>, m: Row, capacity: nat): seq<Row> {
    if HasId(s, m.id) then s else Last(Inserted(s, m), capacity)
  }

  function DeliverAll(ms: seq<Row>, capacity: nat): seq<Row> {
    if ms == [] then [] else Deliver(DeliverAll(ms[..|ms|-1], capacity), ms[|ms|-1], capacity)
  }

  /** Reference: every message once, in order, without any limit. */
  function Everything(ms: seq<Row>): seq<Row> {
    if ms == [] then [] else
      var s := Everything(ms[..|ms|-1]);
      if HasId(s, ms[|ms|-1].id) then s else Inserted(s, ms[|ms|-1])
  }

  /** Deliveries of one message all look the same. */
  predicate Consistent(ms: seq<Row>) {
    forall i, j :: 0 <= i < |ms| && 0 <= j < |ms| && ms[i].id == ms[j].id ==> ms[i] == ms[j]
  }

  lemma InsertedMembers(s: seq<Row>, m: Row, r: Row)
    ensures r in Inserted(s, m) <==> r in s || r == m
  {
    assert s == s[..Position(s, m)] + s[Position(s, m)..];
  }

  lemma InsertedInOrder(s: seq<Row>, m: Row)
    requires Ascending(s) && Timed(s) && m.sentAt != 0 && !HasId(s, m.id)
    ensures Ascending(Inserted(s, m)) && Timed(Inserted(s, m))
  {
    var p, t := Position(s, m), Inserted(s, m);
    forall i, j | 0 <= i < j < |t| ensures Before(t[i], t[j]) {
      if i < p == j { assert !Before(m, s[i]) && s[i].id != m.id; }
      if i == p < j { assert Before(m, s[p]) && (j == p + 1 || Before(s[p], s[j-1])); }
    }
  }

  /** The reference list is ascending and holds exactly what was delivered. */
  lemma {:induction false} EverythingIs(ms: seq<Row>)
    requires Timed(ms) && Consistent(ms)
    ensures Ascending(Everything(ms)) && Timed(Everything(ms))
    ensures forall r :: r in Everything(ms) <==> r in ms
  {
    if ms != [] {
      var rest, m := ms[..|ms|-1], ms[|ms|-1];
      EverythingIs(rest);
      var s := Everything(rest);
      assert ms == rest + [m];
      if HasId(s, m.id) {
        var i :| 0 <= i < |s| && s[i].id == m.id;
        assert s[i] in ms;
      } else {
        InsertedInOrder(s, m);
        forall r ensures r in Everything(ms) <==> r in ms { InsertedMembers(s, m, r); }
      }
    }
  }

  lemma InsertPositions(s: seq<Row>, t: seq<Row>, m: Row, d: nat)
    requires d <= |s| && t == s[d..] && Ascending(s) && Timed(s) && m.sentAt != 0
    ensures Position(t, m) == if Position(s, m) < d then 0 else Position(s, m) - d
  {
    var p, q := Position(s, m), Position(t, m);
    if p < d {
      if d < |s| { assert Before(m, s[p]) && Before(s[p], s[d]); assert t[0] == s[d]; }
    } else {
      if p < |s| { assert t[p - d] == s[p]; }
      if q < |t| { assert t[q] == s[q + d]; }
    }
  }

  lemma HasIdSplit(s: seq<Row>, d: nat, id: nat)
    requires d <= |s|
    ensures HasId(s, id) <==> HasId(s[..d], id) || HasId(s[d..], id)
  {
    if HasId(s, id) {
      var i :| 0 <= i < |s| && s[i].id == id;
      if i < d { assert s[..d][i].id == id; } else { assert s[d..][i - d].id == id; }
    }
    if HasId(s[d..], id) {
      var i :| 0 <= i < |s[d..]| && s[d..][i].id == id;
      assert s[i + d].id == id;
    }
  }

  /** A message that fell out of the window does not come back. */
  lemma OldDuplicate(s: seq<Row>, m: Row, capacity: nat, i: nat)
    requires capacity > 0 && Ascending(s) && i < |s| - |Last(s, capacity)| && s[i] == m
    ensures Last(Inserted(Last(s, capacity), m), capacity) == Last(s, capacity)
  {
    var t := Last(s, capacity);
    var d := |s| - |t|;
    assert Before(s[i], s[d]) && t[0] == s[d];
    assert Position(t, m) == 0 && Inserted(t, m) == [m] + t;
  }

  lemma NewMessage(s: seq<Row>, m: Row, capacity: nat)
    requires capacity > 0 && Ascending(s) && Timed(s) && m.sentAt != 0
    ensures Last(Inserted(Last(s, capacity), m), capacity) == Last(Inserted(s, m), capacity)
  {
    if |s| > capacity {
      var d := |s| - capacity;
      var t := s[d..];
      assert Last(s, capacity) == t;
      InsertedInTail(s, m, d);
      assert Last(Inserted(t, m), capacity) == Inserted(t, m)[1..];
      assert Last(Inserted(s, m), capacity) == Inserted(s, m)[d+1..];
    }
  }

  /** Insertion into a tail is the tail of the insertion, or goes in front of it. */
  lemma InsertedInTail(s: seq<Row>, m: Row, d: nat)
    requires d <= |s| && Ascending(s) && Timed(s) && m.sentAt != 0
    ensures Inserted(s[d..], m)[1..] == Inserted(s, m)[d+1..]
  {
    var t, p := s[d..], Position(s, m);
    InsertPositions(s, t, m, d);
    if p >= d {
      assert Inserted(s, m)[d..] == Inserted(t, m);
      assert Inserted(s, m)[d+1..] == Inserted(s, m)[d..][1..];
    } else {
      assert Inserted(t, m) == [m] + t;
      assert Inserted(s, m)[d+1..] == t;
    }
  }

  /** Forgetting the oldest before a delivery never changes the newest. */
  lemma DeliverToLast(s: seq<Row>, m: Row, capacity: nat)
    requires capacity > 0 && Ascending(s) && Timed(s) && m.sentAt != 0
    requires forall i :: 0 <= i < |s| && s[i].id == m.id ==> s[i] == m
    ensures Deliver(Last(s, capacity), m, capacity) == Last(if HasId(s, m.id) then s else Inserted(s, m), capacity)
  {
    var t := Last(s, capacity);
    var d := |s| - |t|;
    if HasId(t, m.id) {
      var i :| 0 <= i < |t| && t[i].id == m.id;
      assert s[i + d].id == m.id;
    } else if HasId(s, m.id) {
      HasIdSplit(s, d, m.id);
      var i: nat :| i < d && s[..d][i].id == m.id;
      OldDuplicate(s, m, capacity, i);
    } else {
      NewMessage(s, m, capacity);
    }
  }

  /** After any deliveries the window is the newest of everything delivered. */
  lemma {:induction false} WindowIsNewest(ms: seq<Row>, capacity: nat)
    requires capacity > 0 && Timed(ms) && Consistent(ms)
    ensures DeliverAll(ms, capacity) == Last(Everything(ms), capacity)
  {
    if ms != [] {
      var rest, m := ms[..|ms|-1], ms[|ms|-1];
      WindowIsNewest(rest, capacity);
      EverythingIs(rest);
      var s := Everything(rest);
      forall i | 0 <= i < |s| && s[i].id == m.id ensures s[i] == m {
        assert s[i] in rest && m in ms;
      }
      DeliverToLast(s, m, capacity);
    }
  }

  lemma {:induction false} AscendingUnique(s: seq<Row>, t: seq<Row>)
    requires Ascending(s) && Ascending(t) && forall r :: r in s <==> r in t
    ensures s == t
    decreases |s|
  {
    assert |s| > 0 ==> s[0] in t;
    assert |t| > 0 ==> t[0] in s;
    if s != [] {
      SameFirst(s, t);
      forall r ensures r in s[1..] <==> r in t[1..] {
        TailMembers(s, r);
        TailMembers(t, r);
      }
      AscendingUnique(s[1..], t[1..]);
    }
  }

  lemma SameFirst(s: seq<Row>, t: seq<Row>)
    requires Ascending(s) && Ascending(t) && s != [] && t != [] && s[0] in t && t[0] in s
    ensures s[0] == t[0]
  {
    var i :| 0 <= i < |t| && t[i] == s[0];
    var j :| 0 <= j < |s| && s[j] == t[0];
  }

  lemma TailMembers(s: seq<Row>, r: Row)
    requires Ascending(s) && s != []
    ensures r in s[1..] <==> r in s && r != s[0]
  {
    assert s == [s[0]] + s[1..];
  }

  /** Two delivery orders of the same messages, repeated or not, show the same window. */
  lemma OrderDoesNotMatter(ms: seq<Row>, ns: seq<Row>, capacity: nat)
    requires capacity > 0 && Timed(ms) && Timed(ns) && Consistent(ms) && Consistent(ns)
    requires forall r :: r in ms <==> r in ns
    ensures DeliverAll(ms, capacity) == DeliverAll(ns, capacity)
  {
    WindowIsNewest(ms, capacity);
    WindowIsNewest(ns, capacity);
    EverythingIs(ms);
    EverythingIs(ns);
    AscendingUnique(Everything(ms), Everything(ns));
  }

  // ---- older pages

  /** The order in which a page is validated; the zero time comes first here. */
  predicate Older(a: Row, b: Row) { a.sentAt < b.sentAt || (a.sentAt == b.sentAt && a.id < b.id) }

  predicate DistinctIds(s: seq<Row>) { forall i, j :: 0 <= i < j < |s| ==> s[i].id != s[j].id }

  /** What validOlderPage accepts. */
  predicate ValidPage(page: seq<Row>, frontier: Row) {
    && (forall i :: 0 <= i < |page| ==> page[i].id != 0 && Older(page[i], frontier))
    && DistinctIds(page)
    && (forall i :: 0 < i < |page| && page[i-1].sentAt != 0 ==> !Older(page[i], page[i-1]))
  }

  /** The page goes in nearest first. */
  function AddPage(s: seq<Row>, page: seq<Row>, capacity: nat): seq<Row>
    decreases |page|
  {
    if page == [] then s else AddPage(Deliver(s, page[|page|-1], capacity), page[..|page|-1], capacity)
  }

  function Fresh(page: seq<Row>, s: seq<Row>): seq<Row> {
    if page == [] then [] else
      Fresh(page[..|page|-1], s) + if HasId(s, page[|page|-1].id) then [] else [page[|page|-1]]
  }

  /** How many messages of a page get into the window. */
  function Added(s: seq<Row>, page: seq<Row>, capacity: nat): nat
    decreases |page|
  {
    if page == [] then 0 else
      var t := Deliver(s, page[|page|-1], capacity);
      Added(t, page[..|page|-1], capacity) + if t == s then 0 else 1
  }

  /** Each message of the page is a duplicate, or has a time and goes in front. */
  predicate Joinable(page: seq<Row>, s: seq<Row>)
    requires s != []
  {
    && DistinctIds(page)
    && (forall i :: 0 <= i < |page| ==> HasId(s, page[i].id) || (page[i].sentAt != 0 && Before(page[i], s[0])))
    && (forall i, j :: 0 <= i < j < |page| && !HasId(s, page[i].id) && !HasId(s, page[j].id) ==> Before(page[i], page[j]))
  }

  lemma {:induction false} FreshOfLarger(page: seq<Row>, s: seq<Row>, m: Row)
    requires forall i :: 0 <= i < |page| ==> page[i].id != m.id
    ensures Fresh(page, [m] + s) == Fresh(page, s)
  {
    if page != [] {
      FreshOfLarger(page[..|page|-1], s, m);
      var x := page[|page|-1];
      if HasId(s, x.id) {
        var i :| 0 <= i < |s| && s[i].id == x.id;
        assert ([m] + s)[i+1].id == x.id;
      }
    }
  }

  lemma JoinableNext(page: seq<Row>, s: seq<Row>)
    requires s != [] && page != [] && Joinable(page, s) && !HasId(s, page[|page|-1].id)
    ensures Joinable(page[..|page|-1], [page[|page|-1]] + s)
  {
    var n, m := |page| - 1, page[|page|-1];
    var t := [m] + s;
    forall i | 0 <= i < n ensures HasId(s, page[i].id) <==> HasId(t, page[i].id) {
      if HasId(s, page[i].id) {
        var k :| 0 <= k < |s| && s[k].id == page[i].id;
        assert t[k+1].id == page[i].id;
      }
    }
  }

  lemma GoesInFront(s: seq<Row>, m: Row, capacity: nat)
    requires s != [] && |s| <= capacity && Before(m, s[0]) && !HasId(s, m.id)
    ensures Deliver(s, m, capacity) == if |s| == capacity then s else [m] + s
  {
    assert Position(s, m) == 0 && Inserted(s, m) == [m] + s;
  }

  lemma {:induction false} FullWindowStays(s: seq<Row>, page: seq<Row>)
    requires s != [] && Joinable(page, s)
    ensures AddPage(s, page, |s|) == s
    decreases |page|
  {
    if page != [] {
      var m := page[|page|-1];
      if !HasId(s, m.id) { GoesInFront(s, m, |s|); }
      FullWindowStays(s, page[..|page|-1]);
    }
  }

  lemma FreshInFront(page: seq<Row>, s: seq<Row>)
    requires page != [] && DistinctIds(page) && !HasId(s, page[|page|-1].id)
    ensures var m := page[|page|-1]; Fresh(page[..|page|-1], [m] + s) + ([m] + s) == Fresh(page, s) + s
  {
    FreshOfLarger(page[..|page|-1], s, page[|page|-1]);
  }

  lemma LastOfLonger(x: seq<Row>, s: seq<Row>)
    ensures Last(x + s, |s|) == s
  {
  }

  /** Nothing loaded is lost: the page's new messages go in front of the window,
      nearest first, as far as there is room. */
  lemma {:induction false} PageGoesInFront(s: seq<Row>, page: seq<Row>, capacity: nat)
    requires s != [] && |s| <= capacity && Joinable(page, s)
    ensures AddPage(s, page, capacity) == Last(Fresh(page, s) + s, capacity)
    decreases |page|
  {
    if |s| == capacity {
      FullWindowStays(s, page);
      LastOfLonger(Fresh(page, s), s);
    } else if page == [] {
      assert Fresh(page, s) + s == s;
    } else {
      var m, rest := page[|page|-1], page[..|page|-1];
      if HasId(s, m.id) {
        PageGoesInFront(s, rest, capacity);
        assert Fresh(page, s) == Fresh(rest, s);
      } else {
        GoesInFront(s, m, capacity);
        JoinableNext(page, s);
        PageGoesInFront([m] + s, rest, capacity);
        FreshInFront(page, s);
      }
    }
  }

  /** The count reported for a page that goes in front is what the window grew by: its new
      messages, as far as there was room. */
  lemma {:induction false} AddedIsGrowth(s: seq<Row>, page: seq<Row>, capacity: nat)
    requires s != [] && |s| <= capacity && Joinable(page, s)
    ensures Added(s, page, capacity) == |AddPage(s, page, capacity)| - |s|
    ensures |AddPage(s, page, capacity)| == if |Fresh(page, s)| + |s| <= capacity then |Fresh(page, s)| + |s| else capacity
    decreases |page|
  {
    PageGoesInFront(s, page, capacity);
    if page != [] {
      var m, rest := page[|page|-1], page[..|page|-1];
      if !HasId(s, m.id) { GoesInFront(s, m, capacity); }
      if Deliver(s, m, capacity) == s {
        AddedIsGrowth(s, rest, capacity);
      } else {
        JoinableNext(page, s);
        AddedIsGrowth([m] + s, rest, capacity);
      }
    }
  }

  lemma {:induction false} ValidPageAscends(page: seq<Row>, i: nat, j: nat)
    requires i < j < |page| && DistinctIds(page)
    requires forall k :: 0 < k < |page| && page[k-1].sentAt != 0 ==> !Older(page[k], page[k-1])
    requires page[i].sentAt != 0
    ensures Older(page[i], page[j])
    decreases j
  {
    if i + 1 < j { ValidPageAscends(page, i, j - 1); }
  }

  /** The page a caller must send for the window to grow in front: everything new
      in it has a time. */
  predicate TimedOrKnown(page: seq<Row>, s: seq<Row>) {
    forall i :: 0 <= i < |page| ==> page[i].sentAt != 0 || HasId(s, page[i].id)
  }

  lemma ValidPageJoins(s: seq<Row>, page: seq<Row>)
    requires s != [] && ValidPage(page, s[0]) && TimedOrKnown(page, s)
    ensures Joinable(page, s)
  {
    forall i, j | 0 <= i < j < |page| && !HasId(s, page[i].id) && !HasId(s, page[j].id)
      ensures Before(page[i], page[j])
    {
      ValidPageAscends(page, i, j);
    }
    forall i | 0 <= i < |page| && !HasId(s, page[i].id) ensures Before(page[i], s[0]) {
      assert Older(page[i], s[0]);
    }
  }

  /** The window after some insertions: its former last message is still there,
      at most `after` places from the end. */
  predicate Near(s: seq<Row>, l: Row, after: nat) {
    exists k :: 0 <= k < |s| && s[k] == l && |s| - 1 - k <= after
  }

  lemma DeliverNear(s: seq<Row>, m: Row, l: Row, after: nat, capacity: nat)
    requires |s| <= capacity && after + 1 < capacity && Near(s, l, after)
    ensures Near(Deliver(s, m, capacity), l, after + 1) && |Deliver(s, m, capacity)| <= capacity
  {
    var k :| 0 <= k < |s| && s[k] == l && |s| - 1 - k <= after;
    if !HasId(s, m.id) {
      var p, t := Position(s, m), Inserted(s, m);
      var kk := if k < p then k else k + 1;
      assert t[kk] == l;
      var u := Last(t, capacity);
      assert u[kk - (|t| - |u|)] == l;
    } else {
      assert Deliver(s, m, capacity)[k] == l;
    }
  }

  /** An untimed message goes behind everything. */
  lemma UntimedLast(s: seq<Row>, m: Row, capacity: nat)
    requires capacity > 0 && m.sentAt == 0 && !HasId(s, m.id)
    ensures var t := Deliver(s, m, capacity); t != [] && t[|t|-1] == m
  {
    assert Position(s, m) == |s|;
  }

  /** An untimed message at the end gives way only to another one. */
  lemma UntimedTail(s: seq<Row>, m: Row, l: Row, capacity: nat)
    requires capacity > 0 && l in s && s[|s|-1] != l && s[|s|-1].sentAt == 0
    ensures var t := Deliver(s, m, capacity); t != [] && t[|t|-1] != l && t[|t|-1].sentAt == 0
  {
    if !HasId(s, m.id) {
      assert m != l;
      if m.sentAt == 0 {
        UntimedLast(s, m, capacity);
      } else {
        assert Position(s, m) < |s|;
        var t := Inserted(s, m);
        assert t[|t|-1] == s[|s|-1];
      }
    }
  }

  /** Once something without a time stands at the end, it stays at the end. */
  lemma {:induction false} TailStays(s: seq<Row>, page: seq<Row>, l: Row, after: nat, capacity: nat)
    requires |s| <= capacity && after + |page| < capacity && Near(s, l, after)
    requires s[|s|-1] != l && s[|s|-1].sentAt == 0
    ensures var t := AddPage(s, page, capacity); t != [] && t[|t|-1] != l
    decreases |page|
  {
    if page != [] {
      DeliverNear(s, page[|page|-1], l, after, capacity);
      UntimedTail(s, page[|page|-1], l, capacity);
      TailStays(Deliver(s, page[|page|-1], capacity), page[..|page|-1], l, after + 1, capacity);
    }
  }

  lemma DeliverKeepsOut(s: seq<Row>, m: Row, capacity: nat, id: nat)
    requires !HasId(s, id) && m.id != id
    ensures !HasId(Deliver(s, m, capacity), id)
  {
    var t := Inserted(s, m);
    forall i | 0 <= i < |t| ensures t[i].id != id {
      if i < Position(s, m) { assert t[i] == s[i]; } else if i > Position(s, m) { assert t[i] == s[i-1]; }
    }
  }

  lemma UntimedGoesLastNow(s: seq<Row>, page: seq<Row>, l: Row, after: nat, capacity: nat)
    requires |s| <= capacity && after + |page| < capacity && Near(s, l, after)
    requires page != [] && page[|page|-1].sentAt == 0 && !HasId(s, page[|page|-1].id)
    ensures var t := AddPage(s, page, capacity); t != [] && t[|t|-1] != l
  {
    var m := page[|page|-1];
    DeliverNear(s, m, l, after, capacity);
    assert HasId(s, l.id);
    UntimedLast(s, m, capacity);
    TailStays(Deliver(s, m, capacity), page[..|page|-1], l, after + 1, capacity);
  }

  /** A new message without a time ends up behind the window's newest message. */
  lemma {:induction false} UntimedGoesLast(s: seq<Row>, page: seq<Row>, i: nat, l: Row, after: nat, capacity: nat)
    requires |s| <= capacity && after + |page| < capacity && Near(s, l, after) && DistinctIds(page)
    requires i < |page| && page[i].sentAt == 0 && !HasId(s, page[i].id)
    ensures var t := AddPage(s, page, capacity); t != [] && t[|t|-1] != l
    decreases |page|
  {
    hide Deliver, Near, HasId;
    if i == |page| - 1 {
      UntimedGoesLastNow(s, page, l, after, capacity);
    } else {
      var m, rest := page[|page|-1], page[..|page|-1];
      assert DistinctIds(rest) && rest[i] == page[i] && page[i].id != m.id;
      DeliverNear(s, m, l, after, capacity);
      DeliverKeepsOut(s, m, capacity, page[i].id);
      UntimedGoesLast(Deliver(s, m, capacity), rest, i, l, after + 1, capacity);
    }
  }

  /** An accepted page leaves the last of (its new messages ++ the window) exactly
      when every new message in it has a time. */
  lemma OlderPageExtends(s: seq<Row>, page: seq<Row>, capacity: nat)
    requires s != [] && |s| <= capacity && |page| <= OLDER_PAGE_SIZE < capacity && ValidPage(page, s[0])
    ensures AddPage(s, page, capacity) == Last(Fresh(page, s) + s, capacity) <==> TimedOrKnown(page, s)
  {
    if TimedOrKnown(page, s) {
      ValidPageJoins(s, page);
      PageGoesInFront(s, page, capacity);
    } else {
      var i: nat :| i < |page| && page[i].sentAt == 0 && !HasId(s, page[i].id);
      var l := s[|s|-1];
      assert Near(s, l, 0);
      UntimedGoesLast(s, page, i, l, 0, capacity);
      var e := Last(Fresh(page, s) + s, capacity);
      assert e[|e|-1] == l;
    }
  }

  /** The smallest case: a page the validation accepts, shown below what was loaded. */
  lemma UntimedPageCounterexample()
    ensures var s, page := [Row(9, 100, 0)], [Row(3, 0, 0)];
      && ValidPage(page, s[0])
      && AddPage(s, page, SELECTED_CAPACITY) == [Row(9, 100, 0), Row(3, 0, 0)]
      && Last(Fresh(page, s) + s, SELECTED_CAPACITY) == [Row(3, 0, 0), Row(9, 100, 0)]
  {
    var s, page := [Row(9, 100, 0)], [Row(3, 0, 0)];
    assert !HasId(s, 3);
    assert Position(s[1..], page[0]) == 0;
    assert Position(s, page[0]) == 1;
    assert Inserted(s, page[0]) == [Row(9, 100, 0), Row(3, 0, 0)];
    assert page[..0] == [];
    assert Fresh(page, s) == [Row(3, 0, 0)];
  }

  // ---- the chat buffer

  lemma Rejoined(before: seq<Row>, shifted: seq<Row>, p: nat, m: Row)
    requires 0 < p <= |before| == |shifted|
    requires shifted[..p-1] == before[1..p] && shifted[p..] == before[p..]
    ensures shifted[p-1 := m] == before[1..p] + [m] + before[p..]
  {
    assert shifted[p-1 := m] == shifted[..p-1] + [m] + shifted[p..];
  }

  class Chat {
    var messages: array<Row>
    var messageCount: nat

    ghost predicate Valid()
      reads this
    {
      messageCount <= messages.Length && messages.Length > 0
    }

    ghost function Contents(): seq<Row>
      requires Valid()
      reads this, messages
    {
      messages[..messageCount]
    }

    constructor ()
      ensures Valid() && Contents() == [] && fresh(messages) && messages.Length == COMPACT_CAPACITY
    {
      messages := new Row[COMPACT_CAPACITY](_ => Row(0, 0, 0));
      messageCount := 0;
    }

    method IndexById(id: nat) returns (index: int)
      requires Valid()
      ensures index >= 0 <==> HasId(Contents(), id)
      ensures index >= 0 ==> index < messageCount && messages[index].id == id
    {
      for i := 0 to messageCount
        invariant forall j :: 0 <= j < i ==> messages[j].id != id
      {
        if messages[i].id == id {
          assert Contents()[i].id == id;
          return i;
        }
      }
      return -1;
    }

    /** Shifts the slots from..to one place up. */
    method ShiftUp(from: nat, to: nat)
      requires from <= to < messages.Length
      modifies messages
      ensures messages[from+1..to+1] == old(messages[from..to])
      ensures messages[..from] == old(messages[..from])
    {
      var i := to;
      while i > from
        invariant from <= i <= to
        invariant forall j :: 0 <= j < messages.Length && j <= i ==> messages[j] == old(messages[j])
        invariant forall j :: i < j <= to ==> messages[j] == old(messages[j-1])
      {
        messages[i] := messages[i-1];
        i := i - 1;
      }
    }

    /** Shifts the slots 1..to one place down. */
    method ShiftDown(to: nat)
      requires to < messages.Length
      modifies messages
      ensures messages[..to] == old(messages[1..to+1])
      ensures messages[to+1..] == old(messages[to+1..])
    {
      for i := 0 to to
        invariant forall j :: 0 <= j < i ==> messages[j] == old(messages[j+1])
        invariant forall j :: i <= j < messages.Length ==> messages[j] == old(messages[j])
      {
        messages[i] := messages[i+1];
      }
    }

    method FindPosition(m: Row) returns (insertion: nat)
      requires Valid()
      ensures insertion == Position(Contents(), m)
    {
      insertion := 0;
      while insertion < messageCount && !Before(m, messages[insertion])
        invariant insertion <= messageCount
        invariant Position(Contents(), m) == insertion + Position(Contents()[insertion..], m)
      {
        assert Contents()[insertion..][1..] == Contents()[insertion+1..];
        insertion := insertion + 1;
      }
    }

    /** Makes room at a position of a buffer that is not full. */
    method PutAt(insertion: nat, m: Row)
      requires Valid() && messageCount < messages.Length && insertion <= messageCount
      modifies this`messageCount, messages
      ensures Valid() && Contents() == old(Contents())[..insertion] + [m] + old(Contents())[insertion..]
    {
      ghost var before := Contents();
      ShiftUp(insertion, messageCount);
      messages[insertion] := m;
      messageCount := messageCount + 1;
      assert messages[..insertion] == before[..insertion];
      assert messages[insertion+1..messageCount] == before[insertion..];
    }

    /** Drops the oldest message of a full buffer in favour of one that comes later. */
    method ReplaceOldest(insertion: nat, m: Row)
      requires Valid() && messageCount == messages.Length && 0 < insertion <= messageCount
      modifies messages
      ensures Valid() && Contents() == old(Contents())[1..insertion] + [m] + old(Contents())[insertion..]
    {
      ghost var before := Contents();
      assert before == messages[..];
      ShiftDown(insertion - 1);
      ghost var shifted := Contents();
      messages[insertion - 1] := m;
      assert Contents() == shifted[insertion - 1 := m];
      Rejoined(before, shifted, insertion, m);
    }

    /** Inserts in order, at the cost of the oldest when the buffer is full. */
    method InsertBounded(m: Row) returns (inserted: bool, index: int)
      requires Valid()
      modifies this`messageCount, messages
      ensures Valid() && Contents() == Last(Inserted(old(Contents()), m), messages.Length)
      ensures inserted <==> old(messageCount) < messages.Length || Position(old(Contents()), m) > 0
      ensures if inserted then 0 <= index < messageCount && Contents()[index] == m else index == -1 && Contents() == old(Contents())
    {
      ghost var before := Contents();
      var insertion := FindPosition(m);
      if messageCount < messages.Length {
        PutAt(insertion, m);
        return true, insertion;
      }
      if insertion == 0 {
        assert Inserted(before, m) == [m] + before;
        return false, -1;
      }
      ReplaceOldest(insertion, m);
      assert Contents() == Inserted(before, m)[1..];
      return true, insertion - 1;
    }

    /** One message, unless it is already in the window. */
    method DeliverOne(message: Row) returns (inserted: bool)
      requires Valid()
      modifies this`messageCount, messages
      ensures Valid() && Contents() == Deliver(old(Contents()), message, messages.Length)
      ensures inserted <==> Contents() != old(Contents())
    {
      ghost var before := Contents();
      var duplicate := IndexById(message.id);
      if duplicate >= 0 {
        return false;
      }
      var index;
      inserted, index := InsertBounded(message);
      if inserted && Contents() == before {
        assert before[index].id == message.id;
      }
    }

    /** Older history: the page from its nearest message to its oldest. */
    method AddOlderPage(page: seq<Row>) returns (added: nat)
      requires Valid()
      modifies this`messageCount, messages
      ensures Valid() && Contents() == AddPage(old(Contents()), page, messages.Length)
      ensures added == Added(old(Contents()), page, messages.Length)
    {
      hide Deliver;
      added := 0;
      ghost var goal, left := AddPage(Contents(), page, messages.Length), page;
      ghost var all := Added(Contents(), page, messages.Length);
      var index := |page|;
      while index > 0
        invariant 0 <= index <= |page| && left == page[..index] && Valid()
        invariant AddPage(Contents(), left, messages.Length) == goal && added + Added(Contents(), left, messages.Length) == all
      {
        index := index - 1;
        left := left[..index];
        var inserted := DeliverOne(page[index]);
        if inserted {
          added := added + 1;
        }
      }
    }

    /** A deselected chat keeps its newest messages in a small buffer. */
    method Compact()
      requires Valid()
      modifies this
      ensures Valid() && Contents() == if old(messages.Length) <= COMPACT_CAPACITY then old(Contents()) else Last(old(Contents()), COMPACT_CAPACITY)
      ensures messages.Length <= COMPACT_CAPACITY
    {
      if messages.Length <= COMPACT_CAPACITY {
        return;
      }
      var start := if messageCount > COMPACT_CAPACITY then messageCount - COMPACT_CAPACITY else 0;
      var compact := new Row[COMPACT_CAPACITY](_ => Row(0, 0, 0));
      var count := messageCount - start;
      for i := 0 to count
        invariant messages == old(messages) && messageCount == old(messageCount) && messages[..] == old(messages[..])
        invariant forall j :: 0 <= j < i ==> compact[j] == messages[start + j]
      {
        compact[i] := messages[start + i];
      }
      messages, messageCount := compact, count;
    }

    /** The selected chat gets the large buffer and loses nothing. */
    method Expand()
      requires Valid() && messages.Length <= SELECTED_CAPACITY
      modifies this
      ensures Valid() && Contents() == old(Contents()) && messages.Length == SELECTED_CAPACITY
    {
      if messages.Length == SELECTED_CAPACITY {
        return;
      }
      var expanded := new Row[SELECTED_CAPACITY](_ => Row(0, 0, 0));
      for i := 0 to messageCount
        invariant messages == old(messages) && messageCount == old(messageCount) && messages[..] == old(messages[..])
        invariant forall j :: 0 <= j < i ==> expanded[j] == messages[j]
      {
        expanded[i] := messages[i];
      }
      messages := expanded;
    }
  }
}
