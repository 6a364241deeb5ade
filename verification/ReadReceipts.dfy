/** Read-receipt coalescing: a ring of pending requests, one per chat, each cut to
    the newest messages it was ever asked to acknowledge. */
module ReadReceipts {
  import opened Frontier
  import opened Wrappers
  import Sorting

  const MAX_MESSAGES: nat := 32
  const RING: nat := 32

  /** Sender 0 is the empty contact, time 0 Go's zero time. */
  datatype Item = Item(id: nat, sentAt: int, sender: nat)

  datatype Request = Request(chat: nat, group: bool, items: seq<Item>)

  predicate Distinct(s: seq<Item>) { forall i, j :: 0 <= i < j < |s| ==> s[i].id != s[j].id }

  predicate WellFormed(group: bool, s: seq<Item>) {
    forall i :: 0 <= i < |s| ==> s[i].id != 0 && s[i].sentAt != 0 && (group ==> s[i].sender != 0)
  }

  /** What the constructor of a request accepts. */
  predicate Acceptable(r: Request) {
    1 <= |r.items| <= MAX_MESSAGES && r.chat != 0 && Distinct(r.items) && WellFormed(r.group, r.items)
  }

  // ---- requests as keyed tables

  function KeyOf(id: nat): Key { Key(0, id) }

  function Row(m: Item): Stamped<nat> { Stamped(m.sentAt, m.sender) }

  predicate Later(a: Stamped<nat>, b: Stamped<nat>) { a.at > b.at }

  function PutAll(t: Table<nat>, s: seq<Item>): Table<nat> {
    if s == [] then t else Put(PutAll(t, s[..|s|-1]), KeyOf(s[|s|-1].id), Row(s[|s|-1]), Later)
  }

  function Rows(s: seq<Item>): Table<nat> { PutAll(map[], s) }

  /** The newest 32 of everything: what a pending entry should hold. */
  function Frontier32(s: seq<Item>): Table<nat> { Trim(LargerFirst, Rows(s), MAX_MESSAGES) }

  lemma {:induction false} PutAllJoin(t: Table<nat>, a: seq<Item>, b: seq<Item>)
    ensures PutAll(t, a + b) == PutAll(PutAll(t, a), b)
  {
    if b == [] {
      assert a + b == a;
    } else {
      PutAllJoin(t, a, b[..|b|-1]);
      assert (a + b)[..|a + b|-1] == a + b[..|b|-1];
    }
  }

  /** Trimming the entry before more is merged in never changes the outcome. */
  lemma {:induction false} TrimThenPutAll(m: Table<nat>, s: seq<Item>)
    ensures Trim(LargerFirst, PutAll(Trim(LargerFirst, m, MAX_MESSAGES), s), MAX_MESSAGES)
         == Trim(LargerFirst, PutAll(m, s), MAX_MESSAGES)
  {
    var k := MAX_MESSAGES;
    if s == [] {
      TrimIdempotent(LargerFirst, m, k);
    } else {
      var rest, x := s[..|s|-1], s[|s|-1];
      var t, y := Trim(LargerFirst, m, k), PutAll(m, rest);
      TrimThenPutAll(m, rest);
      var z := PutAll(t, rest);
      TrimEarly(LargerFirst, Trim(LargerFirst, y, k), y, KeyOf(x.id), Row(x), Later, k);
      TrimEarly(LargerFirst, Trim(LargerFirst, z, k), z, KeyOf(x.id), Row(x), Later, k);
    }
  }

  // ---- independence of the admission order

  /** Same identifier and time, same sender. */
  predicate SenderFixed(s: seq<Item>) {
    forall i, j :: 0 <= i < |s| && 0 <= j < |s| && s[i].id == s[j].id && s[i].sentAt == s[j].sentAt ==> s[i].sender == s[j].sender
  }

  predicate IsLatest(s: seq<Item>, m: Item) {
    m in s && forall n :: n in s && n.id == m.id ==> n.sentAt <= m.sentAt
  }

  /** Each row is a latest item for its identifier, and each identifier has a row. */
  lemma {:induction false} RowsAreLatest(s: seq<Item>)
    ensures forall q :: q in Rows(s) ==> exists m :: IsLatest(s, m) && q == KeyOf(m.id) && Rows(s)[q] == Row(m)
    ensures forall m :: m in s ==> KeyOf(m.id) in Rows(s)
  {
    if s != [] {
      var rest, x := s[..|s|-1], s[|s|-1];
      RowsAreLatest(rest);
      assert s == rest + [x];
      forall q | q in Rows(s) ensures exists m :: IsLatest(s, m) && q == KeyOf(m.id) && Rows(s)[q] == Row(m) {
        LatestNext(rest, x, q);
      }
    }
  }

  lemma LatestNext(rest: seq<Item>, x: Item, q: Key)
    requires forall p :: p in Rows(rest) ==> exists m :: IsLatest(rest, m) && p == KeyOf(m.id) && Rows(rest)[p] == Row(m)
    requires forall m :: m in rest ==> KeyOf(m.id) in Rows(rest)
    requires q in Rows(rest + [x])
    ensures exists m :: IsLatest(rest + [x], m) && q == KeyOf(m.id) && Rows(rest + [x])[q] == Row(m)
  {
    var s := rest + [x];
    assert s[..|s|-1] == rest;
    if q in Rows(rest) {
      var m :| IsLatest(rest, m) && q == KeyOf(m.id) && Rows(rest)[q] == Row(m);
      if q == KeyOf(x.id) && Later(Row(x), Row(m)) {
        assert IsLatest(s, x);
      } else {
        assert IsLatest(s, m);
      }
    } else {
      assert IsLatest(s, x);
    }
  }

  /** The same messages in any order and grouping leave the same pending entry. */
  lemma AdmissionOrder(s: seq<Item>, t: seq<Item>)
    requires SenderFixed(s) && forall m :: m in s <==> m in t
    ensures Rows(s) == Rows(t) && Frontier32(s) == Frontier32(t)
  {
    RowsAreLatest(s);
    RowsAreLatest(t);
    forall q | q in Rows(s) ensures q in Rows(t) && Rows(s)[q] == Rows(t)[q] {
      SameRow(s, t, q);
    }
    forall q | q in Rows(t) ensures q in Rows(s) {
      var m :| IsLatest(t, m) && q == KeyOf(m.id) && Rows(t)[q] == Row(m);
      assert m in s;
    }
  }

  lemma SameRow(s: seq<Item>, t: seq<Item>, q: Key)
    requires SenderFixed(s) && (forall m :: m in s <==> m in t) && q in Rows(s)
    ensures q in Rows(t) && Rows(s)[q] == Rows(t)[q]
  {
    RowsAreLatest(s);
    RowsAreLatest(t);
    var m :| IsLatest(s, m) && q == KeyOf(m.id) && Rows(s)[q] == Row(m);
    assert m in t;
    var n :| IsLatest(t, n) && q == KeyOf(n.id) && Rows(t)[q] == Row(n);
    assert n in s && m.sentAt == n.sentAt;
    var i :| 0 <= i < |s| && s[i] == m;
    var j :| 0 <= j < |s| && s[j] == n;
  }

  // ---- the exact condition

  ghost predicate SameItems(s: seq<Item>, t: seq<Item>) { forall m :: m in s <==> m in t }

  /** The latest items of one identifier that makes it into the newest 32 share a sender. */
  ghost predicate KeptSendersAgree(s: seq<Item>) {
    forall m, n :: IsLatest(s, m) && IsLatest(s, n) && m.id == n.id && KeyOf(m.id) in Frontier32(s) ==> m.sender == n.sender
  }

  lemma SameAges(s: seq<Item>, t: seq<Item>, q: Key)
    requires SameItems(s, t) && q in Rows(s)
    ensures q in Rows(t) && Rows(s)[q].at == Rows(t)[q].at
  {
    RowsAreLatest(s);
    RowsAreLatest(t);
    var m :| IsLatest(s, m) && q == KeyOf(m.id) && Rows(s)[q] == Row(m);
    assert m in t;
    var n :| IsLatest(t, n) && q == KeyOf(n.id) && Rows(t)[q] == Row(n);
    assert n in s;
  }

  /** Which identifiers are kept does not depend on the order. */
  lemma SameKept(s: seq<Item>, t: seq<Item>)
    requires SameItems(s, t)
    ensures Rows(s).Keys == Rows(t).Keys && Frontier32(s).Keys == Frontier32(t).Keys
  {
    forall q | q in Rows(s) ensures q in Rows(t) && Rows(s)[q].at == Rows(t)[q].at { SameAges(s, t, q); }
    forall q | q in Rows(t) ensures q in Rows(s) { SameAges(t, s, q); }
    forall q | q in Rows(s) ensures Higher(LargerFirst, Rows(s), q) == Higher(LargerFirst, Rows(t), q) {}
  }

  lemma KeptRowAgrees(s: seq<Item>, t: seq<Item>, q: Key)
    requires SameItems(s, t) && KeptSendersAgree(s) && q in Frontier32(s)
    ensures q in Frontier32(t) && Frontier32(t)[q] == Frontier32(s)[q]
  {
    SameKept(s, t);
    RowsAreLatest(s);
    RowsAreLatest(t);
    var m :| IsLatest(s, m) && q == KeyOf(m.id) && Rows(s)[q] == Row(m);
    var n :| IsLatest(t, n) && q == KeyOf(n.id) && Rows(t)[q] == Row(n);
    assert n in s && IsLatest(s, n);
  }

  /** The row of an identifier stays while nothing later comes. */
  lemma {:induction false} StaysFirst(t: Table<nat>, s: seq<Item>, k: Key)
    requires k in t && forall m :: m in s && KeyOf(m.id) == k ==> m.sentAt <= t[k].at
    ensures k in PutAll(t, s) && PutAll(t, s)[k] == t[k]
  {
    if s != [] {
      var rest, x := s[..|s|-1], s[|s|-1];
      assert s == rest + [x];
      StaysFirst(t, rest, k);
    }
  }

  /** Whichever latest item comes first provides the sender. */
  lemma FirstProvides(s: seq<Item>, m: Item)
    requires IsLatest(s, m) && KeyOf(m.id) in Frontier32(s)
    ensures SameItems(s, [m] + s) && KeyOf(m.id) in Frontier32([m] + s) && Frontier32([m] + s)[KeyOf(m.id)] == Row(m)
  {
    SameKept(s, [m] + s);
    PutAllJoin(map[], [m], s);
    assert [m][..0] == [];
    assert PutAll(map[], [m]) == Put(PutAll(map[], []), KeyOf(m.id), Row(m), Later);
    StaysFirst(Rows([m]), s, KeyOf(m.id));
  }

  /** Every order and grouping of the same messages leaves the same pending entry exactly
      when the latest items of each kept identifier share their sender. */
  lemma AdmissionOrderExactly(s: seq<Item>)
    ensures (forall t :: SameItems(s, t) ==> Frontier32(t) == Frontier32(s)) <==> KeptSendersAgree(s)
  {
    if KeptSendersAgree(s) {
      forall t | SameItems(s, t) ensures Frontier32(t) == Frontier32(s) {
        SameKept(s, t);
        forall q | q in Frontier32(s) ensures Frontier32(t)[q] == Frontier32(s)[q] { KeptRowAgrees(s, t, q); }
      }
    } else {
      var m, n :| IsLatest(s, m) && IsLatest(s, n) && m.id == n.id && KeyOf(m.id) in Frontier32(s) && m.sender != n.sender;
      FirstProvides(s, m);
      FirstProvides(s, n);
      assert Frontier32([m] + s)[KeyOf(m.id)] != Frontier32([n] + s)[KeyOf(m.id)];
    }
  }

  lemma NewKey(s: seq<Item>, id: nat)
    requires forall i :: 0 <= i < |s| ==> s[i].id != id
    ensures KeyOf(id) !in Rows(s)
  {
    RowsAreLatest(s);
    assert forall m :: m in s ==> m.id != id;
  }

  /** Distinct items are rows of their own. */
  lemma {:induction false} RowsOf(s: seq<Item>)
    requires Distinct(s)
    ensures |Rows(s)| == |s|
    ensures forall i :: 0 <= i < |s| ==> KeyOf(s[i].id) in Rows(s) && Rows(s)[KeyOf(s[i].id)] == Row(s[i])
  {
    if s != [] {
      var rest, x := s[..|s|-1], s[|s|-1];
      RowsOf(rest);
      NewKey(rest, x.id);
      assert |Rows(s)| == |Rows(rest)| + 1;
    }
  }

  /** Without a fixed sender the order shows. */
  lemma SenderCounterexample()
    ensures var a, b := Item(7, 100, 1), Item(7, 100, 2);
      Frontier32([a, b]) == map[KeyOf(7) := Stamped(100, 1)] && Frontier32([b, a]) == map[KeyOf(7) := Stamped(100, 2)]
  {
    var a, b := Item(7, 100, 1), Item(7, 100, 2);
    TwoPut(a, b);
    TwoPut(b, a);
  }

  lemma TwoPut(a: Item, b: Item)
    requires a.id == b.id && a.sentAt == b.sentAt
    ensures Rows([a, b]) == map[KeyOf(a.id) := Row(a)] && Frontier32([a, b]) == Rows([a, b])
  {
    assert [a, b][..1] == [a] && [a][..0] == [];
    assert Rows([]) == map[];
    assert Rows([a]) == Put(Rows([]), KeyOf(a.id), Row(a), Later);
    assert Rows([a]) == map[KeyOf(a.id) := Row(a)];
    TrimSize(LargerFirst, Rows([a, b]), MAX_MESSAGES);
  }

  // ---- merging two requests

  predicate Earlier(a: Item, b: Item) { a.sentAt < b.sentAt || (a.sentAt == b.sentAt && a.id < b.id) }

  predicate Ascending(s: seq<Item>) { forall i, j :: 0 <= i < j < |s| ==> Earlier(s[i], s[j]) }

  lemma RowsAppend(s: seq<Item>, x: Item)
    requires forall i :: 0 <= i < |s| ==> s[i].id != x.id
    ensures Rows(s + [x]) == Rows(s)[KeyOf(x.id) := Row(x)] == Put(Rows(s), KeyOf(x.id), Row(x), Later)
  {
    assert (s + [x])[..|s|] == s;
    NewKey(s, x.id);
  }

  /** A found duplicate is replaced in place by a later one. */
  lemma {:induction false} PutInPlace(s: seq<Item>, k: nat, x: Item)
    requires Distinct(s) && k < |s| && s[k].id == x.id
    ensures Distinct(s[k := x]) && Rows(s[k := x]) == Rows(s)[KeyOf(x.id) := Row(x)]
  {
    var rest, y := s[..|s|-1], s[|s|-1];
    assert s == rest + [y];
    RowsAppend(rest, y);
    if k == |rest| {
      assert s[k := x] == rest + [x];
      RowsAppend(rest, x);
    } else {
      PutInPlace(rest, k, x);
      assert s[k := x] == rest[k := x] + [y];
      RowsAppend(rest[k := x], y);
    }
  }

  /** One message of appendRequest. */
  function AppendItem(s: seq<Item>, x: Item): seq<Item> {
    var k := IndexOf(s, x.id);
    if k < 0 then s + [x] else if x.sentAt > s[k].sentAt then s[k := x] else s
  }

  function IndexOf(s: seq<Item>, id: nat): (k: int)
    ensures -1 <= k < |s| && (k >= 0 ==> s[k].id == id)
    ensures k < 0 ==> forall i :: 0 <= i < |s| ==> s[i].id != id
  {
    if s == [] then -1
    else if s[0].id == id then 0
    else
      var k := IndexOf(s[1..], id);
      assert forall i :: 1 <= i < |s| ==> s[i] == s[1..][i-1];
      if k < 0 then -1 else k + 1
  }

  lemma AppendItemIs(s: seq<Item>, x: Item, group: bool)
    requires Distinct(s)
    ensures Distinct(AppendItem(s, x)) && |AppendItem(s, x)| <= |s| + 1
    ensures Rows(AppendItem(s, x)) == Put(Rows(s), KeyOf(x.id), Row(x), Later)
    ensures WellFormed(group, s) && WellFormed(group, [x]) ==> WellFormed(group, AppendItem(s, x))
    ensures s != [] ==> AppendItem(s, x) != []
  {
    var k := IndexOf(s, x.id);
    RowsOf(s);
    assert [x][0] == x;
    if k < 0 {
      RowsAppend(s, x);
    } else {
      PutInPlace(s, k, x);
      assert KeyOf(s[k].id) == KeyOf(x.id);
    }
  }

  lemma RowOfTail(s: seq<Item>, d: nat, p: Key)
    requires Distinct(s) && d <= |s| && p in Rows(s[d..])
    ensures p in Rows(s) && Rows(s[d..])[p] == Rows(s)[p]
  {
    var i := RowIndex(s[d..], p);
    assert s[d..][i] == s[i + d];
    RowsOf(s);
  }

  lemma TailIsNewer(s: seq<Item>, d: nat, p: Key, q: Key)
    requires Ascending(s) && Distinct(s) && d <= |s| && p in Rows(s[d..]) && q in Rows(s) && q !in Rows(s[d..])
    ensures p in Rows(s) && Ahead(LargerFirst, Rows(s)[p].at, p, Rows(s)[q].at, q)
  {
    var t := s[d..];
    var i := RowIndex(t, p);
    var j := RowIndex(s, q);
    RowOfTail(s, d, p);
    RowsOf(t);
    assert forall k :: d <= k < |s| ==> s[k] == t[k - d];
    assert t[i] == s[i + d] && Earlier(s[j], s[i + d]);
  }

  /** A sorted list cut to its newest 32 is the trimmed table. */
  lemma NewestOfSorted(s: seq<Item>)
    requires Ascending(s) && Distinct(s)
    ensures Rows(LastItems(s)) == Frontier32(s) && Distinct(LastItems(s))
  {
    var d := if |s| > MAX_MESSAGES then |s| - MAX_MESSAGES else 0;
    var t := s[d..];
    assert t == LastItems(s);
    RowsOf(s);
    RowsOf(t);
    forall p | p in Rows(t) ensures p in Rows(s) && Rows(t)[p] == Rows(s)[p] {
      RowOfTail(s, d, p);
    }
    forall p, q | p in Rows(t) && q in Rows(s) && q !in Rows(t)
      ensures Ahead(LargerFirst, Rows(s)[p].at, p, Rows(s)[q].at, q)
    {
      TailIsNewer(s, d, p, q);
    }
    TrimUnique(LargerFirst, Rows(s), MAX_MESSAGES, Rows(t).Keys);
  }

  lemma RowIndex(s: seq<Item>, q: Key) returns (i: nat)
    requires Distinct(s) && q in Rows(s)
    ensures i < |s| && q == KeyOf(s[i].id) && Rows(s)[q] == Row(s[i])
  {
    RowsAreLatest(s);
    RowsOf(s);
    var m :| IsLatest(s, m) && q == KeyOf(m.id);
    i :| 0 <= i < |s| && s[i] == m;
  }

  function LastItems(s: seq<Item>): seq<Item> {
    if |s| > MAX_MESSAGES then s[|s| - MAX_MESSAGES..] else s
  }

  function AppendAll(s: seq<Item>, items: seq<Item>): seq<Item> {
    if items == [] then s else AppendItem(AppendAll(s, items[..|items|-1]), items[|items|-1])
  }

  lemma {:induction false} AppendAllIs(s: seq<Item>, items: seq<Item>, group: bool)
    requires Distinct(s) && WellFormed(group, s) && WellFormed(group, items)
    ensures var t := AppendAll(s, items);
      && Distinct(t) && WellFormed(group, t) && |t| <= |s| + |items| && (s != [] || items != [] ==> t != [])
      && Rows(t) == PutAll(Rows(s), items)
  {
    if items != [] {
      var rest, x := items[..|items|-1], items[|items|-1];
      AppendAllIs(s, rest, group);
      AppendItemIs(AppendAll(s, rest), x, group);
      assert WellFormed(group, [x]);
    }
  }

  method AppendRequest(merged: array<Item>, count: nat, request: Request) returns (n: nat)
    requires count + |request.items| <= merged.Length
    modifies merged
    ensures n <= count + |request.items| && merged[..n] == AppendAll(old(merged[..count]), request.items)
  {
    n := count;
    ghost var before := merged[..count];
    for index := 0 to |request.items|
      invariant n <= count + index && merged[..n] == AppendAll(before, request.items[..index])
    {
      var message := request.items[index];
      assert request.items[..index+1][..index] == request.items[..index];
      var found := FindItem(merged, n, message.id);
      if found >= 0 {
        if message.sentAt > merged[found].sentAt {
          merged[found] := message;
        }
      } else {
        merged[n] := message;
        n := n + 1;
      }
    }
    assert request.items[..|request.items|] == request.items;
  }

  method FindItem(merged: array<Item>, n: nat, id: nat) returns (found: int)
    requires n <= merged.Length
    ensures found == IndexOf(merged[..n], id)
  {
    ghost var all := merged[..n];
    for existing := 0 to n
      invariant IndexOf(all, id) == if IndexOf(all[existing..], id) < 0 then -1 else existing + IndexOf(all[existing..], id)
    {
      assert all[existing..][1..] == all[existing+1..];
      if merged[existing].id == id {
        return existing;
      }
    }
    return -1;
  }

  /** The library sort, with the order of the merge. */
  method SortItems(work: seq<Item>) returns (s: seq<Item>)
    requires Distinct(work)
    ensures Ascending(s) && multiset(s) == multiset(work)
  {
    s := Sorting.Sort(work, Earlier);
  }

  lemma SortedIsSame(s: seq<Item>, t: seq<Item>)
    requires Distinct(s) && Ascending(t) && multiset(s) == multiset(t)
    ensures Distinct(t) && Rows(s) == Rows(t) && |s| == |t|
    ensures forall m :: m in t ==> m in s
  {
    assert forall m :: m in s <==> m in multiset(s);
    assert forall m :: m in t <==> m in multiset(t);
    AdmissionOrder(s, t);
    assert |multiset(s)| == |s| && |multiset(t)| == |t|;
    forall i, j | 0 <= i < j < |t| ensures t[i].id != t[j].id {
      assert t[i] in s && t[j] in s;
      assert t[i] != t[j];
    }
  }

  method Collect(left: Request, right: Request) returns (both: seq<Item>)
    requires Acceptable(left) && Acceptable(right) && left.group == right.group
    ensures Distinct(both) && WellFormed(left.group, both) && both != []
    ensures Rows(both) == Rows(left.items + right.items)
  {
    var merged := new Item[2 * MAX_MESSAGES](_ => Item(0, 0, 0));
    var count := AppendRequest(merged, 0, left);
    ghost var first := merged[..count];
    AppendAllIs([], left.items, left.group);
    count := AppendRequest(merged, count, right);
    AppendAllIs(first, right.items, left.group);
    PutAllJoin(map[], left.items, right.items);
    return merged[..count];
  }

  lemma NewestAcceptable(values: seq<Item>, both: seq<Item>, group: bool)
    requires both != [] && WellFormed(group, both) && Distinct(both)
    requires Distinct(values) && |values| == |both| && forall m :: m in values ==> m in both
    ensures 1 <= |LastItems(values)| <= MAX_MESSAGES && WellFormed(group, LastItems(values)) && Distinct(LastItems(values))
  {
    var t := LastItems(values);
    forall i | 0 <= i < |t| ensures t[i].id != 0 && t[i].sentAt != 0 && (group ==> t[i].sender != 0) {
      assert t[i] in values;
      assert t[i] in both;
    }
  }

  /** Two requests of one chat and kind merge into the newest 32 of both; nothing
      else can go wrong. */
  method Merge(left: Request, right: Request) returns (r: Option<Request>)
    requires Acceptable(left) && Acceptable(right)
    ensures r.None? <==> left.chat != right.chat || left.group != right.group
    ensures r.Some? ==>
      && Acceptable(r.value) && r.value.chat == left.chat && r.value.group == left.group
      && Ascending(r.value.items) && Rows(r.value.items) == Frontier32(left.items + right.items)
  {
    if left.chat != right.chat || left.group != right.group {
      return None;
    }
    var both := Collect(left, right);
    var values := SortItems(both);
    SortedIsSame(both, values);
    NewestOfSorted(values);
    NewestAcceptable(values, both, left.group);
    var request := Request(left.chat, left.group, LastItems(values));
    if !Acceptable(request) {
      assert false;
    }
    return Some(request);
  }

  // ---- the ring

  /** The items ever admitted for a pending chat, since it entered the ring. */
  ghost predicate Holds(entry: Request, history: seq<Item>) {
    Acceptable(entry) && Rows(entry.items) == Frontier32(history)
  }

  /** A first admission holds itself. */
  lemma FirstHolds(r: Request)
    requires Acceptable(r)
    ensures Holds(r, r.items)
  {
    RowsOf(r.items);
    TrimSize(LargerFirst, Rows(r.items), MAX_MESSAGES);
  }

  /** Merging into a trimmed entry is the same as merging into everything. */
  lemma MergedHolds(entry: Request, history: seq<Item>, r: Request, merged: Request)
    requires Holds(entry, history) && Acceptable(merged) && Rows(merged.items) == Frontier32(entry.items + r.items)
    ensures Holds(merged, history + r.items)
  {
    PutAllJoin(map[], entry.items, r.items);
    PutAllJoin(map[], history, r.items);
    TrimThenPutAll(Rows(history), r.items);
  }

  function Wrap(i: nat): nat { if i < RING then i else i - RING }

  /** The place of a chat in the ring, -1 when it is not pending. */
  function PlaceOf(entries: seq<Request>, chat: nat): (k: int)
    ensures -1 <= k < |entries| && (k >= 0 ==> entries[k].chat == chat)
    ensures k < 0 ==> forall i :: 0 <= i < |entries| ==> entries[i].chat != chat
  {
    if entries == [] then -1
    else if entries[|entries|-1].chat == chat then |entries| - 1
    else PlaceOf(entries[..|entries|-1], chat)
  }

  predicate OnePerChat(entries: seq<Request>) {
    forall i, j :: 0 <= i < j < |entries| ==> entries[i].chat != entries[j].chat
  }

  /** Every entry is the newest 32 of its history, and no chat has two entries. */
  ghost predicate Coalesced(entries: seq<Request>, histories: seq<seq<Item>>) {
    && |entries| == |histories| && OnePerChat(entries)
    && forall i :: 0 <= i < |entries| ==> Holds(entries[i], histories[i])
  }

  lemma CoalescedStore(entries: seq<Request>, histories: seq<seq<Item>>, k: nat, r: Request, history: seq<Item>)
    requires Coalesced(entries, histories) && k < |entries| && r.chat == entries[k].chat && Holds(r, history)
    ensures Coalesced(entries[k := r], histories[k := history])
  {
  }

  lemma CoalescedAppend(entries: seq<Request>, histories: seq<seq<Item>>, r: Request)
    requires Coalesced(entries, histories) && Acceptable(r) && PlaceOf(entries, r.chat) < 0
    ensures Coalesced(entries + [r], histories + [r.items])
  {
    FirstHolds(r);
  }

  /** One entry was replaced by one of the same chat and kind; the others stayed. */
  predicate Merged(before: seq<Request>, after: seq<Request>, k: nat, r: Request)
    requires k < |before|
  {
    && |after| == |before| && after == before[k := after[k]]
    && after[k].chat == r.chat && after[k].group == r.group
  }

  class Worker {
    const pending: array<Option<Request>>
    var head: nat
    var count: nat
    /** The pending requests, first admission first, and what was admitted for each. */
    ghost var entries: seq<Request>
    ghost var histories: seq<seq<Item>>

    ghost predicate RingOk()
      reads this, pending
    {
      && pending.Length == RING && head < RING && count <= RING && |entries| == count
      && forall i :: 0 <= i < count ==> pending[Wrap(head + i)] == Some(entries[i])
    }

    ghost predicate Valid()
      reads this, pending
    {
      RingOk() && Coalesced(entries, histories)
    }

    constructor ()
      ensures Valid() && entries == [] && histories == [] && fresh(pending)
    {
      pending := new Option<Request>[RING](_ => None);
      head, count, entries, histories := 0, 0, [], [];
    }

    method Find(chat: nat) returns (offset: int)
      requires Valid()
      ensures offset == PlaceOf(entries, chat)
    {
      for i := 0 to count
        invariant forall j :: 0 <= j < i ==> entries[j].chat != chat
      {
        var index := (head + i) % RING;
        assert pending[Wrap(head + i)] == Some(entries[i]);
        if pending[index].value.chat == chat {
          return i;
        }
      }
      return -1;
    }

    /** Overwrites one entry in place. */
    method Store(offset: nat, r: Request, ghost history: seq<Item>)
      requires Valid() && offset < count && r.chat == entries[offset].chat && Holds(r, history)
      modifies this`entries, this`histories, pending
      ensures Valid() && entries == old(entries)[offset := r] && histories == old(histories)[offset := history]
    {
      CoalescedStore(entries, histories, offset, r, history);
      assert |entries| == |histories|;
      hide Coalesced, Holds;
      pending[(head + offset) % RING] := Some(r);
      entries, histories := entries[offset := r], histories[offset := history];
    }

    method Append(r: Request)
      requires Valid() && count < RING && Acceptable(r) && PlaceOf(entries, r.chat) < 0
      modifies this`count, this`entries, this`histories, pending
      ensures Valid() && entries == old(entries) + [r] && histories == old(histories) + [r.items]
    {
      CoalescedAppend(entries, histories, r);
      hide Coalesced, Acceptable, PlaceOf;
      pending[(head + count) % RING] := Some(r);
      count := count + 1;
      entries, histories := entries + [r], histories + [r.items];
    }

    /** A pending chat keeps its place and takes the new messages in; another chat
        goes last. A refusal changes nothing. */
    method Admit(running: bool, request: Request) returns (ok: bool)
      requires Valid()
      modifies this`count, this`entries, this`histories, pending
      ensures Valid()
      ensures var k := PlaceOf(old(entries), request.chat);
        && (ok <==> running && Acceptable(request) && if k >= 0 then old(entries)[k].group == request.group else old(count) < RING)
        && (!ok ==> entries == old(entries) && histories == old(histories))
        && (ok && k >= 0 ==> Merged(old(entries), entries, k, request) && histories == old(histories)[k := old(histories)[k] + request.items])
        && (ok && k < 0 ==> entries == old(entries) + [request] && histories == old(histories) + [request.items])
    {
      if !running || !Acceptable(request) {
        return false;
      }
      var offset := Find(request.chat);
      if offset >= 0 {
        ok := MergeAt(offset, request);
        return;
      }
      if count == RING {
        return false;
      }
      Append(request);
      return true;
    }

    /** Merges a request into the pending entry of its chat. */
    method MergeAt(offset: nat, request: Request) returns (ok: bool)
      requires Valid() && Acceptable(request) && offset < count && entries[offset].chat == request.chat
      modifies this`entries, this`histories, pending
      ensures Valid() && (ok <==> old(entries)[offset].group == request.group)
      ensures !ok ==> entries == old(entries) && histories == old(histories)
      ensures ok ==> Merged(old(entries), entries, offset, request)
      ensures ok ==> histories == old(histories)[offset := old(histories)[offset] + request.items]
    {
      assert pending[Wrap(head + offset)] == Some(entries[offset]);
      var existing := pending[(head + offset) % RING].value;
      assert Holds(existing, histories[offset]);
      var merged := Merge(existing, request);
      if merged.None? {
        return false;
      }
      MergedHolds(existing, histories[offset], request, merged.value);
      Store(offset, merged.value, histories[offset] + request.items);
      return true;
    }

    /** Chats leave in the order of their first admission. */
    method Take() returns (r: Option<Request>)
      requires Valid()
      modifies this, pending
      ensures Valid()
      ensures if old(entries) == [] then r == None && entries == [] && histories == old(histories)
              else r == Some(old(entries)[0]) && entries == old(entries)[1..] && histories == old(histories)[1..]
    {
      if count == 0 {
        return None;
      }
      assert pending[Wrap(head + 0)] == Some(entries[0]);
      r := pending[head];
      pending[head] := None;
      head := (head + 1) % RING;
      count := count - 1;
      entries, histories := entries[1..], histories[1..];
    }
  }

  /** Whatever was admitted in between and in whatever order, two entries with the
      same messages behind them are the same frontier. */
  lemma SameHistorySameEntry(a: Request, b: Request, ha: seq<Item>, hb: seq<Item>)
    requires Holds(a, ha) && Holds(b, hb) && KeptSendersAgree(ha) && SameItems(ha, hb)
    ensures Rows(a.items) == Rows(b.items)
  {
    AdmissionOrderExactly(ha);
  }
}
