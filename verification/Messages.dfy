/** Messages, their newest-first order, and paging through a chat. */
module Messages {
  import Sorting

  /** Text, quote and sender are opaque; 0 is the empty value. Time 0 is Go's zero
      time. */
  datatype Message = Message(chat: nat, id: nat, sentAt: int, fromMe: bool, bodyRetained: bool,
                             text: int, quote: int, sender: int, isGroup: bool, eligible: bool)
  {
    function WithoutBody(): Message { this.(text := 0, quote := 0, bodyRetained := false) }

    function Stored(): Message { this.(eligible := false) }

    predicate Valid() { sentAt != 0 }
  }

  type Rows = map<nat, Message>

  /** Newest first: by time, then by identifier. */
  predicate Newer(a: Message, b: Message) {
    a.sentAt > b.sentAt || (a.sentAt == b.sentAt && a.id > b.id)
  }

  predicate KeyedById(rows: Rows) {
    forall id :: id in rows ==> rows[id].id == id
  }

  ghost predicate Descending(s: seq<Message>) {
    forall i, j :: 0 <= i < j < |s| ==> Newer(s[i], s[j])
  }

  /** s holds exactly the given rows, newest first. */
  ghost predicate IsListing(s: seq<Message>, rows: Rows) {
    && Descending(s)
    && (forall i :: 0 <= i < |s| ==> s[i].id in rows && rows[s[i].id] == s[i])
    && (forall id :: id in rows ==> rows[id] in s)
  }

  lemma {:induction false} ListingUnique(s: seq<Message>, t: seq<Message>, rows: Rows)
    requires KeyedById(rows) && IsListing(s, rows) && IsListing(t, rows)
    ensures s == t
    decreases |s|
  {
    assert |t| > 0 ==> t[0].id in rows && rows[t[0].id] in s;
    assert |s| > 0 ==> s[0].id in rows && rows[s[0].id] in t;
    if s != [] {
      SameHead(s, t, rows);
      TailListing(s, rows);
      TailListing(t, rows);
      ListingUnique(s[1..], t[1..], rows - {s[0].id});
    }
  }

  lemma SameHead(s: seq<Message>, t: seq<Message>, rows: Rows)
    requires KeyedById(rows) && IsListing(s, rows) && IsListing(t, rows) && s != [] && t != []
    ensures s[0] == t[0]
  {
    assert rows[s[0].id] in t && rows[t[0].id] in s;
    var i :| 0 <= i < |s| && s[i] == t[0];
    var j :| 0 <= j < |t| && t[j] == s[0];
  }

  lemma TailListing(s: seq<Message>, rows: Rows)
    requires KeyedById(rows) && IsListing(s, rows) && s != []
    ensures IsListing(s[1..], rows - {s[0].id})
  {
    var rest := rows - {s[0].id};
    forall id | id in rest ensures rest[id] in s[1..] {
      var i :| 0 <= i < |s| && s[i] == rows[id];
      assert s[1..][i-1] == s[i];
    }
  }

  /** The rows of a snapshot in no particular order. */
  predicate DistinctIds(s: seq<Message>) {
    forall i, j :: 0 <= i < j < |s| ==> s[i].id != s[j].id
  }

  method SortNewest(work: seq<Message>) returns (s: seq<Message>)
    requires DistinctIds(work)
    ensures Descending(s) && multiset(s) == multiset(work)
  {
    s := Sorting.Sort(work, Newer);
  }

  /** A chat's rows collected in the order the map yields them. */
  method Collect(rows: Rows) returns (s: seq<Message>)
    requires KeyedById(rows)
    ensures DistinctIds(s)
    ensures forall i :: 0 <= i < |s| ==> s[i].id in rows && rows[s[i].id] == s[i]
    ensures forall id :: id in rows ==> rows[id] in s
    ensures |s| == |rows|
  {
    s := [];
    var left := rows;
    while |left| > 0
      invariant left.Keys <= rows.Keys && |s| + |left| == |rows|
      invariant forall id :: id in left ==> left[id] == rows[id]
      invariant DistinctIds(s)
      invariant forall i :: 0 <= i < |s| ==> s[i].id in rows && s[i].id !in left && rows[s[i].id] == s[i]
      invariant forall id :: id in rows && id !in left ==> rows[id] in s
    {
      HasKey(left);
      var id :| id in left;
      s := s + [left[id]];
      left := left - {id};
    }
  }

  lemma HasKey(rows: Rows)
    ensures rows != map[] <==> exists id: nat :: id in rows
  {
  }

  // ---- paging

  datatype Cursor = NoCursor | At(sentAt: int, id: nat)

  predicate OlderThan(m: Message, cursor: Cursor) {
    cursor.At? ==> m.sentAt < cursor.sentAt || (m.sentAt == cursor.sentAt && m.id < cursor.id)
  }

  function Older(rows: Rows, cursor: Cursor): Rows {
    map id | id in rows && OlderThan(rows[id], cursor) :: rows[id]
  }

  const MAX_PAGE: nat := 100

  function PageLimit(limit: nat): nat { if limit > MAX_PAGE then MAX_PAGE else limit }

  datatype PageResult = PageRejected | Page(rows: seq<Message>, next: Cursor)

  /** One page: the newest rows older than the cursor, and where to continue when
      more are left. */
  ghost predicate IsPage(rows: Rows, cursor: Cursor, limit: int, r: PageResult) {
    if limit <= 0 then r == PageRejected else
      exists s :: IsListing(s, Older(rows, cursor)) && r == Cut(s, limit)
  }

  function Cut(s: seq<Message>, limit: int): PageResult
    requires limit > 0
  {
    var n := PageLimit(limit);
    if |s| > n then Page(s[..n], At(s[n-1].sentAt, s[n-1].id)) else Page(s, NoCursor)
  }

  method ReadPage(rows: Rows, cursor: Cursor, limit: int) returns (r: PageResult)
    requires KeyedById(rows)
    ensures IsPage(rows, cursor, limit, r)
    ensures r.PageRejected? <==> limit <= 0
    ensures limit > 0 ==> var left := |Older(rows, cursor)|;
              && |r.rows| == (if left <= limit && left <= 100 then left else if limit <= 100 then limit else 100)
              && r.next == if left == |r.rows| then NoCursor else At(r.rows[|r.rows|-1].sentAt, r.rows[|r.rows|-1].id)
  {
    if limit <= 0 {
      return PageRejected;
    }
    var s := Collect(Older(rows, cursor));
    var ordered := SortNewest(s);
    SortedIsPage(s, ordered, rows, cursor, limit);
    hide Descending, DistinctIds, Older, IsPage;
    return Cut(ordered, limit);
  }

  lemma SortedIsPage(s: seq<Message>, t: seq<Message>, rows: Rows, cursor: Cursor, limit: int)
    requires Descending(t) && multiset(t) == multiset(s) && |s| == |Older(rows, cursor)| && limit > 0
    requires forall i :: 0 <= i < |s| ==> s[i].id in Older(rows, cursor) && Older(rows, cursor)[s[i].id] == s[i]
    requires forall id :: id in Older(rows, cursor) ==> Older(rows, cursor)[id] in s
    ensures IsPage(rows, cursor, limit, Cut(t, limit)) && |t| == |s|
  {
    assert |multiset(t)| == |multiset(s)|;
    hide Older;
    SortedIsListing(s, t, Older(rows, cursor));
  }

  lemma SortedIsListing(s: seq<Message>, t: seq<Message>, rows: Rows)
    requires Descending(t) && multiset(t) == multiset(s)
    requires forall i :: 0 <= i < |s| ==> s[i].id in rows && rows[s[i].id] == s[i]
    requires forall id :: id in rows ==> rows[id] in s
    ensures IsListing(t, rows)
  {
    forall i | 0 <= i < |t| ensures t[i].id in rows && rows[t[i].id] == t[i] {
      assert t[i] in multiset(t);
      assert t[i] in s;
    }
    forall id | id in rows ensures rows[id] in t {
      assert rows[id] in multiset(s);
    }
  }

  /** What a reader sees who follows the returned cursors to the end. */
  ghost predicate IsWalk(rows: Rows, cursor: Cursor, limit: int, pages: seq<seq<Message>>)
    decreases |pages|
  {
    pages != [] && exists next ::
      && IsPage(rows, cursor, limit, Page(pages[0], next))
      && (if next.NoCursor? then |pages| == 1 else IsWalk(rows, next, limit, pages[1..]))
  }

  function Concat(pages: seq<seq<Message>>): seq<Message> {
    if pages == [] then [] else pages[0] + Concat(pages[1..])
  }

  /** Continuing after the first n rows of a listing lists the rest. */
  lemma RestListing(s: seq<Message>, rows: Rows, cursor: Cursor, n: nat)
    requires KeyedById(rows) && IsListing(s, Older(rows, cursor)) && 0 < n <= |s|
    ensures IsListing(s[n..], Older(rows, At(s[n-1].sentAt, s[n-1].id)))
  {
    var rest := Older(rows, At(s[n-1].sentAt, s[n-1].id));
    forall i | n <= i < |s| ensures s[i].id in rest && rest[s[i].id] == s[i] {
      assert Newer(s[n-1], s[i]);
    }
    forall id | id in rest ensures rest[id] in s[n..] {
      assert id in Older(rows, cursor);
      var i :| 0 <= i < |s| && s[i] == rows[id];
      assert s[n..][i-n] == s[i];
    }
  }

  lemma OlderKeyed(rows: Rows, cursor: Cursor)
    requires KeyedById(rows)
    ensures KeyedById(Older(rows, cursor))
  {
  }

  lemma FrontThenRest(rows: Rows, cursor: Cursor, s: seq<Message>, n: nat, rest: seq<Message>)
    requires KeyedById(rows) && IsListing(s, Older(rows, cursor)) && 0 < n <= |s|
    requires IsListing(rest, Older(rows, At(s[n-1].sentAt, s[n-1].id)))
    ensures rest == s[n..]
  {
    var next := At(s[n-1].sentAt, s[n-1].id);
    RestListing(s, rows, cursor, n);
    OlderKeyed(rows, next);
    ListingUnique(rest, s[n..], Older(rows, next));
  }

  lemma PageThenRest(rows: Rows, cursor: Cursor, limit: int, s: seq<Message>, rest: seq<Message>)
    requires KeyedById(rows) && limit > 0 && IsListing(s, Older(rows, cursor))
    requires var r := Cut(s, limit); r.next.At? && IsListing(rest, Older(rows, r.next))
    ensures s == Cut(s, limit).rows + rest
  {
    FrontThenRest(rows, cursor, s, PageLimit(limit), rest);
  }

  /** Every completed walk returns every row exactly once, newest first. */
  lemma {:induction false} WalkListsAll(rows: Rows, cursor: Cursor, limit: int, pages: seq<seq<Message>>)
    requires KeyedById(rows) && limit > 0 && IsWalk(rows, cursor, limit, pages)
    ensures IsListing(Concat(pages), Older(rows, cursor))
    decreases |pages|
  {
    var next :| IsPage(rows, cursor, limit, Page(pages[0], next)) &&
                (if next.NoCursor? then |pages| == 1 else IsWalk(rows, next, limit, pages[1..]));
    var s :| IsListing(s, Older(rows, cursor)) && Page(pages[0], next) == Cut(s, limit);
    if next.NoCursor? {
      assert pages[1..] == [];
      assert Concat(pages) == s;
    } else {
      WalkListsAll(rows, next, limit, pages[1..]);
      PageThenRest(rows, cursor, limit, s, Concat(pages[1..]));
    }
  }

  lemma WalkStep(rows: Rows, cursor: Cursor, limit: int, r: PageResult, rest: seq<seq<Message>>)
    requires r.Page? && IsPage(rows, cursor, limit, r)
    requires r.next.At? && IsWalk(rows, r.next, limit, rest)
    ensures IsWalk(rows, cursor, limit, [r.rows] + rest)
  {
    var pages := [r.rows] + rest;
    assert pages[1..] == rest && pages[0] == r.rows;
    assert IsPage(rows, cursor, limit, Page(pages[0], r.next));
  }

  /** Following the cursors terminates: the walk over a listing exists. */
  lemma {:induction false} WalkExists(rows: Rows, cursor: Cursor, limit: int, s: seq<Message>) returns (pages: seq<seq<Message>>)
    requires KeyedById(rows) && limit > 0 && IsListing(s, Older(rows, cursor))
    ensures IsWalk(rows, cursor, limit, pages)
    decreases |s|
  {
    var r := Cut(s, limit);
    assert IsPage(rows, cursor, limit, r);
    if r.next.NoCursor? {
      pages := [r.rows];
      assert IsPage(rows, cursor, limit, Page(pages[0], r.next));
    } else {
      var n := PageLimit(limit);
      RestListing(s, rows, cursor, n);
      var rest := WalkExists(rows, r.next, limit, s[n..]);
      WalkStep(rows, cursor, limit, r, rest);
      pages := [r.rows] + rest;
    }
  }

  lemma {:induction false} ListingExists(rows: Rows) returns (s: seq<Message>)
    requires KeyedById(rows)
    ensures IsListing(s, rows)
    decreases |rows|
  {
    HasKey(rows);
    if rows == map[] {
      s := [];
    } else {
      var id :| id in rows;
      var m, rest := rows[id], rows - {id};
      assert rows == rest[id := m];
      s := ListingExists(rest);
      var p := Sorting.PlaceFor(s, Newer, m, |s|);
      Sorting.InsertedInOrder(s, Newer, p, m);
      ListingWith(s, rest, p, m);
      s := s[..p] + [m] + s[p..];
    }
  }

  lemma ListingWith(s: seq<Message>, rest: Rows, p: nat, m: Message)
    requires IsListing(s, rest) && p <= |s| && m.id !in rest
    requires Descending(s[..p] + [m] + s[p..])
    ensures IsListing(s[..p] + [m] + s[p..], rest[m.id := m])
  {
    var t := s[..p] + [m] + s[p..];
    assert t[p] == m;
    forall id | id in rest ensures rest[id] in t {
      var i :| 0 <= i < |s| && s[i] == rest[id];
      assert t[if i < p then i else i + 1] == s[i];
    }
  }

  /** From no cursor and for every positive limit, following the cursors ends and
      the pages together are the whole chat, each row once, newest first. */
  lemma PagesCoverChat(rows: Rows, limit: int) returns (pages: seq<seq<Message>>)
    requires KeyedById(rows) && limit > 0
    ensures IsWalk(rows, NoCursor, limit, pages)
    ensures IsListing(Concat(pages), rows)
  {
    assert Older(rows, NoCursor) == rows;
    var s := ListingExists(rows);
    pages := WalkExists(rows, NoCursor, limit, s);
    WalkListsAll(rows, NoCursor, limit, pages);
  }
}
