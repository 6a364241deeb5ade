/** Loading older history: the page worker reads the cached page behind the oldest
    message on screen and turns it around, and the window takes it in. */
module OlderHistory {
  import S = Messages
  import W = MessageWindow

  /** A stored message as it is shown. */
  function Shown(m: S.Message): W.Row
    requires m.sentAt > 0
  {
    W.Row(m.id, m.sentAt, m.text)
  }

  /** Every message has an identifier and a time. */
  predicate Named(s: seq<S.Message>) { forall i :: 0 <= i < |s| ==> s[i].sentAt > 0 && s[i].id != 0 }

  /** And no identifier occurs twice. */
  predicate Showable(s: seq<S.Message>) { Named(s) && S.DistinctIds(s) }

  /** A listing, newest first, as a window, oldest first. */
  function Screen(s: seq<S.Message>): (w: seq<W.Row>)
    requires Showable(s)
    ensures |w| == |s| && forall i :: 0 <= i < |w| ==> w[i] == Shown(s[|s|-1-i])
  {
    seq(|s|, i requires 0 <= i < |s| => Shown(s[|s|-1-i]))
  }

  lemma PartIsShowable(s: seq<S.Message>, from: nat, to: nat)
    requires Showable(s) && from <= to <= |s|
    ensures Showable(s[from..to])
  {
  }

  /** The store's order turned around is the window's. */
  lemma ScreenAscends(s: seq<S.Message>)
    requires Showable(s) && S.Descending(s)
    ensures W.Ascending(Screen(s)) && W.Timed(Screen(s)) && W.DistinctIds(Screen(s))
  {
    forall i, j | 0 <= i < j < |s| ensures W.Before(Screen(s)[i], Screen(s)[j]) {
      assert S.Newer(s[|s|-1-j], s[|s|-1-i]);
    }
  }

  lemma ListingIsShowable(s: seq<S.Message>, rows: S.Rows)
    requires S.KeyedById(rows) && S.IsListing(s, rows) && Named(s)
    ensures Showable(s)
  {
    forall i, j | 0 <= i < j < |s| ensures s[i].id != s[j].id { assert S.Newer(s[i], s[j]); }
  }

  /** A page of the rows behind the first n of a chat is the next part of its listing. */
  lemma PageIsNext(rows: S.Rows, all: seq<S.Message>, n: nat, count: int, r: S.PageResult)
    requires S.KeyedById(rows) && S.IsListing(all, rows) && 0 < n <= |all| && 0 < count <= 50
    requires S.IsPage(rows, S.At(all[n-1].sentAt, all[n-1].id), count, r)
    ensures r.Page? && r.rows == all[n..n + Least(count, |all| - n)] && S.Descending(all)
  {
    var next := S.At(all[n-1].sentAt, all[n-1].id);
    var rest :| S.IsListing(rest, S.Older(rows, next)) && r == S.Cut(rest, count);
    assert S.Older(rows, S.NoCursor) == rows;
    S.FrontThenRest(rows, S.NoCursor, all, n, rest);
  }

  function Least(a: nat, b: nat): (r: nat)
    ensures r <= a && r <= b && (r == a || r == b)
  {
    if a < b then a else b
  }

  /** Two parts of a listing, one behind the other, turned around. */
  lemma ScreenJoins(all: seq<S.Message>, n: nat, k: nat)
    requires Showable(all) && n <= n + k <= |all|
    ensures Showable(all[..n]) && Showable(all[n..n+k]) && Showable(all[..n+k])
    ensures Screen(all[n..n+k]) + Screen(all[..n]) == Screen(all[..n+k])
  {
    PartIsShowable(all, 0, n);
    PartIsShowable(all, n, n + k);
    PartIsShowable(all, 0, n + k);
  }

  /** The front of an ascending window goes in front of the rest. */
  lemma FrontJoins(page: seq<W.Row>, s: seq<W.Row>)
    requires s != [] && W.Ascending(page + s) && W.Timed(page + s) && W.DistinctIds(page + s)
    requires forall i :: 0 <= i < |page| ==> page[i].id != 0
    ensures W.Joinable(page, s) && W.ValidPage(page, s[0])
    ensures forall i :: 0 <= i < |page| ==> !W.HasId(s, page[i].id)
  {
    var both := page + s;
    assert forall i :: 0 <= i < |page| ==> both[i] == page[i];
    assert forall j :: 0 <= j < |s| ==> both[|page| + j] == s[j];
    forall i | 0 <= i < |page| ensures W.Before(page[i], s[0]) && W.Older(page[i], s[0]) {
      assert W.Before(both[i], both[|page|]);
    }
    forall i | 0 < i < |page| ensures !W.Older(page[i], page[i-1]) { assert W.Before(both[i-1], both[i]); }
  }

  /** A page of the listing, turned around, passes the window's checks and goes in front. */
  lemma NextFits(all: seq<S.Message>, n: nat, k: nat)
    requires Showable(all) && S.Descending(all) && 0 < n <= n + k <= |all|
    ensures Showable(all[..n]) && Showable(all[n..n+k]) && Showable(all[..n+k])
    ensures var s, page := Screen(all[..n]), Screen(all[n..n+k]);
      W.ValidPage(page, s[0]) && W.Joinable(page, s) && page + s == Screen(all[..n+k])
      && forall i :: 0 <= i < k ==> !W.HasId(s, page[i].id)
  {
    ScreenJoins(all, n, k);
    ScreenAscends(all[..n+k]);
    hide S.Descending;
    var page := Screen(all[n..n+k]);
    assert forall i :: 0 <= i < k ==> page[i].id != 0;
    hide Showable, W.Ascending, W.DistinctIds, W.Timed;
    FrontJoins(page, Screen(all[..n]));
  }

  lemma {:induction false} AllFresh(page: seq<W.Row>, s: seq<W.Row>)
    requires forall i :: 0 <= i < |page| ==> !W.HasId(s, page[i].id)
    ensures W.Fresh(page, s) == page
  {
    if page != [] { AllFresh(page[..|page|-1], s); }
  }

  lemma ScreenEnds(all: seq<S.Message>, n: nat, capacity: nat)
    requires Showable(all) && n <= |all|
    ensures Showable(all[..n]) && Showable(all[..Least(n, capacity)])
    ensures W.Last(Screen(all[..n]), capacity) == Screen(all[..Least(n, capacity)])
  {
    PartIsShowable(all, 0, n);
    PartIsShowable(all, 0, Least(n, capacity));
    hide Showable;
    if n > capacity { ScreenJoins(all, capacity, n - capacity); }
  }

  /** A screen that shows the newest n messages of a chat asks for what is behind its
      oldest one. The page it gets passes its checks, and then it shows the newest
      messages still: as many more as were asked for and stored, within its capacity. */
  lemma OlderPageContinues(rows: S.Rows, all: seq<S.Message>, n: nat, count: int, capacity: nat, r: S.PageResult)
    requires S.KeyedById(rows) && S.IsListing(all, rows) && Named(all) && 0 < n <= |all| && n <= capacity
    requires 0 < count <= 50 && S.IsPage(rows, S.At(all[n-1].sentAt, all[n-1].id), count, r)
    ensures var more := Least(count, |all| - n);
      && r.Page? && |r.rows| == more && Showable(r.rows) && Showable(all[..n]) && Showable(all[..Least(n + more, capacity)])
      && var s, page := Screen(all[..n]), Screen(r.rows);
         && W.ValidPage(page, s[0])
         && W.AddPage(s, page, capacity) == Screen(all[..Least(n + more, capacity)])
         && W.Added(s, page, capacity) == Least(more, capacity - n)
  {
    hide *;
    ListingIsShowable(all, rows);
    var more := Least(count, |all| - n);
    PageIsNext(rows, all, n, count, r);
    NextFits(all, n, more);
    ScreenEnds(all, n + more, capacity);
    var s, page := Screen(all[..n]), Screen(r.rows);
    AllFresh(page, s);
    W.PageGoesInFront(s, page, capacity);
    W.AddedIsGrowth(s, page, capacity);
  }
}
