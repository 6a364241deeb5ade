/** The in-memory filter of one conversation's history messages: an unordered buffer
    that holds the newest 50, sorted only at the end. */
module BootstrapMessages {
  import opened MessageWindow

  const MAX_BOOTSTRAP_MESSAGES: nat := 50

  /** The index of the oldest message. */
  function OldestOf(s: seq<Row>, n: nat): (o: nat)
    requires 0 < n <= |s|
    ensures o < n && forall i :: 0 <= i < n ==> !Older(s[i], s[o])
  {
    if n == 1 then 0 else
      var o := OldestOf(s, n - 1);
      if Older(s[n-1], s[o]) then n - 1 else o
  }

  /** The buffer after one candidate. */
  function Retained(s: seq<Row>, c: Row): seq<Row> {
    if HasId(s, c.id) then s
    else if |s| < MAX_BOOTSTRAP_MESSAGES then s + [c]
    else if Older(c, s[OldestOf(s, |s|)]) then s
    else s[OldestOf(s, |s|) := c]
  }

  method RetainNewestBootstrapMessage(messages: seq<Row>, candidate: Row) returns (kept: seq<Row>)
    ensures kept == Retained(messages, candidate)
  {
    for index := 0 to |messages|
      invariant forall j :: 0 <= j < index ==> messages[j].id != candidate.id
    {
      if messages[index].id == candidate.id {
        return messages;
      }
    }
    if |messages| < MAX_BOOTSTRAP_MESSAGES {
      return messages + [candidate];
    }
    var oldest := 0;
    for index := 1 to |messages|
      invariant oldest < index && oldest == OldestOf(messages, index)
    {
      if Older(messages[index], messages[oldest]) {
        oldest := index;
      }
    }
    if Older(candidate, messages[oldest]) {
      return messages;
    }
    return messages[oldest := candidate];
  }

  /** The buffer after a whole conversation. */
  function RetainedAll(ms: seq<Row>): seq<Row> {
    if ms == [] then [] else Retained(RetainedAll(ms[..|ms|-1]), ms[|ms|-1])
  }

  /** The same messages as an ordered window, in any order. */
  ghost predicate SameAs(s: seq<Row>, w: seq<Row>) {
    && |s| == |w| && DistinctIds(s)
    && (forall m :: m in s <==> m in w)
  }

  lemma SameIds(s: seq<Row>, w: seq<Row>, id: nat)
    requires SameAs(s, w)
    ensures HasId(s, id) <==> HasId(w, id)
  {
    if HasId(s, id) { var i :| 0 <= i < |s| && s[i].id == id; assert s[i] in w; }
    if HasId(w, id) { var i :| 0 <= i < |w| && w[i].id == id; assert w[i] in s; }
  }

  /** The oldest of the buffer is the first of the window. */
  lemma OldestIsFirst(s: seq<Row>, w: seq<Row>)
    requires SameAs(s, w) && Ascending(w) && Timed(w) && s != []
    ensures s[OldestOf(s, |s|)] == w[0]
  {
    var o := OldestOf(s, |s|);
    assert s[o] in w && w[0] in s;
    var i :| 0 <= i < |s| && s[i] == w[0];
    var j :| 0 <= j < |w| && w[j] == s[o];
  }

  /** Replacing the oldest leaves the window without its first message, plus the
      candidate. */
  lemma ReplacedMembers(s: seq<Row>, w: seq<Row>, c: Row, o: nat, m: Row)
    requires SameAs(s, w) && Ascending(w) && w != [] && o < |s| && s[o] == w[0] && !HasId(s, c.id)
    ensures m in s[o := c] <==> m in w[1..] || m == c
  {
    var t := s[o := c];
    TailMembers(w, m);
    if m in t && m != c {
      var i :| 0 <= i < |t| && t[i] == m;
      assert s[i] in s && s[i].id != s[o].id;
    }
    if m in w[1..] {
      var i :| 0 <= i < |s| && s[i] == m;
      assert t[i] == m;
    }
    assert t[o] == c;
  }

  /** One candidate keeps the buffer the same as the window of the same capacity. */
  lemma StepSame(s: seq<Row>, w: seq<Row>, c: Row)
    requires SameAs(s, w) && Ascending(w) && Timed(w) && c.sentAt != 0 && |w| <= MAX_BOOTSTRAP_MESSAGES
    ensures SameAs(Retained(s, c), Deliver(w, c, MAX_BOOTSTRAP_MESSAGES))
  {
    SameIds(s, w, c.id);
    if !HasId(w, c.id) {
      if |s| < MAX_BOOTSTRAP_MESSAGES {
        forall m ensures m in s + [c] <==> m in Inserted(w, c) { InsertedMembers(w, c, m); }
      } else {
        FullStep(s, w, c);
      }
    }
  }

  lemma FullStep(s: seq<Row>, w: seq<Row>, c: Row)
    requires SameAs(s, w) && Ascending(w) && Timed(w) && c.sentAt != 0 && |w| == MAX_BOOTSTRAP_MESSAGES
    requires !HasId(s, c.id) && !HasId(w, c.id)
    ensures SameAs(Retained(s, c), Last(Inserted(w, c), MAX_BOOTSTRAP_MESSAGES))
  {
    var o := OldestOf(s, |s|);
    OldestIsFirst(s, w);
    if Older(c, w[0]) {
      assert Position(w, c) == 0 && Inserted(w, c) == [c] + w;
    } else {
      assert Position(w, c) > 0;
      TailPosition(w, c);
      forall m ensures m in s[o := c] <==> m in Inserted(w, c)[1..] {
        ReplacedMembers(s, w, c, o, m);
        InsertedMembers(w[1..], c, m);
      }
    }
  }

  lemma TailPosition(w: seq<Row>, c: Row)
    requires w != [] && Position(w, c) > 0
    ensures Inserted(w, c)[1..] == Inserted(w[1..], c)
  {
    assert Position(w[1..], c) == Position(w, c) - 1;
  }

  /** After a whole conversation, whatever its order and repetitions, the buffer
      holds exactly the newest 50 messages. */
  lemma {:induction false} RetainedIsNewest(ms: seq<Row>)
    requires Timed(ms) && Consistent(ms)
    ensures SameAs(RetainedAll(ms), Last(Everything(ms), MAX_BOOTSTRAP_MESSAGES))
  {
    if ms != [] {
      var rest, c := ms[..|ms|-1], ms[|ms|-1];
      RetainedIsNewest(rest);
      EverythingIs(rest);
      WindowIsNewest(rest, MAX_BOOTSTRAP_MESSAGES);
      WindowIsNewest(ms, MAX_BOOTSTRAP_MESSAGES);
      StepSame(RetainedAll(rest), DeliverAll(rest, MAX_BOOTSTRAP_MESSAGES), c);
    }
  }
}
