/** The in-memory message store: rows by chat and identifier, chat counters and
    one paging anchor per chat. */
module Store {
  import opened Messages
  import opened Wrappers

  const MAX_UINT32: nat := 0xFFFF_FFFF
  const MAX_SNAPSHOT_SUMMARIES: nat := 551
  const MAX_WRITE_BATCH: nat := 50

  datatype Anchor = Anchor(id: nat, sentAt: int, fromMe: bool)

  datatype Chat = Chat(unread: nat, lastMessageAt: int, isGroup: bool)

  const PLACEHOLDER := Chat(0, 0, false)

  datatype ChatState = ChatState(chat: Chat, messages: Rows, anchor: Option<Anchor>)

  type Chats = map<nat, ChatState>

  datatype Origin = Realtime | History

  datatype LiveEvent = LiveEvent(message: Message, unread: nat, activity: int)

  datatype WriteResult = Rejected | CapacityExceeded | Written(events: seq<LiveEvent>)

  predicate WellFormed(chats: Chats) {
    forall c, id :: c in chats && id in chats[c].messages ==>
                      var m := chats[c].messages[id]; m.chat == c && m.id == id && m.Valid() && !m.eligible
  }

  function RowsOf(chats: Chats, c: nat): Rows {
    if c in chats then chats[c].messages else map[]
  }

  function ChatOf(chats: Chats, c: nat): Chat {
    if c in chats then chats[c].chat else PLACEHOLDER
  }

  // ---- staging a batch

  /** A duplicate of a stored or staged message. */
  function Merge(prior: Message, message: Message): Message {
    var eligible := message.(eligible := prior.eligible);
    var body := if prior.bodyRetained && !eligible.bodyRetained then prior else eligible;
    var quoted := if prior.quote != 0 then body.(quote := prior.quote) else body;
    quoted.(sender := if prior.sender != 0 then prior.sender else quoted.sender,
            isGroup := quoted.isGroup || prior.isGroup)
  }

  datatype Key = Key(chat: nat, id: nat)

  function KeyOf(m: Message): Key { Key(m.chat, m.id) }

  datatype Staging = Conflict | Staged(rows: map<Key, Message>, inserted: seq<bool>)

  function StoredAt(chats: Chats, k: Key): Option<Message> {
    if k.id in RowsOf(chats, k.chat) then Some(RowsOf(chats, k.chat)[k.id]) else None
  }

  function Lookup(chats: Chats, rows: map<Key, Message>, k: Key): Option<Message> {
    if k in rows then Some(rows[k]) else StoredAt(chats, k)
  }

  /** One row of the batch applied to what the store holds for its identifier. */
  function Offer(prior: Option<Message>, m: Message): Option<Message> {
    if prior.None? then Some(m)
    else if prior.value.sentAt != m.sentAt || prior.value.fromMe != m.fromMe then None
    else Some(Merge(prior.value, m))
  }

  function KeysOf(batch: seq<Message>): set<Key> { set m | m in batch :: KeyOf(m) }

  lemma KeysOfLast(batch: seq<Message>)
    requires batch != []
    ensures KeysOf(batch) == KeysOf(batch[..|batch|-1]) + {KeyOf(batch[|batch|-1])}
  {
    assert batch == batch[..|batch|-1] + [batch[|batch|-1]];
  }

  function Stage(chats: Chats, batch: seq<Message>): (s: Staging)
    ensures s.Staged? ==> |s.inserted| == |batch| && s.rows.Keys == KeysOf(batch)
  {
    if batch == [] then Staged(map[], []) else
      KeysOfLast(batch);
      var s := Stage(chats, batch[..|batch|-1]);
      if s.Conflict? then Conflict else
        var m := batch[|batch|-1];
        var prior := Lookup(chats, s.rows, KeyOf(m));
        var next := Offer(prior, m);
        if next.None? then Conflict else Staged(s.rows[KeyOf(m) := next.value], s.inserted + [prior.None?])
  }

  // ---- the chat counters

  function Later(last: int, sentAt: int): int {
    if last == 0 || sentAt > last then sentAt else last
  }

  function Advance(chat: Chat, m: Message, countUnread: bool): Chat {
    Chat(if countUnread && !m.fromMe && chat.unread < MAX_UINT32 then chat.unread + 1 else chat.unread,
         Later(chat.lastMessageAt, m.sentAt),
         chat.isGroup || m.isGroup)
  }

  /** The chat's counters after the rows inserted by a batch. */
  function Counted(chat: Chat, c: nat, batch: seq<Message>, inserted: seq<bool>, countUnread: bool): Chat
    requires |inserted| == |batch|
  {
    if batch == [] then chat else
      var n := |batch| - 1;
      var prior := Counted(chat, c, batch[..n], inserted[..n], countUnread);
      if inserted[n] && batch[n].chat == c then Advance(prior, batch[n], countUnread) else prior
  }

  function Events(chats: Chats, rows: map<Key, Message>, batch: seq<Message>, inserted: seq<bool>): seq<LiveEvent>
    requires |inserted| == |batch|
    requires KeysOf(batch) <= rows.Keys
  {
    if batch == [] then [] else
      var n := |batch| - 1;
      var m := batch[n];
      KeysOfLast(batch);
      var prior := Events(chats, rows, batch[..n], inserted[..n]);
      if !inserted[n] then prior else
        var chat := Counted(ChatOf(chats, m.chat), m.chat, batch, inserted, true);
        prior + [LiveEvent(rows[KeyOf(m)], chat.unread, chat.lastMessageAt)]
  }

  // ---- the committed state

  function Touched(batch: seq<Message>): set<nat> { set m | m in batch :: m.chat }

  function NewRows(rows: map<Key, Message>, c: nat): Rows {
    map k | k in rows && k.chat == c :: k.id := rows[k].Stored()
  }

  function Committed(chats: Chats, s: Staging, batch: seq<Message>, countUnread: bool): Chats
    requires s.Staged? && |s.inserted| == |batch|
  {
    map c | c in chats.Keys + Touched(batch) ::
      ChatState(Counted(ChatOf(chats, c), c, batch, s.inserted, countUnread),
                RowsOf(chats, c) + NewRows(s.rows, c),
                if c in chats then chats[c].anchor else None)
  }

  predicate FitsChats(chats: Chats, batch: seq<Message>, maxChats: nat) {
    |chats.Keys + Touched(batch)| <= maxChats
  }

  predicate FitsRows(chats: Chats, s: Staging, batch: seq<Message>)
    requires s.Staged?
  {
    forall c :: c in Touched(batch) ==> |RowsOf(chats, c) + NewRows(s.rows, c)| <= MAX_SNAPSHOT_SUMMARIES
  }

  function WriteOutcome(chats: Chats, maxChats: nat, batch: seq<Message>, emitLive: bool): WriteResult {
    var s := Stage(chats, batch);
    if s.Conflict? then Rejected
    else if !FitsChats(chats, batch, maxChats) || !FitsRows(chats, s, batch) then CapacityExceeded
    else
      Written(if emitLive then Events(chats, s.rows, batch, s.inserted) else [])
  }

  // ---- what staging means, identifier by identifier

  /** The merge of every row of the batch with one identifier, in order. */
  function Fold(prior: Option<Message>, batch: seq<Message>, k: Key): Option<Message> {
    if batch == [] then prior else
      var before := Fold(prior, batch[..|batch|-1], k);
      var m := batch[|batch|-1];
      if KeyOf(m) != k then before else if before.None? then Some(m) else Some(Merge(before.value, m))
  }

  // ---- what merging leaves, without the merge

  /** The rows of one identifier in order: the stored one, then those of the batch. */
  function RowsFor(prior: Option<Message>, batch: seq<Message>, k: Key): seq<Message> {
    if batch == [] then if prior.Some? then [prior.value] else [] else
      var m := batch[|batch|-1];
      RowsFor(prior, batch[..|batch|-1], k) + if KeyOf(m) == k then [m] else []
  }

  /** A row tells about its message when it has the body, or none before it had. */
  ghost predicate Tells(rows: seq<Message>, i: nat) {
    i < |rows| && (rows[i].bodyRetained || forall j :: 0 <= j < i ==> !rows[j].bodyRetained)
  }

  datatype Field = Quote | Sender {
    function Of(m: Message): int { if this.Quote? then m.quote else m.sender }
  }

  /** Position i is the first telling row with something in a field. */
  ghost predicate FirstTelling(rows: seq<Message>, field: Field, i: nat) {
    Tells(rows, i) && field.Of(rows[i]) != 0 && forall j: nat :: j < i && Tells(rows, j) ==> field.Of(rows[j]) == 0
  }

  /** The value is the first one that a telling row has, and 0 when none has any. */
  ghost predicate IsFirst(rows: seq<Message>, field: Field, value: int) {
    if value == 0 then forall i: nat :: Tells(rows, i) ==> field.Of(rows[i]) == 0
    else exists i: nat :: FirstTelling(rows, field, i) && field.Of(rows[i]) == value
  }

  ghost predicate IsLastTelling(rows: seq<Message>, i: nat) {
    Tells(rows, i) && forall j: nat :: i < j ==> !Tells(rows, j)
  }

  predicate AnyBody(rows: seq<Message>) { exists r :: r in rows && r.bodyRetained }

  ghost predicate AnyGroup(rows: seq<Message>) { exists i: nat :: Tells(rows, i) && rows[i].isGroup }

  ghost predicate LastText(rows: seq<Message>, text: int) { exists i: nat :: IsLastTelling(rows, i) && text == rows[i].text }

  /** What the rows of one identifier leave: the body if any of them had it, and the text
      of the last row that tells; quote and sender of the first that tells one; the group
      mark of any that tells it. */
  ghost predicate Sums(rows: seq<Message>, m: Message) {
    && rows != [] && KeyOf(m) == KeyOf(rows[0]) && Same(m, rows[0])
    && (m.bodyRetained <==> AnyBody(rows)) && LastText(rows, m.text)
    && IsFirst(rows, Quote, m.quote) && IsFirst(rows, Sender, m.sender)
    && (m.isGroup <==> AnyGroup(rows))
  }

  /** Rows with one identifier never disagree on time or direction. */
  ghost predicate Agree(chats: Chats, batch: seq<Message>) {
    && (forall m :: m in batch && StoredAt(chats, KeyOf(m)).Some? ==> Same(StoredAt(chats, KeyOf(m)).value, m))
    && (forall m, n :: m in batch && n in batch && KeyOf(m) == KeyOf(n) ==> Same(m, n))
  }

  predicate Same(a: Message, b: Message) { a.sentAt == b.sentAt && a.fromMe == b.fromMe }

  predicate FirstSeen(chats: Chats, batch: seq<Message>, i: nat)
    requires i < |batch|
  {
    StoredAt(chats, KeyOf(batch[i])).None? && forall j :: 0 <= j < i ==> KeyOf(batch[j]) != KeyOf(batch[i])
  }

  lemma {:induction false} FoldSame(prior: Option<Message>, batch: seq<Message>, k: Key)
    requires prior.Some? ==> forall m :: m in batch && KeyOf(m) == k ==> Same(prior.value, m)
    requires forall m, n :: m in batch && n in batch && KeyOf(m) == k && KeyOf(n) == k ==> Same(m, n)
    ensures var f := Fold(prior, batch, k);
            && (f.Some? <==> prior.Some? || exists m :: m in batch && KeyOf(m) == k)
            && (f.Some? && prior.Some? ==> Same(prior.value, f.value))
            && (f.Some? ==> forall m :: m in batch && KeyOf(m) == k ==> Same(f.value, m))
            && (f.Some? && (prior.Some? ==> KeyOf(prior.value) == k) ==> KeyOf(f.value) == k)
  {
    if batch != [] {
      var p, m := batch[..|batch|-1], batch[|batch|-1];
      assert batch == p + [m];
      assert forall x :: x in batch <==> x in p || x == m;
      FoldSame(prior, p, k);
    }
  }

  lemma TellsFront(rows: seq<Message>, m: Message, i: nat)
    ensures i < |rows| ==> (Tells(rows + [m], i) <==> Tells(rows, i))
    ensures Tells(rows + [m], |rows|) <==> m.bodyRetained || forall r :: r in rows ==> !r.bodyRetained
  {
    var all := rows + [m];
    assert forall j :: 0 <= j < |rows| ==> all[j] == rows[j];
    if forall j :: 0 <= j < |rows| ==> !all[j].bodyRetained {
      assert forall r :: r in rows ==> !r.bodyRetained;
    } else {
      var j :| 0 <= j < |rows| && all[j].bodyRetained;
      assert rows[j] in rows;
    }
  }

  lemma FirstStays(rows: seq<Message>, m: Message, field: Field, value: int)
    requires IsFirst(rows, field, value)
    ensures IsFirst(rows + [m], field, if value != 0 then value else if Tells(rows + [m], |rows|) then field.Of(m) else 0)
  {
    var all := rows + [m];
    forall i: nat | i < |rows| ensures all[i] == rows[i] && (Tells(all, i) <==> Tells(rows, i)) { TellsFront(rows, m, i); }
    if value != 0 {
      var i: nat :| FirstTelling(rows, field, i) && field.Of(rows[i]) == value;
      assert FirstTelling(all, field, i);
    } else if Tells(all, |rows|) && field.Of(m) != 0 {
      assert FirstTelling(all, field, |rows|);
    }
  }

  lemma BodyStays(rows: seq<Message>, m: Message)
    ensures AnyBody(rows + [m]) <==> AnyBody(rows) || m.bodyRetained
    ensures Tells(rows + [m], |rows|) <==> m.bodyRetained || !AnyBody(rows)
  {
    var all := rows + [m];
    assert all[|rows|] == m;
    TellsFront(rows, m, |rows|);
    if AnyBody(rows) {
      var r :| r in rows && r.bodyRetained;
      assert r in all;
    }
  }

  lemma GroupStays(rows: seq<Message>, m: Message)
    ensures AnyGroup(rows + [m]) <==> AnyGroup(rows) || (Tells(rows + [m], |rows|) && m.isGroup)
  {
    var all := rows + [m];
    forall i: nat | i < |rows| ensures all[i] == rows[i] && (Tells(all, i) <==> Tells(rows, i)) { TellsFront(rows, m, i); }
    if AnyGroup(rows) {
      var j: nat :| Tells(rows, j) && rows[j].isGroup;
      assert Tells(all, j);
    }
  }

  lemma TextStays(rows: seq<Message>, m: Message, text: int)
    requires LastText(rows, text)
    ensures LastText(rows + [m], if Tells(rows + [m], |rows|) then m.text else text)
  {
    var all := rows + [m];
    forall i: nat | i < |rows| ensures all[i] == rows[i] && (Tells(all, i) <==> Tells(rows, i)) { TellsFront(rows, m, i); }
    var i: nat :| IsLastTelling(rows, i) && text == rows[i].text;
    assert IsLastTelling(all, if Tells(all, |rows|) then |rows| else i);
  }

  /** One more row. */
  lemma MergeSums(rows: seq<Message>, prior: Message, m: Message)
    requires Sums(rows, prior) && KeyOf(m) == KeyOf(prior) && Same(prior, m)
    ensures Sums(rows + [m], Merge(prior, m))
  {
    FirstStays(rows, m, Quote, prior.quote);
    FirstStays(rows, m, Sender, prior.sender);
    BodyStays(rows, m);
    GroupStays(rows, m);
    TextStays(rows, m, prior.text);
    hide Tells, IsFirst, AnyBody, AnyGroup, LastText;
  }

  lemma OneSums(m: Message)
    ensures Sums([m], m)
  {
    assert Tells([m], 0) && IsLastTelling([m], 0);
    assert m.quote != 0 ==> FirstTelling([m], Quote, 0);
    assert m.sender != 0 ==> FirstTelling([m], Sender, 0);
    assert [m][0] == m;
    assert m in [m];
  }

  /** The fold is what the rows tell, with the eligibility of the first. */
  ghost predicate FoldSums(f: Option<Message>, rows: seq<Message>) {
    (f.Some? <==> rows != []) && (f.Some? ==> Sums(rows, f.value) && f.value.eligible == rows[0].eligible)
  }

  lemma SumsLast(f: Option<Message>, rows: seq<Message>, m: Message)
    requires FoldSums(f, rows) && (f.Some? ==> Same(f.value, m) && KeyOf(f.value) == KeyOf(m))
    ensures FoldSums(Some(if f.Some? then Merge(f.value, m) else m), rows + [m])
  {
    if f.Some? { MergeSums(rows, f.value, m); } else { OneSums(m); assert rows + [m] == [m]; }
    hide Sums;
  }

  /** Folding the merge over rows that agree on time and direction. */
  lemma {:induction false} FoldMeans(prior: Option<Message>, batch: seq<Message>, k: Key)
    requires prior.Some? ==> KeyOf(prior.value) == k && forall m :: m in batch && KeyOf(m) == k ==> Same(prior.value, m)
    requires forall m, n :: m in batch && n in batch && KeyOf(m) == k && KeyOf(n) == k ==> Same(m, n)
    ensures FoldSums(Fold(prior, batch, k), RowsFor(prior, batch, k))
  {
    if batch == [] {
      if prior.Some? { OneSums(prior.value); }
    } else {
      var p, m := batch[..|batch|-1], batch[|batch|-1];
      assert forall x :: x in p ==> x in batch;
      assert m in batch;
      hide FoldSums, Merge;
      FoldMeans(prior, p, k);
      FoldSame(prior, p, k);
      var f, rows := Fold(prior, p, k), RowsFor(prior, p, k);
      if KeyOf(m) == k {
        if f.Some? && prior.None? {
          var x :| x in p && KeyOf(x) == k;
        }
        SumsLast(f, rows, m);
      } else {
        assert rows + [] == rows;
      }
    }
  }

  lemma {:induction false} FoldNone(prior: Option<Message>, batch: seq<Message>, k: Key)
    requires forall m :: m in batch ==> KeyOf(m) != k
    ensures Fold(prior, batch, k) == prior
  {
    if batch != [] {
      FoldNone(prior, batch[..|batch|-1], k);
    }
  }

  /** Adding one row to an agreeing batch. */
  lemma AgreeLast(chats: Chats, p: seq<Message>, m: Message)
    requires Agree(chats, p)
    ensures Agree(chats, p + [m]) <==>
              var f := Fold(StoredAt(chats, KeyOf(m)), p, KeyOf(m)); f.Some? ==> Same(f.value, m)
  {
    var k, b := KeyOf(m), p + [m];
    assert forall x :: x in b <==> x in p || x == m;
    FoldSame(StoredAt(chats, k), p, k);
    var f := Fold(StoredAt(chats, k), p, k);
    if Agree(chats, b) && f.Some? {
      if StoredAt(chats, k).None? {
        var x :| x in p && KeyOf(x) == k;
        assert x in b && m in b;
      }
    }
  }

  lemma FirstSeenLast(chats: Chats, p: seq<Message>, m: Message)
    ensures forall i :: 0 <= i < |p| ==> (FirstSeen(chats, p + [m], i) <==> FirstSeen(chats, p, i))
    ensures FirstSeen(chats, p + [m], |p|) <==> StoredAt(chats, KeyOf(m)).None? && KeyOf(m) !in KeysOf(p)
  {
    var b := p + [m];
    assert forall i :: 0 <= i < |p| ==> b[i] == p[i];
    if KeyOf(m) in KeysOf(p) {
      var x :| x in p && KeyOf(x) == KeyOf(m);
      var j :| 0 <= j < |p| && p[j] == x;
      assert KeyOf(b[j]) == KeyOf(b[|p|]);
    }
  }

  lemma StageOf(chats: Chats, p: seq<Message>, m: Message)
    ensures Stage(chats, p + [m]) ==
            var s := Stage(chats, p);
            if s.Conflict? then Conflict else
              var prior := Lookup(chats, s.rows, KeyOf(m));
              var next := Offer(prior, m);
              if next.None? then Conflict else Staged(s.rows[KeyOf(m) := next.value], s.inserted + [prior.None?])
  {
    assert (p + [m])[..|p|] == p;
  }

  lemma FoldOf(prior: Option<Message>, p: seq<Message>, m: Message, k: Key)
    ensures Fold(prior, p + [m], k) ==
            var before := Fold(prior, p, k);
            if KeyOf(m) != k then before else if before.None? then Some(m) else Some(Merge(before.value, m))
  {
    assert (p + [m])[..|p|] == p;
  }

  /** The staged rows are the folds of their identifiers. */
  ghost predicate RowsAreFolds(chats: Chats, batch: seq<Message>, rows: map<Key, Message>) {
    forall k :: Lookup(chats, rows, k) == Fold(StoredAt(chats, k), batch, k)
  }

  ghost predicate FlagsAreFirst(chats: Chats, batch: seq<Message>, inserted: seq<bool>) {
    |inserted| == |batch| && forall i :: 0 <= i < |batch| ==> (inserted[i] <==> FirstSeen(chats, batch, i))
  }

  lemma RowsLast(chats: Chats, p: seq<Message>, m: Message, rows: map<Key, Message>)
    requires RowsAreFolds(chats, p, rows)
    requires Offer(Lookup(chats, rows, KeyOf(m)), m).Some?
    ensures RowsAreFolds(chats, p + [m], rows[KeyOf(m) := Offer(Lookup(chats, rows, KeyOf(m)), m).value])
  {
    var next := rows[KeyOf(m) := Offer(Lookup(chats, rows, KeyOf(m)), m).value];
    forall k ensures Lookup(chats, next, k) == Fold(StoredAt(chats, k), p + [m], k) {
      FoldOf(StoredAt(chats, k), p, m, k);
      assert Lookup(chats, rows, k) == Fold(StoredAt(chats, k), p, k);
    }
  }

  lemma FlagsLast(chats: Chats, p: seq<Message>, m: Message, inserted: seq<bool>, rows: map<Key, Message>)
    requires FlagsAreFirst(chats, p, inserted) && RowsAreFolds(chats, p, rows) && rows.Keys == KeysOf(p)
    ensures FlagsAreFirst(chats, p + [m], inserted + [Lookup(chats, rows, KeyOf(m)).None?])
  {
    FirstSeenLast(chats, p, m);
  }

  lemma StageLast(chats: Chats, p: seq<Message>, m: Message)
    requires Agree(chats, p) && Stage(chats, p).Staged?
    requires RowsAreFolds(chats, p, Stage(chats, p).rows) && FlagsAreFirst(chats, p, Stage(chats, p).inserted)
    ensures Stage(chats, p + [m]).Staged? <==> Agree(chats, p + [m])
    ensures var s := Stage(chats, p + [m]); s.Staged? ==>
              RowsAreFolds(chats, p + [m], s.rows) && FlagsAreFirst(chats, p + [m], s.inserted)
  {
    var k, before := KeyOf(m), Stage(chats, p);
    StageOf(chats, p, m);
    AgreeLast(chats, p, m);
    assert Lookup(chats, before.rows, k) == Fold(StoredAt(chats, k), p, k);
    if Offer(Lookup(chats, before.rows, k), m).Some? {
      RowsLast(chats, p, m, before.rows);
      FlagsLast(chats, p, m, before.inserted, before.rows);
    }
  }

  /** Staging succeeds exactly when the rows agree; it then holds, for every
      identifier, the merge of its rows, and marks exactly the first rows of
      identifiers not stored before. */
  lemma {:induction false} StageMeans(chats: Chats, batch: seq<Message>)
    ensures Stage(chats, batch).Staged? <==> Agree(chats, batch)
    ensures var s := Stage(chats, batch);
            s.Staged? ==> RowsAreFolds(chats, batch, s.rows) && FlagsAreFirst(chats, batch, s.inserted)
  {
    if batch != [] {
      var p, m := batch[..|batch|-1], batch[|batch|-1];
      assert batch == p + [m];
      StageMeans(chats, p);
      StageOf(chats, p, m);
      if Agree(chats, p) {
        StageLast(chats, p, m);
      } else {
        assert forall x :: x in p ==> x in batch;
      }
    }
  }

  // ---- what the counters and the events mean

  /** The newly inserted incoming rows of one chat. */
  function NewIncoming(c: nat, batch: seq<Message>, inserted: seq<bool>): set<nat>
    requires |inserted| == |batch|
  {
    set i: nat | i < |batch| && inserted[i] && batch[i].chat == c && !batch[i].fromMe
  }

  lemma NewIncomingNext(c: nat, batch: seq<Message>, inserted: seq<bool>, n: nat)
    requires |inserted| == |batch| == n + 1
    ensures |NewIncoming(c, batch, inserted)| == |NewIncoming(c, batch[..n], inserted[..n])|
              + if inserted[n] && batch[n].chat == c && !batch[n].fromMe then 1 else 0
  {
    var before := NewIncoming(c, batch[..n], inserted[..n]);
    assert n !in before;
    assert NewIncoming(c, batch, inserted) ==
           if inserted[n] && batch[n].chat == c && !batch[n].fromMe then before + {n} else before;
  }

  lemma {:induction false} UnreadGrows(chat: Chat, c: nat, batch: seq<Message>, inserted: seq<bool>, countUnread: bool)
    requires |inserted| == |batch| && chat.unread <= MAX_UINT32
    ensures var u := chat.unread + |NewIncoming(c, batch, inserted)|;
            Counted(chat, c, batch, inserted, countUnread).unread ==
            if !countUnread then chat.unread else if u <= MAX_UINT32 then u else MAX_UINT32
  {
    if batch != [] {
      var n := |batch| - 1;
      UnreadGrows(chat, c, batch[..n], inserted[..n], countUnread);
      NewIncomingNext(c, batch, inserted, n);
    }
  }

  /** Activity is the running maximum of the inserted times. */
  lemma {:induction false} ActivityIsMaximum(chat: Chat, c: nat, batch: seq<Message>, inserted: seq<bool>, countUnread: bool)
    requires |inserted| == |batch| && forall m :: m in batch ==> m.Valid()
    ensures var last := Counted(chat, c, batch, inserted, countUnread).lastMessageAt;
            && (last == chat.lastMessageAt || exists i :: 0 <= i < |batch| && inserted[i] && batch[i].chat == c && last == batch[i].sentAt)
            && (chat.lastMessageAt != 0 ==> chat.lastMessageAt <= last && last != 0)
            && (forall i :: 0 <= i < |batch| && inserted[i] && batch[i].chat == c ==> batch[i].sentAt <= last && last != 0)
  {
    if batch != [] {
      var n := |batch| - 1;
      ActivityIsMaximum(chat, c, batch[..n], inserted[..n], countUnread);
      assert batch[n] in batch;
      var before := Counted(chat, c, batch[..n], inserted[..n], countUnread).lastMessageAt;
      if before != chat.lastMessageAt {
        var i :| 0 <= i < n && inserted[..n][i] && batch[..n][i].chat == c && before == batch[..n][i].sentAt;
        assert inserted[i] && batch[i].chat == c && before == batch[i].sentAt;
      }
      forall i | 0 <= i < n && inserted[i] && batch[i].chat == c ensures batch[i].sentAt <= before && before != 0 {
        assert inserted[..n][i] && batch[..n][i].chat == c;
      }
    }
  }

  /** A chat is a group once it was one, or a new row says so. */
  lemma {:induction false} GroupGrows(chat: Chat, c: nat, batch: seq<Message>, inserted: seq<bool>, countUnread: bool)
    requires |inserted| == |batch|
    ensures Counted(chat, c, batch, inserted, countUnread).isGroup <==>
              chat.isGroup || exists i :: 0 <= i < |batch| && inserted[i] && batch[i].chat == c && batch[i].isGroup
  {
    if batch != [] {
      var n := |batch| - 1;
      GroupGrows(chat, c, batch[..n], inserted[..n], countUnread);
      if i :| 0 <= i < |batch| && inserted[i] && batch[i].chat == c && batch[i].isGroup {
        assert i < n ==> inserted[..n][i] && batch[..n][i].isGroup;
      }
      if i :| 0 <= i < n && inserted[..n][i] && batch[..n][i].chat == c && batch[..n][i].isGroup {
        assert inserted[i] && batch[i].isGroup;
      }
    }
  }

  /** The positions of the inserted rows, in batch order. */
  function Positions(inserted: seq<bool>): (ps: seq<nat>)
    ensures forall j :: 0 <= j < |ps| ==> ps[j] < |inserted| && inserted[ps[j]]
    ensures forall i :: 0 <= i < |inserted| && inserted[i] ==> i in ps
    ensures forall i, j :: 0 <= i < j < |ps| ==> ps[i] < ps[j]
  {
    if inserted == [] then [] else
      var n := |inserted| - 1;
      var ps := Positions(inserted[..n]);
      if inserted[n] then ps + [n] else ps
  }

  /** The event of the row at i: the committed row and the chat's counters there. */
  predicate EventAt(chats: Chats, rows: map<Key, Message>, batch: seq<Message>, inserted: seq<bool>, e: LiveEvent, i: nat)
    requires |inserted| == |batch| && i < |batch|
  {
    var m := batch[i];
    var chat := Counted(ChatOf(chats, m.chat), m.chat, batch[..i+1], inserted[..i+1], true);
    KeyOf(m) in rows && e == LiveEvent(rows[KeyOf(m)], chat.unread, chat.lastMessageAt)
  }

  predicate EventsMatch(chats: Chats, rows: map<Key, Message>, batch: seq<Message>, inserted: seq<bool>,
                        es: seq<LiveEvent>, ps: seq<nat>)
    requires |inserted| == |batch|
  {
    |es| == |ps| && forall j :: 0 <= j < |ps| ==> ps[j] < |batch| && EventAt(chats, rows, batch, inserted, es[j], ps[j])
  }

  lemma EventsMatchPrefix(chats: Chats, rows: map<Key, Message>, batch: seq<Message>, inserted: seq<bool>,
                          es: seq<LiveEvent>, ps: seq<nat>, n: nat)
    requires |inserted| == |batch| && n <= |batch|
    requires EventsMatch(chats, rows, batch[..n], inserted[..n], es, ps)
    ensures EventsMatch(chats, rows, batch, inserted, es, ps)
  {
    forall j | 0 <= j < |ps| ensures EventAt(chats, rows, batch, inserted, es[j], ps[j]) {
      var i := ps[j];
      assert batch[..n][..i+1] == batch[..i+1] && inserted[..n][..i+1] == inserted[..i+1];
    }
  }

  /** One event per inserted row, in order. */
  lemma {:induction false} EventsMean(chats: Chats, rows: map<Key, Message>, batch: seq<Message>, inserted: seq<bool>)
    requires |inserted| == |batch| && KeysOf(batch) <= rows.Keys
    ensures EventsMatch(chats, rows, batch, inserted, Events(chats, rows, batch, inserted), Positions(inserted))
  {
    if batch != [] {
      var n := |batch| - 1;
      assert KeysOf(batch[..n]) <= rows.Keys && KeyOf(batch[n]) in rows by { KeysOfLast(batch); }
      EventsMean(chats, rows, batch[..n], inserted[..n]);
      EventsMatchPrefix(chats, rows, batch, inserted, Events(chats, rows, batch[..n], inserted[..n]),
                        Positions(inserted[..n]), n);
      assert batch[..n+1] == batch && inserted[..n+1] == inserted;
    }
  }

  /** Writing a committed batch again inserts nothing, emits nothing and moves
      neither counter. */
  lemma ReplayIsSilent(chats: Chats, batch: seq<Message>, countUnread: bool)
    requires WellFormed(chats) && Stage(chats, batch).Staged?
    ensures var after := Committed(chats, Stage(chats, batch), batch, countUnread);
            var again := Stage(after, batch);
            && again.Staged?
            && (forall i :: 0 <= i < |batch| ==> !again.inserted[i])
            && Events(after, again.rows, batch, again.inserted) == []
            && (forall c :: ChatOf(Committed(after, again, batch, countUnread), c) == ChatOf(after, c))
  {
    var s := Stage(chats, batch);
    var after := Committed(chats, s, batch, countUnread);
    StageMeans(chats, batch);
    forall m | m in batch
      ensures StoredAt(after, KeyOf(m)).Some? && Same(StoredAt(after, KeyOf(m)).value, m)
    {
      CommittedRow(chats, s, batch, countUnread, m);
    }
    StageMeans(after, batch);
    var again := Stage(after, batch);
    SilentFlags(after, again.rows, batch, again.inserted);
    forall c ensures ChatOf(Committed(after, again, batch, countUnread), c) == ChatOf(after, c) {
      SilentCounters(ChatOf(after, c), c, batch, again.inserted, countUnread);
    }
  }

  lemma CommittedRow(chats: Chats, s: Staging, batch: seq<Message>, countUnread: bool, m: Message)
    requires WellFormed(chats) && s == Stage(chats, batch) && s.Staged? && m in batch
    ensures var at := StoredAt(Committed(chats, s, batch, countUnread), KeyOf(m));
            at.Some? && Same(at.value, m) && KeyOf(m) in s.rows && at.value == s.rows[KeyOf(m)].Stored()
  {
    StageMeans(chats, batch);
    var k := KeyOf(m);
    FoldSame(StoredAt(chats, k), batch, k);
    assert Lookup(chats, s.rows, k) == Fold(StoredAt(chats, k), batch, k);
    assert m.chat in Touched(batch);
    assert k in KeysOf(batch);
    assert m.id in NewRows(s.rows, m.chat);
  }

  lemma {:induction false} SilentFlags(chats: Chats, rows: map<Key, Message>, batch: seq<Message>, inserted: seq<bool>)
    requires |inserted| == |batch| && KeysOf(batch) <= rows.Keys
    requires forall i :: 0 <= i < |batch| ==> !inserted[i]
    ensures Events(chats, rows, batch, inserted) == []
  {
    if batch != [] {
      KeysOfLast(batch);
      SilentFlags(chats, rows, batch[..|batch|-1], inserted[..|batch|-1]);
    }
  }

  lemma {:induction false} SilentCounters(chat: Chat, c: nat, batch: seq<Message>, inserted: seq<bool>, countUnread: bool)
    requires |inserted| == |batch|
    requires forall i :: 0 <= i < |batch| ==> !inserted[i]
    ensures Counted(chat, c, batch, inserted, countUnread) == chat
  {
    if batch != [] {
      SilentCounters(chat, c, batch[..|batch|-1], inserted[..|batch|-1], countUnread);
    }
  }

  // ---- the store itself

  predicate RowsBounded(chats: Chats) {
    forall c :: c in chats ==> |chats[c].messages| <= MAX_SNAPSHOT_SUMMARIES
  }

  function NewIds(chats: Chats, rows: map<Key, Message>, c: nat): set<nat> {
    set k | k in rows && k.chat == c && k.id !in RowsOf(chats, c) :: k.id
  }

  lemma RowsAfter(chats: Chats, rows: map<Key, Message>, c: nat)
    ensures |RowsOf(chats, c) + NewRows(rows, c)| == |RowsOf(chats, c)| + |NewIds(chats, rows, c)|
  {
    var all := RowsOf(chats, c) + NewRows(rows, c);
    assert all.Keys == RowsOf(chats, c).Keys + NewIds(chats, rows, c);
    assert |all.Keys| == |RowsOf(chats, c).Keys| + |NewIds(chats, rows, c)|;
  }

  function Ids(s: seq<nat>): set<nat> { set id | id in s }

  lemma IdsNext(s: seq<nat>, i: nat)
    requires i < |s|
    ensures Ids(s[..i+1]) == Ids(s[..i]) + {s[i]}
  {
    assert s[..i+1] == s[..i] + [s[i]];
  }

  lemma PruneKeepsValid(chats: Chats, plan: PrunePlan)
    requires WellFormed(chats) && RowsBounded(chats)
    ensures WellFormed(Pruned(chats, plan)) && RowsBounded(Pruned(chats, plan)) && |Pruned(chats, plan)| == |chats|
  {
    if plan.chat in chats {
      var rows := chats[plan.chat].messages;
      var left := rows - Ids(plan.deletes);
      assert left.Keys <= rows.Keys;
      assert rows.Keys == left.Keys + (rows.Keys - left.Keys);
      assert |left| == |left.Keys| && |rows| == |rows.Keys|;
    }
  }

  datatype PrunePlan = PrunePlan(chat: nat, deletes: seq<nat>, replacement: Option<Anchor>)

  datatype PruneResult = PruneResult(deleted: nat, bodies: nat, anchorReplaced: bool)

  function AnchorOf(chats: Chats, c: nat): Option<Anchor> {
    if c in chats then chats[c].anchor else None
  }

  function Bodied(rows: Rows): Rows {
    map id | id in rows && rows[id].bodyRetained :: rows[id]
  }

  function Pruned(chats: Chats, plan: PrunePlan): Chats {
    if plan.chat !in chats then chats else
      var state := chats[plan.chat];
      chats[plan.chat := ChatState(state.chat, state.messages - Ids(plan.deletes),
                                   if plan.replacement.Some? then plan.replacement else state.anchor)]
  }

  lemma MinusTwice(rows: Rows, ids: set<nat>, id: nat)
    ensures rows - ids - {id} == rows - (ids + {id})
  {
  }

  lemma RemoveOne(rows: Rows, id: nat)
    ensures |rows| == |rows - {id}| + if id in rows then 1 else 0
    ensures |Bodied(rows)| == |Bodied(rows - {id})| + if id in rows && rows[id].bodyRetained then 1 else 0
  {
    if id in rows {
      assert rows == (rows - {id})[id := rows[id]];
      var b := Bodied(rows - {id});
      assert Bodied(rows) == if rows[id].bodyRetained then b[id := rows[id]] else b;
    } else {
      assert rows - {id} == rows;
    }
  }

  lemma MinusNext(all: Rows, deletes: seq<nat>, i: nat, id: nat)
    requires i < |deletes| && id == deletes[i]
    ensures all - Ids(deletes[..i]) - {id} == all - Ids(deletes[..i+1])
  {
    IdsNext(deletes, i);
    MinusTwice(all, Ids(deletes[..i]), id);
  }

  lemma WithoutAbsent(rows: Rows, id: nat)
    requires id !in rows
    ensures rows - {id} == rows
  {
  }

  /** What removing one row adds to the counts. */
  method DeleteRow(rows: Rows, id: nat) returns (deleted: nat, bodies: nat)
    ensures deleted + |rows - {id}| == |rows|
    ensures bodies + |Bodied(rows - {id})| == |Bodied(rows)|
  {
    RemoveOne(rows, id);
    deleted, bodies := 0, 0;
    if id in rows {
      deleted := 1;
      if rows[id].bodyRetained { bodies := 1; }
    }
  }

  /** The state of the deletion after i identifiers. */
  ghost predicate Deleting(all: Rows, deletes: seq<nat>, i: nat, rows: Rows, deleted: nat, bodies: nat)
    requires i <= |deletes|
  {
    && rows == all - Ids(deletes[..i])
    && deleted + |rows| == |all| && bodies + |Bodied(rows)| == |Bodied(all)|
  }

  lemma DeletingStart(all: Rows, deletes: seq<nat>)
    ensures Deleting(all, deletes, 0, all, 0, 0)
  {
    assert Ids(deletes[..0]) == {} && all - {} == all;
  }

  lemma DeletingEnd(all: Rows, deletes: seq<nat>, rows: Rows, deleted: nat, bodies: nat)
    requires Deleting(all, deletes, |deletes|, rows, deleted, bodies)
    ensures rows == all - Ids(deletes) && deleted + |rows| == |all| && bodies + |Bodied(rows)| == |Bodied(all)|
  {
    assert deletes[..|deletes|] == deletes;
  }

  lemma DeletingNext(all: Rows, deletes: seq<nat>, i: nat, rows: Rows, deleted: nat, bodies: nat, d: nat, b: nat)
    requires i < |deletes| && Deleting(all, deletes, i, rows, deleted, bodies)
    requires d + |rows - {deletes[i]}| == |rows| && b + |Bodied(rows - {deletes[i]})| == |Bodied(rows)|
    ensures Deleting(all, deletes, i + 1, rows - {deletes[i]}, deleted + d, bodies + b)
  {
    MinusNext(all, deletes, i, deletes[i]);
  }

  method DeleteRows(all: Rows, deletes: seq<nat>) returns (rows: Rows, deleted: nat, bodies: nat)
    ensures rows == all - Ids(deletes)
    ensures deleted + |rows| == |all|
    ensures bodies + |Bodied(rows)| == |Bodied(all)|
  {
    rows, deleted, bodies := all, 0, 0;
    var seen: set<nat> := {};
    hide Deleting, Bodied, Ids;
    DeletingStart(all, deletes);
    for i := 0 to |deletes|
      invariant Deleting(all, deletes, i, rows, deleted, bodies)
      invariant forall id :: id in seen ==> id !in rows
    {
      var id := deletes[i];
      var d, b := 0, 0;
      if id !in seen {
        seen := seen + {id};
        d, b := DeleteRow(rows, id);
      } else {
        WithoutAbsent(rows, id);
      }
      DeletingNext(all, deletes, i, rows, deleted, bodies, d, b);
      deleted, bodies := deleted + d, bodies + b;
      rows := rows - {id};
    }
    DeletingEnd(all, deletes, rows, deleted, bodies);
  }

  function CommitWith(chats: Chats, s: Staging, batch: seq<Message>, counted: map<nat, Chat>): Chats
    requires s.Staged?
  {
    map c | c in chats.Keys + Touched(batch) ::
      ChatState(if c in counted then counted[c] else ChatOf(chats, c),
                RowsOf(chats, c) + NewRows(s.rows, c),
                if c in chats then chats[c].anchor else None)
  }

  lemma CommitIsCommitted(chats: Chats, s: Staging, batch: seq<Message>, counted: map<nat, Chat>, countUnread: bool)
    requires s.Staged? && |s.inserted| == |batch|
    requires forall c :: (if c in counted then counted[c] else ChatOf(chats, c)) ==
                         Counted(ChatOf(chats, c), c, batch, s.inserted, countUnread)
    ensures CommitWith(chats, s, batch, counted) == Committed(chats, s, batch, countUnread)
  {
  }

  lemma ChatsFit(chats: Chats, batch: seq<Message>, maxChats: nat)
    ensures FitsChats(chats, batch, maxChats) <==> |chats| + |Touched(batch) - chats.Keys| <= maxChats
  {
    assert chats.Keys + Touched(batch) == chats.Keys + (Touched(batch) - chats.Keys);
    assert |chats.Keys + (Touched(batch) - chats.Keys)| == |chats.Keys| + |Touched(batch) - chats.Keys|;
    assert |chats| == |chats.Keys|;
  }

  lemma CommittedFits(chats: Chats, s: Staging, batch: seq<Message>, countUnread: bool, maxChats: nat)
    requires s.Staged? && |s.inserted| == |batch| && s.rows.Keys == KeysOf(batch)
    requires RowsBounded(chats) && FitsRows(chats, s, batch) && FitsChats(chats, batch, maxChats)
    ensures RowsBounded(Committed(chats, s, batch, countUnread))
    ensures |Committed(chats, s, batch, countUnread)| <= maxChats
  {
    var after := Committed(chats, s, batch, countUnread);
    forall c | c in chats && c !in Touched(batch) ensures NewRows(s.rows, c) == map[] {
      NothingNew(batch, s.rows, c);
    }
    assert after.Keys == chats.Keys + Touched(batch);
    assert |after| == |after.Keys|;
  }

  lemma StageNext(chats: Chats, batch: seq<Message>, i: nat)
    requires i < |batch|
    ensures Stage(chats, batch[..i+1]) ==
            var s := Stage(chats, batch[..i]);
            if s.Conflict? then Conflict else
              var prior := Lookup(chats, s.rows, KeyOf(batch[i]));
              var next := Offer(prior, batch[i]);
              if next.None? then Conflict
              else Staged(s.rows[KeyOf(batch[i]) := next.value], s.inserted + [prior.None?])
    ensures Touched(batch[..i+1]) == Touched(batch[..i]) + {batch[i].chat}
  {
    assert batch[..i+1] == batch[..i] + [batch[i]];
    StageOf(chats, batch[..i], batch[i]);
    TouchedLast(batch[..i], batch[i]);
  }

  lemma KeysOfPrefixes(batch: seq<Message>)
    ensures forall i :: 0 <= i <= |batch| ==> KeysOf(batch[..i]) <= KeysOf(batch)
  {
  }

  lemma FitsByNewIds(chats: Chats, s: Staging, batch: seq<Message>)
    requires s.Staged?
    ensures FitsRows(chats, s, batch) <==>
            forall c :: c in Touched(batch) ==>
              |RowsOf(chats, c)| + |NewIds(chats, s.rows, c)| <= MAX_SNAPSHOT_SUMMARIES
  {
    forall c { RowsAfter(chats, s.rows, c); }
  }

  lemma {:induction false} UntouchedCounters(chat: Chat, c: nat, batch: seq<Message>, inserted: seq<bool>, countUnread: bool)
    requires |inserted| == |batch| && c !in Touched(batch)
    ensures Counted(chat, c, batch, inserted, countUnread) == chat
  {
    if batch != [] {
      var p := batch[..|batch|-1];
      assert batch == p + [batch[|batch|-1]];
      TouchedLast(p, batch[|batch|-1]);
      UntouchedCounters(chat, c, p, inserted[..|batch|-1], countUnread);
    }
  }

  lemma NothingNew(batch: seq<Message>, rows: map<Key, Message>, c: nat)
    requires rows.Keys == KeysOf(batch) && c !in Touched(batch)
    ensures NewRows(rows, c) == map[]
  {
  }

  /** What an accepted batch makes of one identifier: nothing where nothing was stored or
      offered, else what the stored row and the batch's rows tell. */
  ghost predicate RowTold(before: Chats, after: Chats, batch: seq<Message>, k: Key) {
    var rows, now := RowsFor(StoredAt(before, k), batch, k), StoredAt(after, k);
    (now.Some? <==> rows != []) && (now.Some? ==> Sums(rows, now.value) && !now.value.eligible)
  }

  lemma StoredTells(rows: seq<Message>, m: Message)
    requires Sums(rows, m)
    ensures Sums(rows, m.Stored())
  {
  }

  lemma CommittedAt(chats: Chats, s: Staging, batch: seq<Message>, countUnread: bool, k: Key)
    requires s.Staged? && |s.inserted| == |batch| && s.rows.Keys == KeysOf(batch)
    ensures StoredAt(Committed(chats, s, batch, countUnread), k) ==
            if k in s.rows then Some(s.rows[k].Stored()) else StoredAt(chats, k)
  {
    var rows := NewRows(s.rows, k.chat);
    if k in s.rows {
      var m :| m in batch && KeyOf(m) == k;
      assert k.chat in Touched(batch) && k.id in rows;
    } else if k.chat !in chats && k.chat in Touched(batch) {
      assert k.id !in rows;
    }
    assert k.id in rows <==> k in s.rows;
  }

  /** For every identifier: an accepted batch leaves what its rows tell. */
  lemma CommittedTold(chats: Chats, batch: seq<Message>, countUnread: bool, k: Key)
    requires WellFormed(chats) && Stage(chats, batch).Staged?
    ensures RowTold(chats, Committed(chats, Stage(chats, batch), batch, countUnread), batch, k)
  {
    var s, prior := Stage(chats, batch), StoredAt(chats, k);
    StageMeans(chats, batch);
    CommittedAt(chats, s, batch, countUnread, k);
    FoldMeans(prior, batch, k);
    assert Lookup(chats, s.rows, k) == Fold(prior, batch, k);
    hide Sums, Fold, Stage, Committed;
    if k in s.rows { StoredTells(RowsFor(prior, batch, k), s.rows[k]); }
  }

  lemma CommittedIsWellFormed(chats: Chats, batch: seq<Message>, countUnread: bool)
    requires WellFormed(chats) && (forall m :: m in batch ==> m.Valid()) && Stage(chats, batch).Staged?
    ensures WellFormed(Committed(chats, Stage(chats, batch), batch, countUnread))
  {
    var s := Stage(chats, batch);
    StageMeans(chats, batch);
    forall k | k in s.rows ensures KeyOf(s.rows[k]) == k && s.rows[k].Valid() {
      FoldSame(StoredAt(chats, k), batch, k);
      assert Lookup(chats, s.rows, k) == Fold(StoredAt(chats, k), batch, k);
    }
  }

  lemma TouchedLast(p: seq<Message>, m: Message)
    ensures Touched(p + [m]) == Touched(p) + {m.chat}
  {
    assert forall x :: x in p + [m] <==> x in p || x == m;
  }

  lemma {:induction false} StagePrefixConflict(chats: Chats, batch: seq<Message>, n: nat)
    requires n <= |batch| && Stage(chats, batch[..n]).Conflict?
    ensures Stage(chats, batch).Conflict?
  {
    if n < |batch| {
      assert batch[..|batch|-1][..n] == batch[..n];
      StagePrefixConflict(chats, batch[..|batch|-1], n);
    } else {
      assert batch[..n] == batch;
    }
  }

  class Memory {
    const maxChats: nat
    var chats: Chats

    predicate Valid()
      reads this
    {
      WellFormed(chats) && RowsBounded(chats) && |chats| <= maxChats
    }

    constructor (maxChats: nat)
      ensures Valid() && chats == map[] && this.maxChats == maxChats
    {
      this.maxChats := maxChats;
      chats := map[];
    }

    /** Stages the whole batch, checks both capacities, counts and reports the new
        rows, and only then touches the store. */
    method WriteBatch(batch: seq<Message>, origin: Origin, emitLive: bool) returns (r: WriteResult)
      requires Valid() && |batch| <= MAX_WRITE_BATCH && (forall m :: m in batch ==> m.Valid())
      requires emitLive ==> origin.Realtime?
      modifies this
      ensures Valid()
      ensures r == WriteOutcome(old(chats), maxChats, batch, emitLive)
      ensures chats == if r.Written? then Committed(old(chats), Stage(old(chats), batch), batch, origin.Realtime?)
                       else old(chats)
      ensures r.Written? ==> forall k: Key :: RowTold(old(chats), chats, batch, k)
    {
      hide RowTold;
      var s, newChats := StageBatch(batch);
      if s.Conflict? {
        return Rejected;
      }
      ChatsFit(chats, batch, maxChats);
      if |chats| + |newChats| > maxChats {
        return CapacityExceeded;
      }
      FitsByNewIds(chats, s, batch);
      if exists c :: c in Touched(batch) && |RowsOf(chats, c)| + |NewIds(chats, s.rows, c)| > MAX_SNAPSHOT_SUMMARIES {
        return CapacityExceeded;
      }
      var counted, events := CountAndReport(batch, s, origin, emitLive);
      CommittedIsWellFormed(chats, batch, origin.Realtime?);
      CommittedFits(chats, s, batch, origin.Realtime?, maxChats);
      CommitIsCommitted(chats, s, batch, counted, origin.Realtime?);
      forall k: Key ensures RowTold(chats, Committed(chats, s, batch, origin.Realtime?), batch, k) {
        CommittedTold(chats, batch, origin.Realtime?, k);
      }
      chats := CommitWith(chats, s, batch, counted);
      return Written(events);
    }

    method StageBatch(batch: seq<Message>) returns (s: Staging, newChats: set<nat>)
      ensures s == Stage(chats, batch)
      ensures s.Staged? ==> newChats == Touched(batch) - chats.Keys
    {
      var rows: map<Key, Message>, inserted: seq<bool> := map[], [];
      newChats := {};
      for i := 0 to |batch|
        invariant Stage(chats, batch[..i]) == Staged(rows, inserted)
        invariant newChats == Touched(batch[..i]) - chats.Keys
      {
        var m := batch[i];
        StageNext(chats, batch, i);
        if m.chat !in chats { newChats := newChats + {m.chat}; }
        var prior := Lookup(chats, rows, KeyOf(m));
        var next := m;
        if prior.Some? {
          if prior.value.sentAt != m.sentAt || prior.value.fromMe != m.fromMe {
            StagePrefixConflict(chats, batch, i + 1);
            s := Conflict;
            return;
          }
          next := Merge(prior.value, m);
        }
        inserted := inserted + [prior.None?];
        rows := rows[KeyOf(m) := next];
      }
      assert batch[..|batch|] == batch;
      s := Staged(rows, inserted);
    }

    method CountAndReport(batch: seq<Message>, s: Staging, origin: Origin, emitLive: bool)
      returns (counted: map<nat, Chat>, events: seq<LiveEvent>)
      requires s.Staged? && |s.inserted| == |batch| && s.rows.Keys == KeysOf(batch)
      requires emitLive ==> origin.Realtime?
      ensures forall c :: (if c in counted then counted[c] else ChatOf(chats, c)) ==
                          Counted(ChatOf(chats, c), c, batch, s.inserted, origin.Realtime?)
      ensures events == if emitLive then Events(chats, s.rows, batch, s.inserted) else []
    {
      counted, events := map[], [];
      KeysOfPrefixes(batch);
      for i := 0 to |batch|
        invariant forall c :: (if c in counted then counted[c] else ChatOf(chats, c)) ==
                              Counted(ChatOf(chats, c), c, batch[..i], s.inserted[..i], origin.Realtime?)
        invariant events == if emitLive then Events(chats, s.rows, batch[..i], s.inserted[..i]) else []
      {
        var m := batch[i];
        assert batch[..i+1][..i] == batch[..i] && s.inserted[..i+1][..i] == s.inserted[..i];
        if s.inserted[i] {
          var chat := Advance(if m.chat in counted then counted[m.chat] else ChatOf(chats, m.chat), m, origin.Realtime?);
          counted := counted[m.chat := chat];
          if emitLive {
            assert m in batch;
            events := events + [LiveEvent(s.rows[KeyOf(m)], chat.unread, chat.lastMessageAt)];
          }
        }
      }
      assert batch[..|batch|] == batch && s.inserted[..|batch|] == s.inserted;
    }

    method Page(c: nat, cursor: Cursor, limit: int) returns (r: PageResult)
      requires Valid()
      ensures IsPage(RowsOf(chats, c), cursor, limit, r)
    {
      r := ReadPage(RowsOf(chats, c), cursor, limit);
    }

    method RetentionSnapshot(c: nat) returns (summaries: seq<Message>, anchor: Option<Anchor>)
      requires Valid()
      ensures IsListing(summaries, RowsOf(chats, c)) && |summaries| == |RowsOf(chats, c)|
      ensures anchor == AnchorOf(chats, c)
    {
      var s := Collect(RowsOf(chats, c));
      summaries := SortNewest(s);
      SortedIsListing(s, summaries, RowsOf(chats, c));
      assert |multiset(s)| == |s| && |multiset(summaries)| == |summaries|;
      anchor := AnchorOf(chats, c);
    }

    method ApplyPrune(plan: PrunePlan) returns (r: PruneResult)
      requires Valid()
      modifies this
      ensures Valid()
      ensures chats == Pruned(old(chats), plan)
      ensures r.deleted == |RowsOf(old(chats), plan.chat)| - |RowsOf(chats, plan.chat)|
      ensures r.bodies == |Bodied(RowsOf(old(chats), plan.chat))| - |Bodied(RowsOf(chats, plan.chat))|
      ensures r.anchorReplaced <==> AnchorOf(chats, plan.chat) != AnchorOf(old(chats), plan.chat)
    {
      if plan.chat !in chats {
        return PruneResult(0, 0, false);
      }
      var state := chats[plan.chat];
      var rows, deleted, bodies := DeleteRows(state.messages, plan.deletes);
      var anchor := if plan.replacement.Some? then plan.replacement else state.anchor;
      r := PruneResult(deleted, bodies, anchor != state.anchor);
      PruneKeepsValid(chats, plan);
      chats := chats[plan.chat := ChatState(state.chat, rows, anchor)];
    }
  }
}
