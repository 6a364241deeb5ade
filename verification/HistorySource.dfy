/** The bounded history source: lazy jobs admitted against category tokens, walked
    by cursors and released by their consumer. */
module HistorySource {
  import Frontier

  const MAX_LIFETIME_IDS: nat := 256
  const MAX_ACTIVE_JOBS: nat := 4
  const MAX_CHUNK_RECORDS: nat := 32
  const MAX_CHUNK_BYTES: nat := 128 * 1024
  const RECORD_INDEX_BYTES: nat := 32

  datatype Class = Unknown | Metadata | OnDemand | Bulk

  datatype Job = Job(id: nat, kind: Class)

  /** A job with the number of records it generates; wellFormed is what the
      constructor of a specification checks. */
  datatype Spec = Spec(job: Job, count: nat, wellFormed: bool)

  datatype Cursor = Free | Active(job: Job, count: nat, index: nat)

  function Category(c: Class): nat {
    match c
    case Unknown => 3
    case Metadata => 0
    case OnDemand => 1
    case Bulk => 2
  }

  /** Tokens of a category, and also the capacity of its channel. */
  function Capacity(k: nat): nat { if k == 0 then 2 else 1 }

  /** The source behind its mutex; held are the jobs received and not yet released,
      counts remembers of every admitted job how many records it generates; the logs
      have one entry for every job received from a channel and for every release called. */
  datatype State = State(cursors: seq<Cursor>, tokens: seq<nat>, channels: seq<seq<Job>>, ids: seq<nat>, held: set<nat>,
                         counts: map<nat, nat>, receivedLog: seq<nat>, releasedLog: seq<nat>)

  predicate In(c: Cursor, k: nat) { c.Active? && Category(c.job.kind) == k }

  function Count(cs: seq<Cursor>, k: nat): nat {
    if cs == [] then 0 else Count(cs[..|cs|-1], k) + if In(cs[|cs|-1], k) then 1 else 0
  }

  function IdsOf(cs: seq<Cursor>, k: nat): set<nat> {
    if cs == [] then {} else IdsOf(cs[..|cs|-1], k) + if In(cs[|cs|-1], k) then {cs[|cs|-1].job.id} else {}
  }

  predicate IsCursorOf(cs: seq<Cursor>, i: nat, job: Job) {
    i < |cs| && cs[i].Active? && cs[i].job == job
  }

  ghost predicate Walks(cs: seq<Cursor>, job: Job) {
    exists i: nat :: IsCursorOf(cs, i, job)
  }

  /** Tokens are the active cursors of each category, within its capacity. */
  predicate TokensOk(s: State) {
    && |s.cursors| == MAX_ACTIVE_JOBS && |s.tokens| == 3
    && forall k :: 0 <= k < 3 ==> s.tokens[k] == Count(s.cursors, k) && s.tokens[k] <= Capacity(k)
  }

  predicate Counted(s: State, c: Cursor)
    requires c.Active?
  {
    && c.job.kind != Unknown && c.job.id in s.ids && c.job.id in s.counts
    && c.count == s.counts[c.job.id] && c.index <= c.count
  }

  /** Active cursors walk distinct jobs admitted in this lifetime. */
  ghost predicate CursorsOk(s: State) {
    && |s.ids| <= MAX_LIFETIME_IDS
    && (forall id :: id in s.ids <==> id in s.counts)
    && (forall i :: 0 <= i < |s.cursors| && s.cursors[i].Active? ==> Counted(s, s.cursors[i]))
    && (forall i, j :: 0 <= i < j < |s.cursors| && s.cursors[i].Active? && s.cursors[j].Active? ==>
          s.cursors[i].job.id != s.cursors[j].job.id)
  }

  ghost predicate ChannelOk(channel: seq<Job>, k: nat, cs: seq<Cursor>, held: set<nat>) {
    && (forall n :: 0 <= n < |channel| ==> Category(channel[n].kind) == k && Walks(cs, channel[n]) && channel[n].id !in held)
    && (forall m, n :: 0 <= m < n < |channel| ==> channel[m].id != channel[n].id)
  }

  /** Each active job waits in its channel or is held by the consumer, not both. */
  ghost predicate ChannelsOk(s: State) {
    && |s.channels| == 3
    && (forall k :: 0 <= k < 3 ==> ChannelOk(s.channels[k], k, s.cursors, s.held))
    && (forall i :: 0 <= i < |s.cursors| ==> Placed(s, s.cursors[i]))
    && (forall id :: id in s.held ==> exists i :: 0 <= i < |s.cursors| && s.cursors[i].Active? && s.cursors[i].job.id == id)
  }

  /** Three channels of jobs of their categories, within their capacities. */
  predicate WithinCapacity(s: State) {
    && |s.channels| == 3
    && forall k :: 0 <= k < 3 ==> |s.channels[k]| <= Capacity(k) && forall job :: job in s.channels[k] ==> Category(job.kind) == k
  }

  /** What holds whatever is called and in whatever order. */
  ghost predicate Steady(s: State) { TokensOk(s) && CursorsOk(s) && WithinCapacity(s) }

  /** What holds while only received jobs are released. */
  ghost predicate Ok(s: State) { Steady(s) && ChannelsOk(s) }

  lemma OkIsSteady(s: State)
    requires Ok(s)
    ensures Steady(s)
  {
  }

  // ---- why two admission branches cannot be reached

  lemma {:induction false} FewIds(cs: seq<Cursor>, k: nat)
    ensures |IdsOf(cs, k)| <= Count(cs, k)
    ensures forall i :: 0 <= i < |cs| && In(cs[i], k) ==> cs[i].job.id in IdsOf(cs, k)
  {
    if cs != [] { FewIds(cs[..|cs|-1], k); }
  }

  function Ids(channel: seq<Job>): set<nat> { set n: nat | n < |channel| :: channel[n].id }

  lemma {:induction false} DistinctIds(channel: seq<Job>)
    requires forall m, n :: 0 <= m < n < |channel| ==> channel[m].id != channel[n].id
    ensures |Ids(channel)| == |channel|
  {
    if channel != [] {
      var rest := channel[..|channel|-1];
      DistinctIds(rest);
      assert Ids(channel) == Ids(rest) + {channel[|rest|].id};
    } else {
      assert Ids(channel) == {};
    }
  }

  /** A channel never holds more jobs than its category has tokens out. */
  lemma ChannelWithinTokens(s: State, k: nat)
    requires Ok(s) && k < 3
    ensures |s.channels[k]| <= s.tokens[k]
  {
    var channel := s.channels[k];
    FewIds(s.cursors, k);
    DistinctIds(channel);
    forall id | id in Ids(channel) ensures id in IdsOf(s.cursors, k) {
      var n: nat :| n < |channel| && channel[n].id == id;
      assert Walks(s.cursors, channel[n]);
    }
    assert Ids(channel) <= IdsOf(s.cursors, k);
    Frontier.SubsetSize(Ids(channel), IdsOf(s.cursors, k));
  }

  lemma {:induction false} AllCounted(cs: seq<Cursor>)
    requires forall i :: 0 <= i < |cs| ==> cs[i].Active? && cs[i].job.kind != Unknown
    ensures Count(cs, 0) + Count(cs, 1) + Count(cs, 2) == |cs|
  {
    if cs != [] { AllCounted(cs[..|cs|-1]); }
  }

  /** With a token to spare there is a free cursor. */
  lemma TokenMeansCursor(s: State, k: nat)
    requires Steady(s) && k < 3 && s.tokens[k] < Capacity(k)
    ensures exists i :: 0 <= i < |s.cursors| && s.cursors[i].Free?
  {
    if forall i :: 0 <= i < |s.cursors| ==> s.cursors[i].Active? {
      AllCounted(s.cursors);
    }
  }

  // ---- the mutex sections

  function Admit(s: State, i: nat, spec: Spec): State
    requires i < |s.cursors| && |s.tokens| == 3 && |s.channels| == 3 && spec.job.kind != Unknown
  {
    var k := Category(spec.job.kind);
    s.(cursors := s.cursors[i := Active(spec.job, spec.count, 0)],
       tokens := s.tokens[k := s.tokens[k] + 1],
       channels := s.channels[k := s.channels[k] + [spec.job]],
       ids := s.ids + [spec.job.id],
       counts := s.counts[spec.job.id := spec.count])
  }

  function Receive(s: State, k: nat): State
    requires k < |s.channels| && s.channels[k] != []
  {
    s.(channels := s.channels[k := s.channels[k][1..]], held := s.held + {s.channels[k][0].id},
       receivedLog := s.receivedLog + [s.channels[k][0].id])
  }

  function Advance(s: State, i: nat, next: nat): State
    requires i < |s.cursors| && s.cursors[i].Active?
  {
    s.(cursors := s.cursors[i := s.cursors[i].(index := next)])
  }

  /** A release is on record whether or not it finds the job. */
  function Called(s: State, job: Job): State { s.(releasedLog := s.releasedLog + [job.id]) }

  ghost function Release(s: State, i: nat): State
    requires Steady(s) && i < |s.cursors| && s.cursors[i].Active?
  {
    var k := Category(s.cursors[i].job.kind);
    CountUpdate(s.cursors, i, Free, k);
    Called(s, s.cursors[i].job).(cursors := s.cursors[i := Free], tokens := s.tokens[k := s.tokens[k] - 1],
                                 held := s.held - {s.cursors[i].job.id})
  }

  lemma {:induction false} CountUpdate(cs: seq<Cursor>, i: nat, c: Cursor, k: nat)
    requires i < |cs|
    ensures Count(cs[i := c], k) == Count(cs, k) - (if In(cs[i], k) then 1 else 0) + (if In(c, k) then 1 else 0)
    ensures In(cs[i], k) ==> Count(cs, k) > 0
  {
    var rest := cs[..|cs|-1];
    if i < |rest| {
      CountUpdate(rest, i, c, k);
      assert cs[i := c][..|cs|-1] == rest[i := c];
    } else {
      assert cs[i := c][..|cs|-1] == rest;
    }
  }

  function Bit(b: bool): nat { if b then 1 else 0 }

  predicate Recounted(s: State, cs: seq<Cursor>, before: Cursor, after: Cursor)
    requires |s.tokens| == 3
  {
    forall k :: 0 <= k < 3 ==> Count(cs, k) + Bit(In(before, k)) == s.tokens[k] + Bit(In(after, k))
  }

  lemma TokensUpdate(s: State, i: nat, c: Cursor)
    requires TokensOk(s) && i < |s.cursors|
    ensures Recounted(s, s.cursors[i := c], s.cursors[i], c)
  {
    forall k | 0 <= k < 3
      ensures Count(s.cursors[i := c], k) + Bit(In(s.cursors[i], k)) == s.tokens[k] + Bit(In(c, k))
    {
      CountUpdate(s.cursors, i, c, k);
    }
  }

  predicate Admissible(s: State, spec: Spec) {
    && spec.wellFormed && spec.job.kind != Unknown && spec.job.id !in s.ids && |s.ids| < MAX_LIFETIME_IDS
    && Category(spec.job.kind) < |s.tokens| && s.tokens[Category(spec.job.kind)] < Capacity(Category(spec.job.kind))
  }

  /** The cursors that walk jobs of a class. */
  function ActiveOf(cs: seq<Cursor>, kind: Class): set<nat> {
    set i: nat | i < |cs| && cs[i].Active? && cs[i].job.kind == kind
  }

  lemma {:induction false} CountIsActive(cs: seq<Cursor>, kind: Class)
    ensures Count(cs, Category(kind)) == |ActiveOf(cs, kind)|
  {
    if cs == [] {
      assert ActiveOf(cs, kind) == {};
    } else {
      var n := |cs| - 1;
      CountIsActive(cs[..n], kind);
      assert ActiveOf(cs, kind) == ActiveOf(cs[..n], kind) + if In(cs[n], Category(kind)) then {n} else {};
    }
  }

  /** Which jobs are let in: two metadata jobs, one on demand and one bulk job may be active
      at once, and a lifetime takes 256 jobs, none of them twice. */
  lemma AdmissibleByClass(s: State, spec: Spec)
    requires Steady(s)
    ensures Admissible(s, spec) <==>
      && spec.wellFormed && spec.job.kind != Unknown && spec.job.id !in s.ids && |s.ids| < 256
      && |ActiveOf(s.cursors, spec.job.kind)| < if spec.job.kind == Metadata then 2 else 1
  {
    CountIsActive(s.cursors, spec.job.kind);
  }

  /** The channel of a job has a free place. */
  predicate HasRoom(s: State, spec: Spec)
    requires |s.channels| == 3 && spec.job.kind != Unknown
  {
    |s.channels[Category(spec.job.kind)]| < Capacity(Category(spec.job.kind))
  }

  lemma AdmitSteady(s: State, i: nat, spec: Spec)
    requires Steady(s) && i < |s.cursors| && s.cursors[i].Free? && Admissible(s, spec) && HasRoom(s, spec)
    ensures Steady(Admit(s, i, spec))
  {
    TokensUpdate(s, i, Active(spec.job, spec.count, 0));
  }

  /** While only received jobs are released an admissible job finds a place. */
  lemma RoomIfOk(s: State, spec: Spec)
    requires Ok(s) && Admissible(s, spec)
    ensures HasRoom(s, spec)
  {
    ChannelWithinTokens(s, Category(spec.job.kind));
  }

  lemma AdmitBoth(s: State, i: nat, spec: Spec)
    requires Steady(s) && i < |s.cursors| && s.cursors[i].Free? && Admissible(s, spec) && HasRoom(s, spec)
    ensures Steady(Admit(s, i, spec)) && (Ok(s) ==> Ok(Admit(s, i, spec)))
  {
    AdmitSteady(s, i, spec);
    if Ok(s) { AdmitKeeps(s, i, spec); }
  }

  lemma SteadyShape(s: State)
    requires Steady(s)
    ensures |s.cursors| == MAX_ACTIVE_JOBS && |s.tokens| == |s.channels| == 3
  {
  }

  lemma AdmitKeeps(s: State, i: nat, spec: Spec)
    requires Ok(s) && i < |s.cursors| && s.cursors[i].Free? && Admissible(s, spec)
    ensures Ok(Admit(s, i, spec))
  {
    RoomIfOk(s, spec);
    AdmitSteady(s, i, spec);
    var t, kk := Admit(s, i, spec), Category(spec.job.kind);
    assert IsCursorOf(t.cursors, i, spec.job);
    forall k | 0 <= k < 3 ensures ChannelOk(t.channels[k], k, t.cursors, t.held) {
      forall n | 0 <= n < |s.channels[k]| ensures Walks(t.cursors, s.channels[k][n]) && s.channels[k][n].id != spec.job.id {
        WalksIn(s, s.channels[k][n]);
        var j: nat :| IsCursorOf(s.cursors, j, s.channels[k][n]);
        assert IsCursorOf(t.cursors, j, s.channels[k][n]);
      }
      HeldIn(s);
      assert Walks(t.cursors, spec.job);
    }
    AdmitPlaces(s, i, spec);
  }

  lemma WalksIn(s: State, job: Job)
    requires CursorsOk(s) && Walks(s.cursors, job)
    ensures job.id in s.ids
  {
  }

  lemma HeldIn(s: State)
    requires Ok(s)
    ensures forall id :: id in s.held ==> id in s.ids
  {
  }

  predicate Placed(s: State, c: Cursor)
    requires |s.channels| == 3
  {
    c.Active? && c.job.kind != Unknown ==> c.job.id in s.held || c.job in s.channels[Category(c.job.kind)]
  }

  lemma AdmitPlaces(s: State, i: nat, spec: Spec)
    requires Ok(s) && i < |s.cursors| && s.cursors[i].Free? && Admissible(s, spec)
    ensures var t := Admit(s, i, spec);
      && (forall j :: 0 <= j < |t.cursors| ==> Placed(t, t.cursors[j]))
      && (forall id :: id in t.held ==> exists j :: 0 <= j < |t.cursors| && t.cursors[j].Active? && t.cursors[j].job.id == id)
  {
    var t, k := Admit(s, i, spec), Category(spec.job.kind);
    assert t.channels[k][|s.channels[k]|] == spec.job;
    forall j | 0 <= j < |t.cursors| ensures Placed(t, t.cursors[j]) {
      if j != i {
        assert Placed(s, s.cursors[j]);
        assert forall job :: job in s.channels[k] ==> job in t.channels[k];
      }
    }
    forall id | id in t.held ensures exists j :: 0 <= j < |t.cursors| && t.cursors[j].Active? && t.cursors[j].job.id == id {
      var j :| 0 <= j < |s.cursors| && s.cursors[j].Active? && s.cursors[j].job.id == id;
      assert t.cursors[j] == s.cursors[j];
    }
  }

  lemma ReceiveSteady(s: State, k: nat)
    requires Steady(s) && k < 3 && s.channels[k] != []
    ensures Steady(Receive(s, k))
  {
  }

  lemma ReceiveKeeps(s: State, k: nat)
    requires Ok(s) && k < 3 && s.channels[k] != []
    ensures Ok(Receive(s, k)) && s.channels[k][0].id !in s.held && Walks(s.cursors, s.channels[k][0])
  {
    var t, job := Receive(s, k), s.channels[k][0];
    ReceiveSteady(s, k);
    forall l | 0 <= l < 3 ensures ChannelOk(t.channels[l], l, t.cursors, t.held) {
      forall n | 0 <= n < |t.channels[l]| ensures t.channels[l][n].id != job.id {
        if l == k {
          assert t.channels[l][n] == s.channels[k][n+1];
        } else {
          assert Walks(s.cursors, s.channels[l][n]) && Walks(s.cursors, job);
        }
      }
    }
    forall i | 0 <= i < |t.cursors| ensures Placed(t, t.cursors[i]) {
      assert Placed(s, s.cursors[i]);
      assert s.channels[k] == [job] + t.channels[k];
    }
    assert t.cursors == s.cursors;
  }

  lemma AdvanceSteady(s: State, i: nat, next: nat)
    requires Steady(s) && i < |s.cursors| && s.cursors[i].Active? && next <= s.cursors[i].count
    ensures Steady(Advance(s, i, next))
  {
    TokensUpdate(s, i, Advance(s, i, next).cursors[i]);
  }

  lemma AdvanceKeeps(s: State, i: nat, next: nat)
    requires Ok(s) && i < |s.cursors| && s.cursors[i].Active? && next <= s.cursors[i].count
    ensures Ok(Advance(s, i, next))
  {
    var t := Advance(s, i, next);
    AdvanceSteady(s, i, next);
    forall job | Walks(s.cursors, job) ensures Walks(t.cursors, job) {
      var j: nat :| IsCursorOf(s.cursors, j, job);
      assert IsCursorOf(t.cursors, j, job);
    }
    forall j | 0 <= j < |t.cursors| ensures Placed(t, t.cursors[j]) {
      assert Placed(s, s.cursors[j]);
    }
    forall id | id in t.held ensures exists j :: 0 <= j < |t.cursors| && t.cursors[j].Active? && t.cursors[j].job.id == id {
      var j :| 0 <= j < |s.cursors| && s.cursors[j].Active? && s.cursors[j].job.id == id;
      assert t.cursors[j].job.id == id;
    }
  }

  lemma ReleaseSteady(s: State, i: nat)
    requires Steady(s) && i < |s.cursors| && s.cursors[i].Active?
    ensures Steady(Release(s, i))
  {
    TokensUpdate(s, i, Free);
  }

  /** Releasing keeps every waiting job with its cursor and token exactly when the job was
      received before. */
  lemma ReleaseExact(s: State, i: nat)
    requires Ok(s) && i < |s.cursors| && s.cursors[i].Active?
    ensures Ok(Release(s, i)) <==> s.cursors[i].job.id in s.held
  {
    var t, job := Release(s, i), s.cursors[i].job;
    if job.id in s.held {
      ReleaseKeeps(s, i);
    } else {
      var k := Category(job.kind);
      assert Placed(s, s.cursors[i]);
      var n :| 0 <= n < |s.channels[k]| && s.channels[k][n] == job;
      assert !Walks(t.cursors, job);
      assert t.channels[k][n] == job && !ChannelOk(t.channels[k], k, t.cursors, t.held);
    }
  }

  lemma ReleaseBoth(s: State, i: nat)
    requires Steady(s) && i < |s.cursors| && s.cursors[i].Active?
    ensures Steady(Release(s, i)) && s.tokens[Category(s.cursors[i].job.kind)] > 0 && Category(s.cursors[i].job.kind) < 3
    ensures Ok(s) ==> (Ok(Release(s, i)) <==> s.cursors[i].job.id in s.held)
    ensures Walks(s.cursors, s.cursors[i].job)
  {
    ReleaseSteady(s, i);
    CountUpdate(s.cursors, i, Free, Category(s.cursors[i].job.kind));
    if Ok(s) { ReleaseExact(s, i); }
    assert IsCursorOf(s.cursors, i, s.cursors[i].job);
  }

  lemma CalledKeeps(s: State, job: Job)
    requires Steady(s)
    ensures Steady(Called(s, job)) && (Ok(s) ==> Ok(Called(s, job)))
  {
  }

  lemma ReleaseKeeps(s: State, i: nat)
    requires Ok(s) && i < |s.cursors| && s.cursors[i].Active? && s.cursors[i].job.id in s.held
    ensures Ok(Release(s, i))
  {
    var t, job := Release(s, i), s.cursors[i].job;
    ReleaseSteady(s, i);
    forall l | 0 <= l < 3 ensures ChannelOk(t.channels[l], l, t.cursors, t.held) {
      forall n | 0 <= n < |t.channels[l]| ensures Walks(t.cursors, t.channels[l][n]) {
        var j: nat :| IsCursorOf(s.cursors, j, s.channels[l][n]);
        assert IsCursorOf(t.cursors, j, t.channels[l][n]);
      }
    }
    forall j | 0 <= j < |t.cursors| ensures Placed(t, t.cursors[j]) {
      assert Placed(s, s.cursors[j]);
    }
    forall id | id in t.held ensures exists j :: 0 <= j < |t.cursors| && t.cursors[j].Active? && t.cursors[j].job.id == id {
      var j :| 0 <= j < |s.cursors| && s.cursors[j].Active? && s.cursors[j].job.id == id;
      assert t.cursors[j] == s.cursors[j];
    }
  }

  /** When the consumer holds nothing and the channels are empty, nothing leaked. */
  lemma NothingLeaks(s: State)
    requires Ok(s) && s.held == {} && forall k :: 0 <= k < 3 ==> s.channels[k] == []
    ensures forall i :: 0 <= i < |s.cursors| ==> s.cursors[i].Free?
    ensures s.tokens == [0, 0, 0]
  {
    forall i | 0 <= i < |s.cursors| ensures s.cursors[i].Free? {
      assert Placed(s, s.cursors[i]);
    }
    forall k | 0 <= k < 3 ensures Count(s.cursors, k) == 0 { NoneCounted(s.cursors, k); }
  }

  lemma {:induction false} NoneCounted(cs: seq<Cursor>, k: nat)
    requires forall i :: 0 <= i < |cs| ==> cs[i].Free?
    ensures Count(cs, k) == 0
  {
    if cs != [] { NoneCounted(cs[..|cs|-1], k); }
  }

  // ---- the source object

  datatype Admission = Admitted | Closed | Rejected | Full

  /** A chunk of consecutive records, or a failure that leaves the cursor alone. */
  datatype Next = Fault | Chunk(from: nat, n: nat, done: bool)

  /** What a chunk of n records weighs; bytes is the size of each record, 0 for one
      that cannot be generated. */
  function Weight(bytes: (nat, nat) -> nat, id: nat, from: nat, n: nat): nat {
    if n == 0 then 0 else Weight(bytes, id, from, n - 1) + bytes(id, from + n - 1) + RECORD_INDEX_BYTES
  }

  lemma {:induction false} WeightGrows(bytes: (nat, nat) -> nat, id: nat, from: nat, m: nat, n: nat)
    requires m <= n
    ensures Weight(bytes, id, from, m) <= Weight(bytes, id, from, n)
  {
    if m < n { WeightGrows(bytes, id, from, m, n - 1); }
  }

  /** The first n records behind a cursor can be generated and fit. */
  ghost predicate Fits(bytes: (nat, nat) -> nat, c: Cursor, records: nat, room: nat, n: nat)
    requires c.Active?
  {
    && n <= records && c.index + n <= c.count && Weight(bytes, c.job.id, c.index, n) <= room
    && forall j :: c.index <= j < c.index + n ==> bytes(c.job.id, j) > 0
  }

  /** Generation stops at record m: it cannot be generated, or is the first and does not fit. */
  ghost predicate StuckAt(bytes: (nat, nat) -> nat, c: Cursor, records: nat, room: nat, m: nat)
    requires c.Active?
  {
    && Fits(bytes, c, records, room, m) && m < records && c.index + m < c.count
    && (bytes(c.job.id, c.index + m) == 0 || (m == 0 && bytes(c.job.id, c.index) + RECORD_INDEX_BYTES > room))
  }

  ghost predicate Stuck(bytes: (nat, nat) -> nat, c: Cursor, records: nat, room: nat)
    requires c.Active?
  {
    exists m: nat :: StuckAt(bytes, c, records, room, m)
  }

  /** A chunk of n records, none more of which could be added. */
  ghost predicate Filled(bytes: (nat, nat) -> nat, c: Cursor, records: nat, room: nat, n: nat)
    requires c.Active?
  {
    && Fits(bytes, c, records, room, n)
    && (n == records || c.index + n == c.count || !Fits(bytes, c, records, room, n + 1))
    && (n > 0 || c.index == c.count)
    && (n < records && c.index + n < c.count ==> bytes(c.job.id, c.index + n) > 0)
  }

  lemma FilledIsNotStuck(bytes: (nat, nat) -> nat, c: Cursor, records: nat, room: nat, n: nat)
    requires c.Active? && Filled(bytes, c, records, room, n) && records > 0
    ensures !Stuck(bytes, c, records, room)
  {
    forall m: nat ensures !StuckAt(bytes, c, records, room, m) {
      if m > n {
        WeightGrows(bytes, c.job.id, c.index, n + 1, m);
      } else if m < n {
        WeightGrows(bytes, c.job.id, c.index, m + 1, n);
      }
    }
  }

  function AtMost(n: int, limit: nat): nat
    requires n > 0
  {
    if n > limit then limit else n
  }

  /** The requests for a chunk that fail: no cursor walks the job, or it is stuck. */
  ghost predicate Fails(s: State, bytes: (nat, nat) -> nat, job: Job, maxRecords: int, maxBytes: int) {
    || maxRecords <= 0 || maxBytes <= 0 || !Walks(s.cursors, job)
    || exists i: nat :: IsCursorOf(s.cursors, i, job) && CannotMove(bytes, s.cursors[i], maxRecords, maxBytes)
  }

  ghost predicate CannotMove(bytes: (nat, nat) -> nat, c: Cursor, maxRecords: int, maxBytes: int)
    requires c.Active?
  {
    && maxRecords > 0 && maxBytes > 0
    && Stuck(bytes, c, AtMost(maxRecords, MAX_CHUNK_RECORDS), AtMost(maxBytes, MAX_CHUNK_BYTES))
  }

  lemma OneCursor(s: State, i: nat, j: nat, job: Job)
    requires CursorsOk(s) && IsCursorOf(s.cursors, i, job) && IsCursorOf(s.cursors, j, job)
    ensures i == j
  {
  }

  predicate IsFirstFree(cs: seq<Cursor>, i: nat) {
    i < |cs| && cs[i].Free? && forall j :: 0 <= j < i ==> cs[j].Active?
  }

  /** A chunk starts at the cursor, moves it on, and is done exactly at the end. */
  ghost predicate Generated(before: State, after: State, job: Job, r: Next) {
    r.Chunk? && exists i: nat :: IsCursorOf(before.cursors, i, job) && Moves(before, after, i, r)
  }

  /** The chunk is as long as both limits allow. */
  ghost predicate AsLongAsAllowed(s: State, bytes: (nat, nat) -> nat, job: Job, maxRecords: int, maxBytes: int, n: nat) {
    && maxRecords > 0 && maxBytes > 0
    && exists i: nat :: IsCursorOf(s.cursors, i, job)
                        && Filled(bytes, s.cursors[i], AtMost(maxRecords, MAX_CHUNK_RECORDS), AtMost(maxBytes, MAX_CHUNK_BYTES), n)
  }

  ghost predicate Moves(before: State, after: State, i: nat, r: Next)
    requires i < |before.cursors| && before.cursors[i].Active? && r.Chunk?
  {
    var c := before.cursors[i];
    && r.from == c.index && r.from + r.n <= c.count && (r.n == 0 ==> r.done) && (r.done <==> r.from + r.n == c.count)
    && after == Advance(before, i, r.from + r.n)
  }

  /** A chunk that is filled shows that the request does not fail. */
  lemma MovesUnlessStuck(s: State, bytes: (nat, nat) -> nat, i: nat, job: Job, maxRecords: int, maxBytes: int, n: nat)
    requires CursorsOk(s) && IsCursorOf(s.cursors, i, job) && maxRecords > 0 && maxBytes > 0
    requires Filled(bytes, s.cursors[i], AtMost(maxRecords, MAX_CHUNK_RECORDS), AtMost(maxBytes, MAX_CHUNK_BYTES), n)
    ensures !Fails(s, bytes, job, maxRecords, maxBytes)
    ensures AsLongAsAllowed(s, bytes, job, maxRecords, maxBytes, n)
  {
    FilledIsNotStuck(bytes, s.cursors[i], AtMost(maxRecords, MAX_CHUNK_RECORDS), AtMost(maxBytes, MAX_CHUNK_BYTES), n);
    forall j: nat | IsCursorOf(s.cursors, j, job) ensures !CannotMove(bytes, s.cursors[j], maxRecords, maxBytes) {
      OneCursor(s, i, j, job);
    }
  }

  lemma AdvanceGenerates(s: State, i: nat, job: Job, r: Next)
    requires Steady(s) && IsCursorOf(s.cursors, i, job) && r.Chunk?
    requires Moves(s, Advance(s, i, r.from + r.n), i, r)
    ensures Steady(Advance(s, i, r.from + r.n)) && Generated(s, Advance(s, i, r.from + r.n), job, r)
    ensures Ok(s) ==> Ok(Advance(s, i, r.from + r.n))
  {
    AdvanceSteady(s, i, r.from + r.n);
    if Ok(s) { AdvanceKeeps(s, i, r.from + r.n); }
  }

  /** Admissible but for its category's tokens. */
  predicate LacksToken(s: State, spec: Spec)
    requires |s.tokens| == 3
  {
    && spec.wellFormed && spec.job.kind != Unknown && spec.job.id !in s.ids
    && s.tokens[Category(spec.job.kind)] >= Capacity(Category(spec.job.kind))
  }

  class FakeSource {
    const cursors: array<Cursor>
    var tokens: seq<nat>
    var channels: seq<seq<Job>>
    var lifetimeIds: seq<nat>
    var admissionClosed: bool
    const bytes: (nat, nat) -> nat
    ghost var held: set<nat>
    ghost var counts: map<nat, nat>
    ghost var receivedLog: seq<nat>
    ghost var releasedLog: seq<nat>

    ghost function View(): State
      reads this, cursors
    {
      State(cursors[..], tokens, channels, lifetimeIds, held, counts, receivedLog, releasedLog)
    }

    ghost predicate Valid()
      reads this, cursors
    {
      Steady(View())
    }

    /** Only received jobs were released so far. */
    ghost predicate Proper()
      reads this, cursors
    {
      Ok(View())
    }

    constructor (bytes: (nat, nat) -> nat)
      ensures Valid() && Proper() && tokens == [0, 0, 0] && channels == [[], [], []] && held == {} && lifetimeIds == [] && !admissionClosed && receivedLog == [] == releasedLog
      ensures fresh(cursors)
    {
      cursors := new Cursor[MAX_ACTIVE_JOBS](_ => Free);
      tokens, channels, lifetimeIds, admissionClosed := [0, 0, 0], [[], [], []], [], false;
      this.bytes := bytes;
      held, counts, receivedLog, releasedLog := {}, map[], [], [];
      new;
      forall k | 0 <= k < 3 ensures Count(cursors[..], k) == 0 { NoneCounted(cursors[..], k); }
    }

    method HasLifetimeId(id: nat) returns (found: bool)
      ensures found <==> id in lifetimeIds
    {
      for index := 0 to |lifetimeIds|
        invariant id !in lifetimeIds[..index]
      {
        if lifetimeIds[index] == id {
          return true;
        }
      }
      return false;
    }

    method FreeCursor() returns (i: int)
      ensures i >= 0 ==> IsFirstFree(cursors[..], i)
      ensures i < 0 ==> forall j :: 0 <= j < cursors.Length ==> cursors[j].Active?
    {
      for index := 0 to cursors.Length
        invariant forall j :: 0 <= j < index ==> cursors[j].Active?
      {
        if cursors[index].Free? {
          return index;
        }
      }
      return -1;
    }

    method CursorFor(job: Job) returns (i: int)
      ensures i >= 0 ==> IsCursorOf(cursors[..], i, job)
      ensures i < 0 ==> !Walks(cursors[..], job)
    {
      for index := 0 to cursors.Length
        invariant forall j :: 0 <= j < index ==> !IsCursorOf(cursors[..], j, job)
      {
        if cursors[index].Active? && cursors[index].job == job {
          return index;
        }
      }
      return -1;
    }

    /** Admits a job when its category has a token; with a token there is always a
        free cursor and, while only received jobs are released, room in the channel. */
    method TryHistory(spec: Spec) returns (r: Admission)
      requires Valid()
      modifies this`tokens, this`channels, this`lifetimeIds, this`counts, cursors
      ensures Valid() && (old(Proper()) ==> Proper())
      ensures r == Closed <==> admissionClosed
      ensures r == Admitted <==> !admissionClosed && Admissible(old(View()), spec) && HasRoom(old(View()), spec)
      ensures r == Full <==> !admissionClosed && (LacksToken(old(View()), spec) ||
                                                  (Admissible(old(View()), spec) && !HasRoom(old(View()), spec)))
      ensures old(Proper()) && Admissible(old(View()), spec) ==> HasRoom(old(View()), spec)
      ensures if r == Admitted then exists i :: IsFirstFree(old(cursors[..]), i) && View() == Admit(old(View()), i, spec)
              else View() == old(View())
    {
      hide Ok, Steady, Count;
      SteadyShape(View());
      if Proper() && Admissible(View(), spec) { RoomIfOk(View(), spec); }
      if admissionClosed {
        return Closed;
      }
      if !spec.wellFormed || spec.job.kind == Unknown {
        return Rejected;
      }
      var category := Category(spec.job.kind);
      var seen := HasLifetimeId(spec.job.id);
      if seen {
        return Rejected;
      }
      if tokens[category] >= Capacity(category) {
        return Full;
      }
      if |lifetimeIds| >= MAX_LIFETIME_IDS {
        return Rejected;
      }
      TokenMeansCursor(View(), category);
      var free := FreeCursor();
      if free < 0 {
        assert false;
      }
      if |channels[category]| >= Capacity(category) {
        return Full;
      }
      AdmitBoth(View(), free, spec);
      ghost var before := View();
      cursors[free] := Active(spec.job, spec.count, 0);
      tokens := tokens[category := tokens[category] + 1];
      channels := channels[category := channels[category] + [spec.job]];
      lifetimeIds := lifetimeIds + [spec.job.id];
      counts := counts[spec.job.id := spec.count];
      assert View() == Admit(before, free, spec);
      return Admitted;
    }

    /** Generates the next chunk, the longest within both limits. It fails exactly when
        the call is interrupted, malformed or for no active job, or when a record within
        reach cannot be generated or the first one does not fit. */
    method NextHistory(job: Job, maxRecords: int, maxBytes: int, interrupted: bool) returns (r: Next)
      requires Valid()
      modifies cursors
      ensures Valid() && (old(Proper()) ==> Proper())
      ensures r.Fault? <==> interrupted || Fails(old(View()), bytes, job, maxRecords, maxBytes)
      ensures if r.Fault? then View() == old(View()) else Generated(old(View()), View(), job, r)
      ensures r.Chunk? ==> AsLongAsAllowed(old(View()), bytes, job, maxRecords, maxBytes, r.n)
    {
      if maxRecords <= 0 || maxBytes <= 0 || interrupted {
        return Fault;
      }
      var records := AtMost(maxRecords, MAX_CHUNK_RECORDS);
      var room := AtMost(maxBytes, MAX_CHUNK_BYTES);
      var i := CursorFor(job);
      if i < 0 {
        return Fault;
      }
      var n := 0;
      if cursors[i].index < cursors[i].count {
        var ok;
        ok, n := Fill(cursors[i], records, room);
        if !ok {
          assert CannotMove(bytes, View().cursors[i], maxRecords, maxBytes);
          return Fault;
        }
      }
      MovesUnlessStuck(View(), bytes, i, job, maxRecords, maxBytes, n);
      r := MoveCursor(i, n);
    }

    /** Moves a cursor past n records. */
    method MoveCursor(i: nat, n: nat) returns (r: Next)
      requires Valid() && i < cursors.Length && cursors[i].Active? && cursors[i].index + n <= cursors[i].count
      requires n == 0 ==> cursors[i].index == cursors[i].count
      modifies cursors
      ensures Valid() && (old(Proper()) ==> Proper()) && r.Chunk? && r.from == old(cursors[i].index) && r.n == n
      ensures Generated(old(View()), View(), old(cursors[i].job), r)
    {
      ghost var before := View();
      var cursor := cursors[i];
      r := Chunk(cursor.index, n, cursor.index + n >= cursor.count);
      AdvanceGenerates(before, i, cursor.job, r);
      cursors[i] := cursor.(index := cursor.index + n);
      assert View() == Advance(before, i, cursor.index + n);
    }

    /** Collects records while they fit; a record that cannot be generated, or a first
        one that does not fit, is a failure. */
    method Fill(cursor: Cursor, records: nat, room: nat) returns (ok: bool, n: nat)
      requires cursor.Active? && cursor.index < cursor.count && records > 0
      ensures ok <==> !Stuck(bytes, cursor, records, room)
      ensures ok ==> Filled(bytes, cursor, records, room, n)
    {
      n := 0;
      var byteSize := 0;
      while n < records && cursor.index + n < cursor.count
        invariant Fits(bytes, cursor, records, room, n)
        invariant byteSize == Weight(bytes, cursor.job.id, cursor.index, n)
      {
        var size := bytes(cursor.job.id, cursor.index + n);
        if size == 0 {
          assert StuckAt(bytes, cursor, records, room, n);
          return false, 0;
        }
        if size + RECORD_INDEX_BYTES > room - byteSize {
          if n == 0 {
            assert StuckAt(bytes, cursor, records, room, 0);
            return false, 0;
          }
          FilledIsNotStuck(bytes, cursor, records, room, n);
          return true, n;
        }
        n := n + 1;
        byteSize := byteSize + size + RECORD_INDEX_BYTES;
      }
      FilledIsNotStuck(bytes, cursor, records, room, n);
      return true, n;
    }

    /** Returns cursor and token of a job; a second release does nothing but is on record.
        A job that still waits in its channel stays there. */
    method ReleaseHistory(job: Job)
      requires Valid()
      modifies this`tokens, this`held, this`releasedLog, cursors
      ensures Valid()
      ensures old(Proper()) ==> (Proper() <==> (old(Walks(cursors[..], job)) ==> job.id in old(held)))
      ensures if old(Walks(cursors[..], job)) then exists i :: IsCursorOf(old(cursors[..]), i, job) && View() == Release(old(View()), i)
              else View() == Called(old(View()), job)
    {
      ghost var before := View();
      SteadyShape(before);
      CalledKeeps(before, job);
      hide Ok, Steady, ChannelOk, Placed, Counted, TokensOk, CursorsOk, ChannelsOk, WithinCapacity;
      releasedLog := releasedLog + [job.id];
      var i := CursorFor(job);
      if i < 0 {
        return;
      }
      ReleaseBoth(before, i);
      var category := Category(cursors[i].job.kind);
      CountUpdate(cursors[..], i, Free, category);
      cursors[i] := Free;
      if tokens[category] > 0 {
        tokens := tokens[category := tokens[category] - 1];
      }
      held := held - {job.id};
      assert View() == Release(before, i);
    }

    /** The end of the run closes admission and the channels. */
    method FinishRun()
      requires Valid()
      modifies this`admissionClosed
      ensures Valid() && (old(Proper()) ==> Proper()) && View() == old(View()) && admissionClosed
    {
      admissionClosed := true;
    }

    /** A consumer receives the next job of one channel. */
    method ReceiveJob(k: nat) returns (job: Job)
      requires Valid() && k < 3 && channels[k] != []
      modifies this`channels, this`held, this`receivedLog
      ensures Valid() && View() == Receive(old(View()), k)
      ensures job == old(channels[k][0]) && Category(job.kind) == k
      ensures old(Proper()) ==> Proper() && Walks(cursors[..], job)
    {
      ReceiveSteady(View(), k);
      if Proper() { ReceiveKeeps(View(), k); }
      assert channels[k][0] in channels[k];
      job := channels[k][0];
      held := held + {job.id};
      receivedLog := receivedLog + [job.id];
      channels := channels[k := channels[k][1..]];
    }
  }

  /** A job released before it was received: its channel is full although its category has
      no token out, and the next job is turned away. */
  method WaitingReleaseFills(bytes: (nat, nat) -> nat) returns (source: FakeSource, first: Admission, second: Admission)
    ensures fresh(source) && first == Admitted && second == Full
    ensures source.Valid() && !source.Proper() && source.tokens == [0, 0, 0] && |source.channels[2]| == 1
  {
    hide Ok, Steady;
    source := new FakeSource(bytes);
    var one, two := Spec(Job(1, Bulk), 0, true), Spec(Job(2, Bulk), 0, true);
    assert Admissible(source.View(), one) && HasRoom(source.View(), one);
    ghost var r := source.View();
    first := source.TryHistory(one);
    ghost var s := source.View();
    ghost var i :| IsFirstFree(r.cursors, i) && s == Admit(r, i, one);
    assert IsCursorOf(s.cursors, i, one.job);
    source.ReleaseHistory(one.job);
    ghost var t := source.View();
    assert Admissible(t, two) && !HasRoom(t, two);
    second := source.TryHistory(two);
  }
}
