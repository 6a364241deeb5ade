/** Keyed tables trimmed to their newest entries.

    Several bounded structures of the client keep one latest value per key and
    at most k keys, the newest by timestamp with the key breaking ties. This
    module states once what "the newest k" is and that trimming early never
    changes the final result. */
module Frontier {

  /** Two-part identifier; only the order of its parts is used. */
  datatype Key = Key(major: int, minor: int)

  datatype Stamped<V> = Stamped(at: int, value: V)

  type Table<V> = map<Key, Stamped<V>>

  /** Which of two equally old keys counts as newer. */
  datatype Tie = LargerFirst | SmallerFirst

  predicate KeyLess(a: Key, b: Key) {
    a.major < b.major || (a.major == b.major && a.minor < b.minor)
  }

  predicate Ahead(tie: Tie, aAt: int, a: Key, bAt: int, b: Key) {
    || aAt > bAt
    || (aAt == bAt && if tie.LargerFirst? then KeyLess(b, a) else KeyLess(a, b))
  }

  /** The keys of m that are newer than q. */
  function Higher<V>(tie: Tie, m: Table<V>, q: Key): set<Key>
    requires q in m
  {
    set p | p in m && Ahead(tie, m[p].at, p, m[q].at, q)
  }

  predicate Kept<V>(tie: Tie, m: Table<V>, q: Key, k: nat)
    requires q in m
  {
    |Higher(tie, m, q)| < k
  }

  /** The entries of m with fewer than k newer ones. */
  function Trim<V>(tie: Tie, m: Table<V>, k: nat): Table<V> {
    map q | q in m && Kept(tie, m, q, k) :: m[q]
  }

  /** The kept keys of m that are newer than q. */
  function KeptAhead<V>(tie: Tie, m: Table<V>, q: Key, k: nat): set<Key>
    requires q in m
  {
    set p | p in Higher(tie, m, q) && Kept(tie, m, p, k)
  }

  lemma SubsetSize<T>(a: set<T>, b: set<T>)
    requires a <= b
    ensures |a| <= |b|
  {
    assert b == a + (b - a);
  }

  /** A dropped entry has k newer entries that are themselves kept. */
  lemma {:induction false} DroppedIsBeaten<V>(tie: Tie, m: Table<V>, q: Key, k: nat)
    requires q in m && !Kept(tie, m, q, k)
    ensures |KeptAhead(tie, m, q, k)| >= k
    decreases |Higher(tie, m, q)|
  {
    if p :| p in Higher(tie, m, q) && !Kept(tie, m, p, k) {
      assert Higher(tie, m, p) < Higher(tie, m, q) by { assert p !in Higher(tie, m, p); }
      SubsetSize(Higher(tie, m, p), Higher(tie, m, q) - {p});
      DroppedIsBeaten(tie, m, p, k);
      SubsetSize(KeptAhead(tie, m, p, k), KeptAhead(tie, m, q, k));
    } else {
      assert Higher(tie, m, q) <= KeptAhead(tie, m, q, k);
      SubsetSize(Higher(tie, m, q), KeptAhead(tie, m, q, k));
    }
  }

  /** x holds every entry that y would keep, and no entry of x is newer than y's
      entry for the same key. */
  ghost predicate Between<V>(tie: Tie, x: Table<V>, y: Table<V>, k: nat) {
    && (forall q :: q in y && Kept(tie, y, q, k) ==> q in x && x[q] == y[q])
    && (forall q :: q in x ==> q in y && x[q].at <= y[q].at)
  }

  /** The workhorse: any table between y's trimming and y trims to the same. */
  lemma Sandwich<V>(tie: Tie, x: Table<V>, y: Table<V>, k: nat)
    requires Between(tie, x, y, k)
    ensures Trim(tie, x, k) == Trim(tie, y, k)
  {
    forall q | q in y && Kept(tie, y, q, k)
      ensures Kept(tie, x, q, k)
    {
      SubsetSize(Higher(tie, x, q), Higher(tie, y, q));
    }
    forall q | q in x && !Kept(tie, y, q, k)
      ensures !Kept(tie, x, q, k)
    {
      DroppedIsBeaten(tie, y, q, k);
      SubsetSize(KeptAhead(tie, y, q, k), Higher(tie, x, q));
    }
  }

  /** An entry dropped from a table is dropped from any larger and newer one. */
  lemma StaysDropped<V>(tie: Tie, a: Table<V>, b: Table<V>, q: Key, k: nat)
    requires q in a && q in b && a[q] == b[q] && !Kept(tie, a, q, k)
    requires forall p :: p in a ==> p in b && a[p].at <= b[p].at
    ensures !Kept(tie, b, q, k)
  {
    SubsetSize(Higher(tie, a, q), Higher(tie, b, q));
  }

  lemma TrimIdempotent<V>(tie: Tie, m: Table<V>, k: nat)
    ensures Trim(tie, Trim(tie, m, k), k) == Trim(tie, m, k)
  {
    Sandwich(tie, Trim(tie, m, k), m, k);
  }

  /** The oldest key of a nonempty part of a table. */
  lemma {:induction false} Oldest<V>(tie: Tie, m: Table<V>, s: set<Key>) returns (o: Key)
    requires s != {} && s <= m.Keys
    ensures o in s
    ensures forall p :: p in s && p != o ==> Ahead(tie, m[p].at, p, m[o].at, o)
  {
    o :| o in s;
    if s != {o} {
      var r := Oldest(tie, m, s - {o});
      if Ahead(tie, m[o].at, o, m[r].at, r) { o := r; }
    }
  }

  /** Trimming keeps min(k, |m|) entries. */
  lemma TrimSize<V>(tie: Tie, m: Table<V>, k: nat)
    ensures |Trim(tie, m, k)| == if |m| <= k then |m| else k
    ensures |m| <= k ==> Trim(tie, m, k) == m
  {
    var t := Trim(tie, m, k);
    if t.Keys != {} {
      var o := Oldest(tie, m, t.Keys);
      assert t.Keys <= Higher(tie, m, o) + {o};
      SubsetSize(t.Keys, Higher(tie, m, o) + {o});
      assert |t.Keys| <= k;
    }
    if q :| q in m && !Kept(tie, m, q, k) {
      DroppedIsBeaten(tie, m, q, k);
      SubsetSize(KeptAhead(tie, m, q, k), t.Keys);
      assert q !in t.Keys;
      SubsetSize(t.Keys + {q}, m.Keys);
    } else {
      assert t == m;
    }
  }

  /** Independent description: the trimming is the only part of m with
      min(k, |m|) entries all of which are newer than every entry left out. */
  lemma TrimUnique<V>(tie: Tie, m: Table<V>, k: nat, s: set<Key>)
    requires s <= m.Keys && |s| == if |m| <= k then |m| else k
    requires forall p, q :: p in s && q in m && q !in s ==> Ahead(tie, m[p].at, p, m[q].at, q)
    ensures Trim(tie, m, k).Keys == s
  {
    assert |m| == |m.Keys|;
    forall q | q in m
      ensures Kept(tie, m, q, k) <==> q in s
    {
      if q in s {
        assert Higher(tie, m, q) <= s - {q};
        SubsetSize(Higher(tie, m, q), s - {q});
      } else {
        assert s <= Higher(tie, m, q);
        SubsetSize(s, Higher(tie, m, q));
        SubsetSize(s + {q}, m.Keys);
      }
    }
  }

  /** A replacement rule that never prefers the older of two values. */
  ghost predicate NewestWins<V(!new)>(better: (Stamped<V>, Stamped<V>) -> bool) {
    forall a, b :: (better(a, b) ==> a.at >= b.at) && (!better(a, b) ==> a.at <= b.at)
  }

  /** Insert, or replace when the new value is better. */
  function Put<V>(m: Table<V>, key: Key, v: Stamped<V>, better: (Stamped<V>, Stamped<V>) -> bool): Table<V> {
    if key in m && !better(v, m[key]) then m else m[key := v]
  }

  /** Trimming before an insertion never changes the trimmed outcome. */
  lemma TrimEarly<V(!new)>(tie: Tie, t: Table<V>, m: Table<V>, key: Key, v: Stamped<V>,
                     better: (Stamped<V>, Stamped<V>) -> bool, k: nat)
    requires NewestWins(better)
    requires t == Trim(tie, m, k)
    ensures Between(tie, Put(t, key, v, better), Put(m, key, v, better), k)
    ensures Trim(tie, Put(t, key, v, better), k) == Trim(tie, Put(m, key, v, better), k)
  {
    var x, y := Put(t, key, v, better), Put(m, key, v, better);
    assert key in m ==> y[key].at >= m[key].at;
    forall q | q in y && Kept(tie, y, q, k)
      ensures q in x && x[q] == y[q]
    {
      if q in m && y[q] == m[q] {
        SubsetSize(Higher(tie, m, q), Higher(tie, y, q));
        assert q in t;
      }
    }
    Sandwich(tie, x, y, k);
  }

  /** A class of keys: one major identifier, or every one outside a set. */
  datatype Class = One(id: int) | Outside(ids: set<int>) {
    predicate Has(i: int) {
      match this
      case One(id) => i == id
      case Outside(ids) => i !in ids
    }
  }

  function Part<V>(m: Table<V>, c: Class): Table<V> {
    map q | q in m && c.Has(q.major) :: m[q]
  }

  lemma PartOfPut<V>(m: Table<V>, c: Class, key: Key, v: Stamped<V>, better: (Stamped<V>, Stamped<V>) -> bool)
    ensures c.Has(key.major) ==> Part(Put(m, key, v, better), c) == Put(Part(m, c), key, v, better)
    ensures !c.Has(key.major) ==> Part(Put(m, key, v, better), c) == Part(m, c)
  {
  }

  lemma PartOfUpdate<V>(m: Table<V>, c: Class, key: Key, v: Stamped<V>)
    ensures Part(m[key := v], c) == if c.Has(key.major) then Part(m, c)[key := v] else Part(m, c)
  {
  }

  lemma SplitSize<V>(m: Table<V>, i: int)
    ensures |m| == |Part(m, One(i))| + |Part(m, Outside({i}))|
  {
    var a, b := Part(m, One(i)), Part(m, Outside({i}));
    assert m.Keys == a.Keys + b.Keys && a.Keys !! b.Keys;
  }
}
