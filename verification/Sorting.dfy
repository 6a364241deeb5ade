/** The library sort, for any strict order: an insertion sort with the same result. */
module Sorting {
  ghost predicate Ordered<T>(s: seq<T>, before: (T, T) -> bool) {
    forall i, j :: 0 <= i < j < |s| ==> before(s[i], s[j])
  }

  ghost predicate Transitive<T(!new)>(before: (T, T) -> bool) {
    forall x, y, z :: before(x, y) && before(y, z) ==> before(x, z)
  }

  /** Elements in different places are ordered one way or the other. */
  ghost predicate Comparable<T>(work: seq<T>, before: (T, T) -> bool) {
    forall i, j :: 0 <= i < j < |work| ==> before(work[i], work[j]) || before(work[j], work[i])
  }

  lemma InsertedInOrder<T(!new)>(s: seq<T>, before: (T, T) -> bool, p: nat, m: T)
    requires Ordered(s, before) && Transitive(before) && p <= |s|
    requires p > 0 ==> before(s[p-1], m)
    requires forall j :: p <= j < |s| ==> before(m, s[j])
    ensures Ordered(s[..p] + [m] + s[p..], before)
    ensures multiset(s[..p] + [m] + s[p..]) == multiset(s) + multiset{m}
  {
    var t := s[..p] + [m] + s[p..];
    forall i, j | 0 <= i < j < |t| ensures before(t[i], t[j]) {
      if i < p <= j { assert i == p - 1 || before(s[i], s[p-1]); }
    }
    assert s == s[..p] + s[p..];
  }

  /** The place of one more element. */
  lemma {:induction false} PlaceFor<T(!new)>(s: seq<T>, before: (T, T) -> bool, m: T, n: nat) returns (p: nat)
    requires n <= |s| && forall j :: n <= j < |s| ==> before(m, s[j])
    requires forall j :: 0 <= j < |s| ==> before(s[j], m) || before(m, s[j])
    ensures p <= n && (p > 0 ==> before(s[p-1], m)) && forall j :: p <= j < |s| ==> before(m, s[j])
    decreases n
  {
    p := n;
    if n > 0 && before(m, s[n-1]) { p := PlaceFor(s, before, m, n - 1); }
  }

  lemma NextComparable<T>(s: seq<T>, work: seq<T>, before: (T, T) -> bool, i: nat)
    requires i < |work| && Comparable(work, before) && multiset(s) == multiset(work[..i])
    ensures forall j :: 0 <= j < |s| ==> before(s[j], work[i]) || before(work[i], s[j])
    ensures multiset(work[..i+1]) == multiset(s) + multiset{work[i]}
  {
    assert work[..i+1] == work[..i] + [work[i]];
    forall j | 0 <= j < |s| ensures before(s[j], work[i]) || before(work[i], s[j]) {
      assert s[j] in multiset(s);
      assert s[j] in work[..i];
    }
  }

  method Insert<T(!new)>(s: seq<T>, before: (T, T) -> bool, m: T) returns (t: seq<T>)
    requires Ordered(s, before) && Transitive(before)
    requires forall j :: 0 <= j < |s| ==> before(s[j], m) || before(m, s[j])
    ensures Ordered(t, before) && multiset(t) == multiset(s) + multiset{m}
  {
    var p := |s|;
    while p > 0 && before(m, s[p-1])
      invariant 0 <= p <= |s|
      invariant forall j :: p <= j < |s| ==> before(m, s[j])
    {
      p := p - 1;
    }
    InsertedInOrder(s, before, p, m);
    t := s[..p] + [m] + s[p..];
  }

  method Sort<T(!new)>(work: seq<T>, before: (T, T) -> bool) returns (s: seq<T>)
    requires Transitive(before) && Comparable(work, before)
    ensures Ordered(s, before) && multiset(s) == multiset(work)
  {
    s := [];
    for i := 0 to |work|
      invariant Ordered(s, before) && multiset(s) == multiset(work[..i])
    {
      NextComparable(s, work, before, i);
      s := Insert(s, before, work[i]);
    }
    assert work[..|work|] == work;
  }
}
