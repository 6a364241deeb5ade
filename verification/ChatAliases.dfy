/** The session registry of phone-number and hidden-user chat identities: an array
    of entries that is a partial matching on identities. */
module ChatAliases {
  import opened Wrappers

  datatype Server = Phone | Hidden

  /** Canonical chat identities. Only direct conversations take part; NoId is the
      empty identifier. */
  datatype ChatId = NoId | Direct(server: Server, user: nat) | Other(name: nat)

  datatype Entry = Entry(primary: ChatId, alternate: ChatId) {
    predicate Has(id: ChatId) { primary == id || alternate == id }

    function Opposite(id: ChatId): ChatId { if primary == id then alternate else primary }
  }

  datatype Error = Full | Conflict

  datatype Result = Resolved(id: ChatId) | Failed(error: Error)

  /** A pairing for the conversation is authoritative only between direct
      identities of opposite servers. */
  function Authoritative(primary: ChatId, alternate: ChatId): ChatId {
    if primary.Direct? && alternate.Direct? && primary.server != alternate.server then alternate else NoId
  }

  /** A direct identity on each server. */
  predicate OnBoth(a: ChatId, b: ChatId) {
    && a.Direct? && b.Direct?
    && ((a.server.Phone? && b.server.Hidden?) || (a.server.Hidden? && b.server.Phone?))
  }

  // ---- the registry as a matching

  predicate WellPaired(primary: ChatId, alternate: ChatId) {
    primary.Direct? && (alternate == NoId || Authoritative(primary, alternate) == alternate)
  }

  predicate Apart(a: Entry, b: Entry) {
    !b.Has(a.primary) && (a.alternate != NoId ==> !b.Has(a.alternate))
  }

  /** No identity occurs twice; entries join opposite direct identities only. */
  predicate Matching(es: seq<Entry>) {
    && (forall i :: 0 <= i < |es| ==> WellPaired(es[i].primary, es[i].alternate))
    && (forall i, j :: 0 <= i < j < |es| ==> Apart(es[i], es[j]))
  }

  /** The last of the first n entries with an identity, or -1. */
  function Find(es: seq<Entry>, id: ChatId, n: nat): (f: int)
    requires n <= |es|
    ensures -1 <= f < n && (f >= 0 ==> es[f].Has(id))
    ensures f < 0 ==> forall i :: 0 <= i < n ==> !es[i].Has(id)
  {
    if n == 0 then -1 else if es[n-1].Has(id) then n - 1 else Find(es, id, n - 1)
  }

  /** None for an unknown identity, NoId for one known alone. */
  function Partner(es: seq<Entry>, id: ChatId): Option<ChatId> {
    var f := Find(es, id, |es|);
    if id == NoId || f < 0 then None else Some(es[f].Opposite(id))
  }

  lemma PartnerIs(es: seq<Entry>, i: nat, id: ChatId)
    requires Matching(es) && i < |es| && id != NoId && es[i].Has(id)
    ensures Find(es, id, |es|) == i && Partner(es, id) == Some(es[i].Opposite(id))
  {
  }

  /** The partner of an identity has that identity as its partner. */
  lemma PartnersAreMutual(es: seq<Entry>, a: ChatId, b: ChatId)
    requires Matching(es) && a != NoId && b != NoId
    ensures Partner(es, a) == Some(b) ==> Partner(es, b) == Some(a) && Authoritative(a, b) == b
  {
    if Partner(es, a) == Some(b) {
      var i := Find(es, a, |es|);
      PartnerIs(es, i, b);
    }
  }

  // ---- edits

  lemma AppendEntry(es: seq<Entry>, p: ChatId, a: ChatId)
    requires Matching(es) && p.Direct? && (a == NoId || Authoritative(p, a) == a)
    requires Find(es, p, |es|) < 0 && (a != NoId ==> Find(es, a, |es|) < 0)
    ensures Matching(es + [Entry(p, a)])
    ensures forall id :: Partner(es + [Entry(p, a)], id) ==
              if id == p then Some(a) else if id == a && a != NoId then Some(p) else Partner(es, id)
  {
    var t := es + [Entry(p, a)];
    forall id ensures Partner(t, id) ==
        if id == p then Some(a) else if id == a && a != NoId then Some(p) else Partner(es, id)
    {
      if t[|es|].Has(id) && id != NoId {
        PartnerIs(t, |es|, id);
      } else {
        var f := Find(es, id, |es|);
        if f >= 0 && id != NoId { assert t[f] == es[f]; PartnerIs(t, f, id); }
        var g := Find(t, id, |t|);
        if g >= 0 && id != NoId { assert t[g] == es[g]; }
      }
    }
  }

  /** Rewriting one entry: the identities it names trade partners, no others do. */
  lemma RewriteEntry(es: seq<Entry>, i: nat, e: Entry)
    requires Matching(es) && i < |es| && Matching(es[i := e])
    requires es[i].primary == e.primary || es[i].primary == e.alternate
    requires es[i].alternate != NoId ==> e.Has(es[i].alternate)
    ensures forall id :: Partner(es[i := e], id) ==
              if id != NoId && e.Has(id) then Some(e.Opposite(id)) else Partner(es, id)
  {
    var t := es[i := e];
    forall id ensures Partner(t, id) == if id != NoId && e.Has(id) then Some(e.Opposite(id)) else Partner(es, id) {
      if id != NoId {
        if e.Has(id) {
          PartnerIs(t, i, id);
        } else {
          var f, g := Find(es, id, |es|), Find(t, id, |t|);
          if f >= 0 { PartnerIs(t, f, id); }
          if g >= 0 { PartnerIs(es, g, id); }
        }
      }
    }
  }

  function Without(es: seq<Entry>, i: nat): seq<Entry>
    requires i < |es|
  {
    es[..i] + es[i+1..]
  }

  /** Two singletons and the entry that joins them. */
  ghost predicate Mergeable(es: seq<Entry>, keep: nat, remove: nat, e: Entry) {
    && Matching(es) && keep < remove < |es|
    && es[keep].alternate == NoId && es[remove].alternate == NoId
    && ((e.primary == es[keep].primary && e.alternate == es[remove].primary)
        || (e.primary == es[remove].primary && e.alternate == es[keep].primary))
    && Authoritative(e.primary, e.alternate) == e.alternate && e.alternate != NoId
  }

  /** Merging two singletons: the kept slot joins them, the other slot goes. */
  lemma MergeEntries(es: seq<Entry>, keep: nat, remove: nat, e: Entry)
    requires Mergeable(es, keep, remove, e)
    ensures Matching(Without(es[keep := e], remove))
    ensures forall id :: Partner(Without(es[keep := e], remove), id) ==
              if id != NoId && e.Has(id) then Some(e.Opposite(id)) else Partner(es, id)
  {
    MergedMatching(es, keep, remove, e);
    forall id ensures Partner(Without(es[keep := e], remove), id) ==
        if id != NoId && e.Has(id) then Some(e.Opposite(id)) else Partner(es, id)
    {
      if id != NoId { MergedPartner(es, keep, remove, e, id); }
    }
  }

  lemma MergedMatching(es: seq<Entry>, keep: nat, remove: nat, e: Entry)
    requires Mergeable(es, keep, remove, e)
    ensures Matching(Without(es[keep := e], remove))
  {
    var t := Without(es[keep := e], remove);
    assert forall i :: 0 <= i < |t| ==> t[i] == if i == keep then e else if i < remove then es[i] else es[i+1];
  }

  lemma MergedPartner(es: seq<Entry>, keep: nat, remove: nat, e: Entry, id: ChatId)
    requires Mergeable(es, keep, remove, e) && id != NoId
    ensures Partner(Without(es[keep := e], remove), id) == if e.Has(id) then Some(e.Opposite(id)) else Partner(es, id)
  {
    var t := Without(es[keep := e], remove);
    MergedMatching(es, keep, remove, e);
    assert forall i :: 0 <= i < |t| ==> t[i] == if i == keep then e else if i < remove then es[i] else es[i+1];
    if e.Has(id) {
      PartnerIs(t, keep, id);
    } else {
      var f, g := Find(es, id, |es|), Find(t, id, |t|);
      if f >= 0 { PartnerIs(t, if f < remove then f else f - 1, id); }
      if g >= 0 { PartnerIs(es, if g < remove then g else g + 1, id); }
    }
  }

  // ---- what the two resolutions promise

  predicate Known(es: seq<Entry>, id: ChatId) { Partner(es, id).Some? }

  /** Already joined, to an identity other than the offered one. */
  predicate JoinedElsewhere(es: seq<Entry>, id: ChatId, offered: ChatId) {
    Known(es, id) && Partner(es, id).value != NoId && Partner(es, id).value != offered
  }

  /** The partners after p and a (possibly NoId) are joined. */
  ghost predicate Joins(before: seq<Entry>, after: seq<Entry>, p: ChatId, a: ChatId) {
    forall id :: Partner(after, id) ==
      if a != NoId && id == p then Some(a)
      else if a != NoId && id == a then Some(p)
      else if id == p && !Known(before, p) then Some(NoId)
      else Partner(before, id)
  }

  ghost predicate SamePartners(before: seq<Entry>, after: seq<Entry>) {
    forall id :: Partner(after, id) == Partner(before, id)
  }

  /** The identity that speaks for a conversation. */
  function Canonical(es: seq<Entry>, id: ChatId): ChatId {
    var f := Find(es, id, |es|);
    if f < 0 then NoId else es[f].primary
  }

  predicate Conflicts(es: seq<Entry>, p: ChatId, a: ChatId) {
    a != NoId && (JoinedElsewhere(es, p, a) || JoinedElsewhere(es, a, p))
  }

  /** A served call: the two are joined, and the answer is the canonical identity. */
  ghost predicate Served(before: seq<Entry>, after: seq<Entry>, p: ChatId, a: ChatId, answer: ChatId) {
    !Conflicts(before, p, a) && Joins(before, after, p, a) && answer == Canonical(after, p)
  }

  /** A served call with an identity on each server makes each the other's partner; offered
      anything else it pairs nobody. */
  lemma ServedPairs(before: seq<Entry>, after: seq<Entry>, p: ChatId, offered: ChatId, answer: ChatId)
    requires p.Direct? && Matching(after) && Served(before, after, p, Authoritative(p, offered), answer)
    ensures OnBoth(p, offered) ==> Partner(after, p) == Some(offered) && Partner(after, offered) == Some(p)
    ensures !OnBoth(p, offered) ==>
              forall id :: Partner(after, id) == if id == p && !Known(before, p) then Some(NoId) else Partner(before, id)
  {
  }

  // ---- who speaks after a routing call

  /** A slot of the conversation of p and a with none before it. */
  predicate OldestSlot(es: seq<Entry>, p: ChatId, a: ChatId, i: nat) {
    && i < |es| && (es[i].Has(p) || (a != NoId && es[i].Has(a)))
    && forall j :: 0 <= j < i ==> !es[j].Has(p) && (a != NoId ==> !es[j].Has(a))
  }

  /** The oldest slot of the two identities speaks for them, or p when there is none. */
  ghost predicate Speaks(es: seq<Entry>, p: ChatId, a: ChatId, answer: ChatId) {
    if Known(es, p) || Known(es, a) then exists i: nat :: OldestSlot(es, p, a, i) && answer == es[i].primary else answer == p
  }

  function SlotOf(es: seq<Entry>, id: ChatId): int { Find(es, id, |es|) }

  /** An identity outside the call. */
  predicate Aside(es: seq<Entry>, p: ChatId, a: ChatId, id: ChatId) {
    Known(es, id) && (a != NoId ==> id != p && id != a)
  }

  /** Who is outside the call keeps canonical identity and age. */
  ghost predicate KeepsOthers(before: seq<Entry>, after: seq<Entry>, p: ChatId, a: ChatId) {
    && (forall id :: Aside(before, p, a, id) ==> Canonical(after, id) == Canonical(before, id))
    && (forall x, y :: Aside(before, p, a, x) && Aside(before, p, a, y) ==>
          (SlotOf(before, x) <= SlotOf(before, y) <==> SlotOf(after, x) <= SlotOf(after, y)))
    && (!Known(before, p) && !Known(before, a) ==>
          forall id :: Aside(before, p, a, id) ==> SlotOf(after, id) < SlotOf(after, p))
  }

  /** A served routing call: joined, answered by the older of the two, nobody else moved. */
  ghost predicate Routed(before: seq<Entry>, after: seq<Entry>, p: ChatId, a: ChatId, answer: ChatId) {
    Served(before, after, p, a, answer) && Speaks(before, p, a, answer) && KeepsOthers(before, after, p, a)
  }

  /** Where one edit leaves an identity. */
  ghost predicate SlotsMove(es: seq<Entry>, t: seq<Entry>, e: Entry, at: nat, gone: int) {
    && at < |t| && t[at] == e
    && (forall id :: id != NoId && e.Has(id) ==> SlotOf(t, id) == at)
    && (forall id :: id != NoId && !e.Has(id) ==>
          var f := SlotOf(es, id);
          SlotOf(t, id) == (if gone >= 0 && f > gone then f - 1 else f) && (f >= 0 ==> SlotOf(t, id) >= 0 && t[SlotOf(t, id)] == es[f]))
  }

  lemma AppendMoves(es: seq<Entry>, e: Entry)
    requires Matching(es + [e])
    ensures SlotsMove(es, es + [e], e, |es|, -1)
  {
    var t := es + [e];
    forall id | id != NoId
      ensures e.Has(id) ==> SlotOf(t, id) == |es|
      ensures !e.Has(id) ==> SlotOf(t, id) == SlotOf(es, id) && (SlotOf(es, id) >= 0 ==> t[SlotOf(t, id)] == es[SlotOf(es, id)])
    {
      assert t[|es|] == e;
      if e.Has(id) {
        PartnerIs(t, |es|, id);
      } else {
        FrontFind(es, e, id);
      }
    }
  }

  lemma FrontFind(es: seq<Entry>, e: Entry, id: ChatId)
    requires Matching(es + [e]) && id != NoId && !e.Has(id)
    ensures SlotOf(es + [e], id) == SlotOf(es, id)
  {
    var t, f, g := es + [e], SlotOf(es, id), SlotOf(es + [e], id);
    if f >= 0 { assert t[f] == es[f]; PartnerIs(t, f, id); }
    if g >= 0 { assert t[g] == es[g]; }
  }

  lemma RewriteMoves(es: seq<Entry>, i: nat, e: Entry)
    requires Matching(es) && i < |es| && Matching(es[i := e]) && e.Has(es[i].primary) && (es[i].alternate != NoId ==> e.Has(es[i].alternate))
    ensures SlotsMove(es, es[i := e], e, i, -1)
  {
    var t := es[i := e];
    forall id | id != NoId
      ensures e.Has(id) ==> SlotOf(t, id) == i
      ensures !e.Has(id) ==> SlotOf(t, id) == SlotOf(es, id) && (SlotOf(es, id) >= 0 ==> t[SlotOf(t, id)] == es[SlotOf(es, id)])
    {
      if e.Has(id) {
        PartnerIs(t, i, id);
      } else {
        var f, g := SlotOf(es, id), SlotOf(t, id);
        if f >= 0 { PartnerIs(t, f, id); }
        if g >= 0 { PartnerIs(es, g, id); }
      }
    }
  }

  lemma MergeMoves(es: seq<Entry>, keep: nat, remove: nat, e: Entry)
    requires Mergeable(es, keep, remove, e)
    ensures SlotsMove(es, Without(es[keep := e], remove), e, keep, remove)
  {
    var t := Without(es[keep := e], remove);
    MergedMatching(es, keep, remove, e);
    assert forall i :: 0 <= i < |t| ==> t[i] == if i == keep then e else if i < remove then es[i] else es[i+1];
    forall id | id != NoId
      ensures e.Has(id) ==> SlotOf(t, id) == keep
      ensures !e.Has(id) ==> var f := SlotOf(es, id);
        SlotOf(t, id) == (if f > remove then f - 1 else f) && (f >= 0 ==> SlotOf(t, id) >= 0 && t[SlotOf(t, id)] == es[f])
    {
      if e.Has(id) {
        PartnerIs(t, keep, id);
      } else {
        var f, g := SlotOf(es, id), SlotOf(t, id);
        if f >= 0 { PartnerIs(t, if f < remove then f else f - 1, id); }
        if g >= 0 { PartnerIs(es, if g < remove then g else g + 1, id); }
      }
    }
  }

  /** An edit that names no identity but those of the call keeps the others. */
  lemma MovesKeepOthers(es: seq<Entry>, t: seq<Entry>, p: ChatId, a: ChatId, e: Entry, at: nat, gone: int)
    requires SlotsMove(es, t, e, at, gone) && p != NoId
    requires forall id :: id != NoId && e.Has(id) ==> id == p || id == a
    requires a == NoId ==> !Known(es, p)
    requires gone < |es| && (gone >= 0 ==> forall id :: id != NoId && es[gone].Has(id) ==> e.Has(id))
    requires !Known(es, p) && !Known(es, a) ==> at == |es| && gone < 0 && e.Has(p)
    ensures KeepsOthers(es, t, p, a)
  {
    forall id | Aside(es, p, a, id)
      ensures id != NoId && !e.Has(id) && Canonical(t, id) == Canonical(es, id) && SlotOf(es, id) >= 0 && SlotOf(es, id) != gone
    {
    }
  }

  lemma StillKeepsOthers(es: seq<Entry>, p: ChatId, a: ChatId)
    requires Known(es, p) || Known(es, a)
    ensures KeepsOthers(es, es, p, a)
  {
  }

  /** The first slot with one of two identities that have no other slot. */
  lemma SpeaksAt(es: seq<Entry>, p: ChatId, a: ChatId, i: nat)
    requires Matching(es) && p.Direct? && i < |es| && (es[i].Has(p) || (a != NoId && es[i].Has(a)))
    requires SlotOf(es, p) < 0 || SlotOf(es, p) >= i
    requires a != NoId ==> SlotOf(es, a) < 0 || SlotOf(es, a) >= i
    ensures Speaks(es, p, a, es[i].primary)
  {
    forall j | 0 <= j < i ensures !es[j].Has(p) && (a != NoId ==> !es[j].Has(a)) {
      if es[j].Has(p) { PartnerIs(es, j, p); }
      if a != NoId && es[j].Has(a) { PartnerIs(es, j, a); }
    }
    assert OldestSlot(es, p, a, i);
    if es[i].Has(p) { PartnerIs(es, i, p); } else { PartnerIs(es, i, a); }
  }

  lemma MergeRoutes(es: seq<Entry>, p: ChatId, a: ChatId, keep: nat, remove: nat)
    requires Matching(es) && keep < remove < |es| && p.Direct? && a != NoId && Authoritative(p, a) == a
    requires es[keep].alternate == NoId && es[remove].alternate == NoId
    requires (es[keep].primary == p && es[remove].primary == a) || (es[keep].primary == a && es[remove].primary == p)
    ensures var e := Entry(es[keep].primary, es[remove].primary);
      KeepsOthers(es, Without(es[keep := e], remove), p, a) && Speaks(es, p, a, es[keep].primary)
  {
    var e := Entry(es[keep].primary, es[remove].primary);
    PartnerIs(es, keep, es[keep].primary);
    PartnerIs(es, remove, es[remove].primary);
    SpeaksAt(es, p, a, keep);
    MergeMoves(es, keep, remove, e);
    MovesKeepOthers(es, Without(es[keep := e], remove), p, a, e, keep, remove);
  }

  /** An identity outside the conversation of a send. */
  predicate Strange(es: seq<Entry>, p: ChatId, a: ChatId, id: ChatId) {
    Known(es, id) && id != p && (a != NoId ==> id != a) && Partner(es, id) != Some(p)
  }

  ghost predicate KeepsStrangers(before: seq<Entry>, after: seq<Entry>, p: ChatId, a: ChatId) {
    && (forall id :: Strange(before, p, a, id) ==> Canonical(after, id) == Canonical(before, id))
    && (forall x, y :: Strange(before, p, a, x) && Strange(before, p, a, y) ==>
          (SlotOf(before, x) <= SlotOf(before, y) <==> SlotOf(after, x) <= SlotOf(after, y)))
  }

  lemma MovesKeepStrangers(es: seq<Entry>, t: seq<Entry>, p: ChatId, a: ChatId, e: Entry, at: nat, gone: int)
    requires SlotsMove(es, t, e, at, gone)
    requires forall id :: id != NoId && e.Has(id) ==> id == p || id == a || Partner(es, id) == Some(p)
    requires gone < |es| && (gone >= 0 ==> forall id :: id != NoId && es[gone].Has(id) ==> e.Has(id))
    ensures KeepsStrangers(es, t, p, a)
  {
    forall id | Strange(es, p, a, id)
      ensures id != NoId && !e.Has(id) && Canonical(t, id) == Canonical(es, id) && SlotOf(es, id) >= 0 && SlotOf(es, id) != gone
    {
    }
  }

  /** A send also refuses to enter a conversation known only by the other identity. */
  predicate SendConflicts(es: seq<Entry>, p: ChatId, a: ChatId) {
    Conflicts(es, p, a) || (a != NoId && !Known(es, p) && Known(es, a))
  }

  predicate NoRoom(es: seq<Entry>, p: ChatId, a: ChatId, capacity: nat) {
    !Known(es, p) && !Known(es, a) && |es| == capacity
  }

  /** What the two methods find out before they edit: the slots of the two identities. */
  ghost predicate Located(es: seq<Entry>, p: ChatId, a: ChatId, first: int, second: int) {
    && Matching(es) && p.Direct? && Authoritative(p, a) == a
    && first == Find(es, p, |es|)
    && second == if a == NoId then -1 else Find(es, a, |es|)
  }

  /** Two established entries: a conflict as soon as one of them is joined. */
  lemma TwoSlots(es: seq<Entry>, p: ChatId, a: ChatId, first: int, second: int)
    requires Located(es, p, a, first, second) && first >= 0 && second >= 0 && first != second
    ensures Conflicts(es, p, a) <==> es[first].alternate != NoId || es[second].alternate != NoId
    ensures es[first].alternate == NoId ==> es[first].primary == p
    ensures es[second].alternate == NoId ==> es[second].primary == a
    ensures Known(es, p)
  {
    PartnerIs(es, first, p);
    PartnerIs(es, second, a);
    assert Apart(es[if first < second then first else second], es[if first < second then second else first]);
  }

  lemma MergedSlots(es: seq<Entry>, p: ChatId, a: ChatId, keep: nat, remove: nat, e: Entry)
    requires Matching(es) && keep < remove < |es| && p.Direct? && a != NoId && Authoritative(p, a) == a
    requires es[keep].alternate == NoId && es[remove].alternate == NoId
    requires (es[keep].primary == p && es[remove].primary == a) || (es[keep].primary == a && es[remove].primary == p)
    requires e == Entry(p, a) || e == Entry(a, p)
    ensures Matching(Without(es[keep := e], remove))
    ensures Joins(es, Without(es[keep := e], remove), p, a)
    ensures Canonical(Without(es[keep := e], remove), p) == e.primary
  {
    MergeEntries(es, keep, remove, e);
    var t := Without(es[keep := e], remove);
    assert t[keep] == e;
    PartnerIs(t, keep, p);
    PartnerIs(es, if es[keep].primary == p then keep else remove, p);
  }

  /** No entry yet: one is appended. */
  lemma NoSlot(es: seq<Entry>, p: ChatId, a: ChatId)
    requires Located(es, p, a, -1, -1)
    ensures !Conflicts(es, p, a) && !Known(es, p) && !Known(es, a)
    ensures Matching(es + [Entry(p, a)])
    ensures Joins(es, es + [Entry(p, a)], p, a) && Canonical(es + [Entry(p, a)], p) == p
  {
    AppendEntry(es, p, a);
    assert (es + [Entry(p, a)])[|es|].Has(p);
    PartnerIs(es + [Entry(p, a)], |es|, p);
  }

  /** One entry only, holding one or both of the identities. */
  predicate OneSlot(es: seq<Entry>, p: ChatId, a: ChatId, first: int, second: int, i: int) {
    && (first < 0 || second < 0 || first == second)
    && i == (if first < 0 then second else first) && 0 <= i < |es|
  }

  /** An entry with both needs nothing; one that is joined elsewhere conflicts. */
  lemma OneSlotKept(es: seq<Entry>, p: ChatId, a: ChatId, first: int, second: int, i: nat)
    requires Located(es, p, a, first, second) && OneSlot(es, p, a, first, second, i)
    ensures Conflicts(es, p, a) <==> es[i].alternate != NoId && !(es[i].Has(p) && (a == NoId || es[i].Has(a)))
    ensures es[i].Has(p) && (a == NoId || es[i].Has(a)) ==> Joins(es, es, p, a) && Canonical(es, p) == es[i].primary
    ensures !es[i].Has(p) <==> !Known(es, p)
    ensures Known(es, p) || Known(es, a)
  {
    if es[i].Has(p) { PartnerIs(es, i, p); }
    if a != NoId && es[i].Has(a) { PartnerIs(es, i, a); }
  }

  /** A singleton takes the other identity as its alternate. */
  lemma OneSlotJoined(es: seq<Entry>, p: ChatId, a: ChatId, first: int, second: int, i: nat, e: Entry)
    requires Located(es, p, a, first, second) && OneSlot(es, p, a, first, second, i)
    requires a != NoId && es[i].alternate == NoId && !(es[i].Has(p) && es[i].Has(a))
    requires e == Entry(es[i].primary, if es[i].primary == p then a else p)
    ensures Matching(es[i := e])
    ensures Joins(es, es[i := e], p, a) && Canonical(es[i := e], p) == es[i].primary
  {
    var t := es[i := e];
    assert es[i].primary == p || es[i].primary == a;
    var x := e.alternate;
    assert Find(es, x, |es|) < 0;
    forall j, k | 0 <= j < k < |t| ensures Apart(t[j], t[k]) {
      assert Apart(es[j], es[k]);
    }
    RewriteEntry(es, i, e);
    PartnerIs(t, i, p);
  }

  /** Turning an entry around changes no pairing. */
  lemma SwappedEntry(es: seq<Entry>, i: nat)
    requires Matching(es) && i < |es| && es[i].alternate != NoId
    ensures var t := es[i := Entry(es[i].alternate, es[i].primary)];
      && Matching(t) && SamePartners(es, t) && Canonical(t, es[i].alternate) == es[i].alternate
  {
    var e := Entry(es[i].alternate, es[i].primary);
    var t := es[i := e];
    forall j, k | 0 <= j < k < |t| ensures Apart(t[j], t[k]) {
      assert Apart(es[j], es[k]);
    }
    RewriteEntry(es, i, e);
    forall id ensures Partner(t, id) == Partner(es, id) {
      if id != NoId && e.Has(id) { PartnerIs(es, i, id); }
    }
    PartnerIs(t, i, e.primary);
  }

  lemma SwapKeepsStrangers(es: seq<Entry>, i: nat, p: ChatId, a: ChatId)
    requires Matching(es) && i < |es| && es[i].alternate == p && p != NoId
    ensures KeepsStrangers(es, es[i := Entry(p, es[i].primary)], p, a)
  {
    var e := Entry(p, es[i].primary);
    SwappedEntry(es, i);
    RewriteMoves(es, i, e);
    PartnerIs(es, i, es[i].primary);
    MovesKeepStrangers(es, es[i := e], p, a, e, i, -1);
  }

  // ---- runs of calls

  datatype Call = Join(primary: ChatId, alternate: ChatId) | Refuse

  /** What one call of either method does to the pairings. */
  ghost predicate Follows(before: seq<Entry>, call: Call, after: seq<Entry>) {
    && Matching(before) && Matching(after)
    && match call
       case Join(p, a) => p.Direct? && Authoritative(p, a) == a && !Conflicts(before, p, a) && Joins(before, after, p, a)
       case Refuse => SamePartners(before, after)
  }

  ghost predicate IsRun(states: seq<seq<Entry>>, calls: seq<Call>) {
    |states| == |calls| + 1 && forall i :: 0 <= i < |calls| ==> Follows(states[i], calls[i], states[i+1])
  }

  lemma RunNext(states: seq<seq<Entry>>, calls: seq<Call>, call: Call, after: seq<Entry>)
    requires IsRun(states, calls) && Follows(states[|calls|], call, after)
    ensures IsRun(states + [after], calls + [call])
  {
    var all, more := states + [after], calls + [call];
    forall i | 0 <= i < |more| ensures Follows(all[i], more[i], all[i+1]) {
      if i < |calls| { assert Follows(states[i], calls[i], states[i+1]); }
    }
  }

  /** The oldest identity that is known alone; the empty identity is its alternate. */
  function FirstAlone(es: seq<Entry>): ChatId {
    if es == [] then NoId else if es[0].alternate == NoId then es[0].primary else FirstAlone(es[1..])
  }

  /** A request of the program, to route a conversation or to send in it. */
  datatype Ask = Route(primary: ChatId, offered: ChatId) | Send(primary: ChatId, offered: ChatId)

  /** What an answered request did to the pairings. */
  function CallOf(ask: Ask, r: Result): Call {
    if r.Resolved? && ask.primary.Direct? then Join(ask.primary, Authoritative(ask.primary, ask.offered)) else Refuse
  }

  /** How a request is answered: an identity that is not direct as it is; a conflict and a
      full registry exactly on their conditions, with nothing paired anew; otherwise the two
      are joined and routed to the answer. */
  ghost predicate Answered(before: seq<Entry>, after: seq<Entry>, capacity: nat, ask: Ask, r: Result) {
    if !ask.primary.Direct? then r == Resolved(ask.primary) && after == before
    else
      var p, a := ask.primary, Authoritative(ask.primary, ask.offered);
      var conflict := if ask.Route? then Conflicts(before, p, a) else SendConflicts(before, p, a);
      && (r == Failed(Conflict) <==> conflict)
      && (r == Failed(Full) <==> !conflict && NoRoom(before, p, a, capacity))
      && (r.Resolved? ==> Served(before, after, p, a, r.id))
      && (if ask.Route? then if r.Failed? then after == before else Routed(before, after, p, a, r.id)
          else (if r.Failed? then SamePartners(before, after) else r.id == p) && KeepsStrangers(before, after, p, a))
  }

  /** The in-place registry. */
  class Registry {
    const entries: array<Entry>
    var count: nat

    predicate Valid()
      reads this, entries
    {
      count <= entries.Length && Matching(entries[..count])
    }

    constructor (capacity: nat)
      ensures Valid() && count == 0 && entries.Length == capacity && fresh(entries)
    {
      entries := new Entry[capacity](_ => Entry(NoId, NoId));
      count := 0;
    }

    method AlternateFor(id: ChatId) returns (alternate: ChatId)
      requires Valid()
      ensures id != NoId ==> alternate == if Known(entries[..count], id) then Partner(entries[..count], id).value else NoId
      ensures id == NoId ==> alternate == FirstAlone(entries[..count])
    {
      for i := 0 to count
        invariant forall j :: 0 <= j < i ==> !entries[j].Has(id)
        invariant id == NoId ==> FirstAlone(entries[..count]) == FirstAlone(entries[i..count])
      {
        var entry := entries[i];
        assert entries[i..count][1..] == entries[i+1..count];
        if entry.primary == id || entry.alternate == id {
          if id != NoId { PartnerIs(entries[..count], i, id); }
          return if entry.primary == id then entry.alternate else entry.primary;
        }
      }
      return NoId;
    }

    /** The slots of two identities, -1 when absent. */
    method Locate(p: ChatId, a: ChatId) returns (first: int, second: int)
      requires Valid()
      ensures first == Find(entries[..count], p, count)
      ensures second == if a == NoId then -1 else Find(entries[..count], a, count)
    {
      first, second := -1, -1;
      for index := 0 to count
        invariant first == Find(entries[..count], p, index)
        invariant second == if a == NoId then -1 else Find(entries[..count], a, index)
      {
        var entry := entries[index];
        if entry.primary == p || entry.alternate == p { first := index; }
        if a != NoId && (entry.primary == a || entry.alternate == a) { second := index; }
      }
    }

    /** Overwrites one slot and closes the gap left by another. */
    method Merge(keep: nat, remove: nat, e: Entry)
      requires keep < remove < count <= entries.Length
      modifies this, entries
      ensures count == old(count) - 1
      ensures entries[..count] == Without(old(entries[..count])[keep := e], remove)
    {
      entries[keep] := e;
      ghost var joined := entries[..count];
      var last := count - 1;
      for i := remove to last
        modifies entries
        invariant forall j :: 0 <= j < remove || i <= j <= last ==> entries[j] == joined[j]
        invariant forall j :: remove <= j < i ==> entries[j] == joined[j+1]
      {
        entries[i] := entries[i+1];
      }
      count := last;
      entries[last] := Entry(NoId, NoId);
      assert entries[..count] == Without(joined, remove);
    }

    method Append(p: ChatId, a: ChatId)
      requires count < entries.Length
      modifies this, entries
      ensures count == old(count) + 1
      ensures entries[..count] == old(entries[..count]) + [Entry(p, a)]
    {
      entries[count] := Entry(p, a);
      count := count + 1;
    }

    /** Joins two identities, or finds or admits one; returns the identity that
        speaks for the conversation. */
    method Resolve(primary: ChatId, offered: ChatId) returns (r: Result)
      requires Valid()
      modifies this, entries
      ensures Valid()
      ensures !primary.Direct? ==> r == Resolved(primary) && entries[..count] == old(entries[..count])
      ensures primary.Direct? ==>
        var es, a := old(entries[..count]), Authoritative(primary, offered);
        && (r == Failed(Conflict) <==> Conflicts(es, primary, a))
        && (r == Failed(Full) <==> !Conflicts(es, primary, a) && NoRoom(es, primary, a, entries.Length))
        && (r.Resolved? ==> Routed(es, entries[..count], primary, a, r.id))
        && (r.Failed? ==> entries[..count] == es)
    {
      if !primary.Direct? {
        return Resolved(primary);
      }
      var alternate := Authoritative(primary, offered);
      var first, second := Locate(primary, alternate);
      ghost var es := entries[..count];
      if first >= 0 && second >= 0 && first != second {
        TwoSlots(es, primary, alternate, first, second);
        if entries[first].alternate != NoId || entries[second].alternate != NoId {
          return Failed(Conflict);
        }
        var keep, remove := first, second;
        if remove < keep { keep, remove := remove, keep; }
        var canonical, other := entries[keep].primary, entries[remove].primary;
        if Authoritative(canonical, other) != other {
          return Failed(Conflict);
        }
        MergedSlots(es, primary, alternate, keep, remove, Entry(canonical, other));
        MergeRoutes(es, primary, alternate, keep, remove);
        Merge(keep, remove, Entry(canonical, other));
        return Resolved(canonical);
      }
      var index := if first < 0 then second else first;
      if index < 0 {
        NoSlot(es, primary, alternate);
        if count == entries.Length {
          return Failed(Full);
        }
        AppendMoves(es, Entry(primary, alternate));
        MovesKeepOthers(es, es + [Entry(primary, alternate)], primary, alternate, Entry(primary, alternate), |es|, -1);
        Append(primary, alternate);
        return Resolved(primary);
      }
      r := JoinAt(index, primary, alternate, first, second);
    }

    /** Extends the entry of one identity by the other, when it is a singleton. */
    method JoinAt(index: nat, primary: ChatId, alternate: ChatId, ghost first: int, ghost second: int) returns (r: Result)
      requires Valid() && Located(entries[..count], primary, alternate, first, second)
      requires OneSlot(entries[..count], primary, alternate, first, second, index)
      modifies entries
      ensures Valid()
      ensures var es, a := old(entries[..count]), alternate;
        && (r == Failed(Conflict) <==> Conflicts(es, primary, a))
        && (Known(es, primary) || Known(es, a)) && r != Failed(Full)
        && (r.Resolved? ==> Routed(es, entries[..count], primary, a, r.id))
        && (r.Failed? ==> entries[..count] == es)
    {
      ghost var es := entries[..count];
      OneSlotKept(es, primary, alternate, first, second, index);
      StillKeepsOthers(es, primary, alternate);
      SpeaksAt(es, primary, alternate, index);
      var ids := [primary, alternate];
      for k := 0 to 2
        invariant k == 0 || (k == 1 && es[index].Has(primary)) ==> entries[..count] == es
        invariant k == 1 && !es[index].Has(primary) ==> entries[index].Has(alternate)
        invariant k == 2 || (k == 1 && !es[index].Has(primary)) ==>
                    Valid() && Routed(es, entries[..count], primary, alternate, es[index].primary) && entries[index].primary == es[index].primary
      {
        var id := ids[k];
        if id == NoId || id == entries[index].primary || id == entries[index].alternate {
          continue;
        }
        if entries[index].alternate != NoId {
          return Failed(Conflict);
        }
        OneSlotJoined(es, primary, alternate, first, second, index, Entry(es[index].primary, id));
        RewriteMoves(es, index, Entry(es[index].primary, id));
        MovesKeepOthers(es, es[index := Entry(es[index].primary, id)], primary, alternate, Entry(es[index].primary, id), index, -1);
        entries[index] := Entry(entries[index].primary, id);
        assert entries[..count] == es[index := Entry(es[index].primary, id)];
      }
      return Resolved(entries[index].primary);
    }

    /** Joins two identities and makes the selected one speak for the conversation.
        A failing call may have turned an entry around, but pairs nothing anew. */
    method ResolveForSend(primary: ChatId, offered: ChatId) returns (r: Result)
      requires Valid()
      modifies this, entries
      ensures Valid()
      ensures !primary.Direct? ==> r == Resolved(primary) && entries[..count] == old(entries[..count])
      ensures primary.Direct? ==>
        var es, a := old(entries[..count]), Authoritative(primary, offered);
        && (r == Failed(Conflict) <==> SendConflicts(es, primary, a))
        && (r == Failed(Full) <==> !SendConflicts(es, primary, a) && NoRoom(es, primary, a, entries.Length))
        && (r.Resolved? ==> r.id == primary && Served(es, entries[..count], primary, a, r.id))
        && (r.Failed? ==> SamePartners(es, entries[..count]))
        && KeepsStrangers(es, entries[..count], primary, a)
    {
      if !primary.Direct? {
        return Resolved(primary);
      }
      var alternate := Authoritative(primary, offered);
      var first, second := Locate(primary, alternate);
      ghost var es := entries[..count];
      if first >= 0 && second >= 0 && first != second {
        TwoSlots(es, primary, alternate, first, second);
        if entries[first].alternate != NoId || entries[second].alternate != NoId {
          return Failed(Conflict);
        }
        var keep, remove := first, second;
        if remove < keep { keep, remove := remove, keep; }
        MergedSlots(es, primary, alternate, keep, remove, Entry(primary, alternate));
        MergeMoves(es, keep, remove, Entry(primary, alternate));
        MovesKeepStrangers(es, Without(es[keep := Entry(primary, alternate)], remove), primary, alternate, Entry(primary, alternate),
                           keep, remove);
        Merge(keep, remove, Entry(primary, alternate));
        return Resolved(primary);
      }
      var index := if first < 0 then second else first;
      if index < 0 {
        NoSlot(es, primary, alternate);
        if count == entries.Length {
          return Failed(Full);
        }
        AppendMoves(es, Entry(primary, alternate));
        MovesKeepStrangers(es, es + [Entry(primary, alternate)], primary, alternate, Entry(primary, alternate), |es|, -1);
        Append(primary, alternate);
        return Resolved(primary);
      }
      r := SelectAt(index, primary, alternate, first, second);
    }

    /** Puts the selected identity first, then extends a singleton. */
    method SelectAt(index: nat, primary: ChatId, alternate: ChatId, ghost first: int, ghost second: int) returns (r: Result)
      requires Valid() && Located(entries[..count], primary, alternate, first, second)
      requires OneSlot(entries[..count], primary, alternate, first, second, index)
      modifies entries
      ensures Valid()
      ensures var es, a := old(entries[..count]), alternate;
        && (r == Failed(Conflict) <==> SendConflicts(es, primary, a))
        && (Known(es, primary) || Known(es, a)) && r != Failed(Full)
        && (r.Resolved? ==> r.id == primary && Served(es, entries[..count], primary, a, r.id))
        && (r.Failed? ==> SamePartners(es, entries[..count]))
        && KeepsStrangers(es, entries[..count], primary, a)
    {
      ghost var es := entries[..count];
      OneSlotKept(es, primary, alternate, first, second, index);
      if entries[index].primary != primary {
        if entries[index].alternate != primary {
          return Failed(Conflict);
        }
        SwappedEntry(es, index);
        SwapKeepsStrangers(es, index, primary, alternate);
        entries[index] := Entry(entries[index].alternate, entries[index].primary);
        assert entries[..count] == es[index := Entry(es[index].alternate, es[index].primary)];
      }
      if alternate != NoId && alternate != entries[index].primary && alternate != entries[index].alternate {
        if entries[index].alternate != NoId {
          return Failed(Conflict);
        }
        OneSlotJoined(es, primary, alternate, first, second, index, Entry(primary, alternate));
        RewriteMoves(es, index, Entry(primary, alternate));
        MovesKeepStrangers(es, es[index := Entry(primary, alternate)], primary, alternate, Entry(primary, alternate), index, -1);
        entries[index] := Entry(entries[index].primary, alternate);
        assert entries[..count] == es[index := Entry(primary, alternate)];
      }
      return Resolved(primary);
    }

    /** Answers one request. */
    method Answer(ask: Ask) returns (r: Result)
      requires Valid()
      modifies this, entries
      ensures Valid() && Follows(old(entries[..count]), CallOf(ask, r), entries[..count])
      ensures Answered(old(entries[..count]), entries[..count], entries.Length, ask, r)
    {
      ghost var es := entries[..count];
      match ask
      case Route(primary, offered) => r := Resolve(primary, offered);
      case Send(primary, offered) => r := ResolveForSend(primary, offered);
    }

    /** Any sequence of requests to the registry is a run. */
    method AnswerAll(asks: seq<Ask>) returns (results: seq<Result>, ghost states: seq<seq<Entry>>, ghost calls: seq<Call>)
      requires Valid()
      modifies this, entries
      ensures Valid() && |results| == |calls| == |asks|
      ensures IsRun(states, calls) && states[0] == old(entries[..count]) && states[|asks|] == entries[..count]
      ensures forall i :: 0 <= i < |asks| ==> calls[i] == CallOf(asks[i], results[i])
      ensures forall i :: 0 <= i < |asks| ==> Answered(states[i], states[i+1], entries.Length, asks[i], results[i])
    {
      hide Answered;
      results, states, calls := [], [entries[..count]], [];
      for i := 0 to |asks|
        invariant Valid() && |results| == |calls| == i
        invariant IsRun(states, calls) && states[0] == old(entries[..count]) && states[i] == entries[..count]
        invariant forall j :: 0 <= j < i ==> calls[j] == CallOf(asks[j], results[j])
        invariant forall j :: 0 <= j < i ==> Answered(states[j], states[j+1], entries.Length, asks[j], results[j])
      {
        var r := Answer(asks[i]);
        RunNext(states, calls, CallOf(asks[i], r), entries[..count]);
        results, states, calls := results + [r], states + [entries[..count]], calls + [CallOf(asks[i], r)];
      }
    }
  }

  /** Two identities once joined stay joined, whatever is called afterwards. */
  lemma {:induction false} JoinedStayJoined(states: seq<seq<Entry>>, calls: seq<Call>, x: ChatId, y: ChatId)
    requires IsRun(states, calls) && y != NoId && Partner(states[0], x) == Some(y)
    ensures Partner(states[|calls|], x) == Some(y)
    decreases |calls|
  {
    if |calls| > 0 {
      var n := |calls| - 1;
      JoinedStayJoined(states[..|states|-1], calls[..n], x, y);
      assert Follows(states[n], calls[n], states[n+1]);
      if calls[n].Join? { OneCallKeeps(states[n], calls[n].primary, calls[n].alternate, states[n+1], x, y); }
    }
  }

  lemma OneCallKeeps(before: seq<Entry>, p: ChatId, a: ChatId, after: seq<Entry>, x: ChatId, y: ChatId)
    requires Follows(before, Join(p, a), after) && y != NoId && Partner(before, x) == Some(y)
    ensures Partner(after, x) == Some(y)
  {
    if a != NoId && (x == p || x == a) {
      assert JoinedElsewhere(before, p, a) || JoinedElsewhere(before, a, p) || y == if x == p then a else p;
    }
  }

  /** From an empty registry the pairs are exactly the ones served calls joined. */
  lemma {:induction false} PairsAreTheCalls(states: seq<seq<Entry>>, calls: seq<Call>, x: ChatId, y: ChatId)
    requires IsRun(states, calls) && states[0] == [] && x != NoId && y != NoId
    ensures Partner(states[|calls|], x) == Some(y) <==>
              exists i :: 0 <= i < |calls| && (calls[i] == Join(x, y) || calls[i] == Join(y, x))
    decreases |calls|
  {
    if |calls| > 0 {
      var n := |calls| - 1;
      var shorter := calls[..n];
      PairsAreTheCalls(states[..|states|-1], shorter, x, y);
      assert Follows(states[n], calls[n], states[n+1]);
      if i :| 0 <= i < n && (shorter[i] == Join(x, y) || shorter[i] == Join(y, x)) {
        assert calls[i] == shorter[i];
        JoinedStayJoined(states[n..], calls[n..], x, y);
      } else {
        assert forall i :: 0 <= i < n ==> calls[i] == shorter[i];
        OneCallJoins(states[n], calls[n], states[n+1], x, y);
      }
    }
  }

  /** A call pairs nobody but the two it was served for. */
  lemma OneCallJoins(before: seq<Entry>, call: Call, after: seq<Entry>, x: ChatId, y: ChatId)
    requires Follows(before, call, after) && x != NoId && y != NoId && Partner(before, x) != Some(y)
    ensures Partner(after, x) == Some(y) <==> call == Join(x, y) || call == Join(y, x)
  {
  }

  /** Joined identities are answered by one and the same identity. */
  lemma JoinedShareTheirRoute(es: seq<Entry>, x: ChatId, y: ChatId)
    requires Matching(es) && x != NoId && y != NoId && Partner(es, x) == Some(y)
    ensures Canonical(es, x) == Canonical(es, y) && Canonical(es, x) in {x, y}
  {
    PartnerIs(es, Find(es, x, |es|), y);
  }

  // ---- routing never moves a conversation to the newer identity

  /** The canonical identity of the older of two slots. */
  function Speaker(es: seq<Entry>, x: ChatId, y: ChatId): ChatId {
    if y == NoId || !Known(es, y) || SlotOf(es, x) <= SlotOf(es, y) then Canonical(es, x) else Canonical(es, y)
  }

  /** Two identities no call has paired with others. */
  predicate FreeOrPaired(es: seq<Entry>, x: ChatId, y: ChatId) {
    && (Partner(es, x) == Some(NoId) || Partner(es, x) == Some(y))
    && (y == NoId || Partner(es, y).None? || Partner(es, y) == Some(NoId) || Partner(es, y) == Some(x))
  }

  lemma KnownSlot(es: seq<Entry>, id: ChatId)
    ensures Known(es, id) <==> id != NoId && SlotOf(es, id) >= 0
    ensures SlotOf(es, id) >= 0 ==> Canonical(es, id) == es[SlotOf(es, id)].primary
  {
  }

  /** The older slot of two is where both are looked up. */
  lemma SpeaksIsSpeaker(es: seq<Entry>, p: ChatId, a: ChatId, answer: ChatId)
    requires Matching(es) && p != NoId && Speaks(es, p, a, answer)
    ensures Known(es, p) ==> answer == Speaker(es, p, a)
    ensures a != NoId && Known(es, a) ==> answer == Speaker(es, a, p)
  {
    if Known(es, p) || Known(es, a) {
      var i: nat :| OldestSlot(es, p, a, i) && answer == es[i].primary;
      if es[i].Has(p) { PartnerIs(es, i, p); }
      if a != NoId && es[i].Has(a) { PartnerIs(es, i, a); }
    }
  }

  lemma SameSlot(es: seq<Entry>, x: ChatId, y: ChatId)
    requires Matching(es) && x != NoId && y != NoId && Partner(es, x) == Some(y)
    ensures SlotOf(es, x) == SlotOf(es, y) && Canonical(es, x) == Canonical(es, y)
  {
    PartnerIs(es, SlotOf(es, x), y);
  }

  /** One routing call, two identities that belong to no other conversation. */
  lemma RouteKeepsSpeaker(before: seq<Entry>, after: seq<Entry>, p: ChatId, a: ChatId, answer: ChatId, x: ChatId, y: ChatId)
    requires Matching(before) && Matching(after) && p.Direct? && Authoritative(p, a) == a && Routed(before, after, p, a, answer)
    requires x != NoId && x != y && Known(before, x) && FreeOrPaired(after, x, y)
    ensures Known(after, x) && Speaker(after, x, y) == Speaker(before, x, y)
  {
    KnownSlot(before, x);
    KnownSlot(before, y);
    KnownSlot(after, x);
    KnownSlot(after, y);
    KnownSlot(before, p);
    KnownSlot(after, p);
    SpeaksIsSpeaker(before, p, a, answer);
    assert Partner(after, x).Some?;
    if a != NoId && (x == p || x == a) {
      SameSlot(after, x, y);
      assert y == if x == p then a else p;
      assert Canonical(after, p) == Canonical(after, a) by { SameSlot(after, p, a); }
    } else {
      assert Aside(before, p, a, x);
      if Known(before, y) {
        assert Aside(before, p, a, y);
      } else if Known(after, y) {
        assert a == NoId && y == p;
      }
    }
  }

  /** A run in which every request is to route. */
  ghost predicate IsRouteRun(states: seq<seq<Entry>>, asks: seq<Ask>, results: seq<Result>, capacity: nat) {
    && |states| == |asks| + 1 && |results| == |asks|
    && (forall i :: 0 <= i < |states| ==> Matching(states[i]))
    && forall i :: 0 <= i < |asks| ==> asks[i].Route? && Answered(states[i], states[i+1], capacity, asks[i], results[i])
  }

  function CallsOf(asks: seq<Ask>, results: seq<Result>): (calls: seq<Call>)
    requires |asks| == |results|
  {
    seq(|asks|, i requires 0 <= i < |asks| => CallOf(asks[i], results[i]))
  }

  lemma RouteRunIsRun(states: seq<seq<Entry>>, asks: seq<Ask>, results: seq<Result>, capacity: nat)
    requires IsRouteRun(states, asks, results, capacity)
    ensures IsRun(states, CallsOf(asks, results))
  {
    forall i | 0 <= i < |asks| ensures Follows(states[i], CallsOf(asks, results)[i], states[i+1]) {
      assert Answered(states[i], states[i+1], capacity, asks[i], results[i]);
    }
  }

  /** Whoever is joined elsewhere now is joined elsewhere at the end. */
  lemma FreeBefore(states: seq<seq<Entry>>, asks: seq<Ask>, results: seq<Result>, capacity: nat, x: ChatId, y: ChatId)
    requires IsRouteRun(states, asks, results, capacity) && x != NoId && Known(states[0], x)
    requires Partner(states[|asks|], x) == Some(y)
    ensures FreeOrPaired(states[0], x, y)
  {
    var calls := CallsOf(asks, results);
    RouteRunIsRun(states, asks, results, capacity);
    var z := Partner(states[0], x).value;
    if z != NoId { JoinedStayJoined(states, calls, x, z); }
    if y != NoId && Known(states[0], y) && Partner(states[0], y).value != NoId {
      JoinedStayJoined(states, calls, y, Partner(states[0], y).value);
      PartnersAreMutual(states[|asks|], x, y);
    }
  }

  /** Over every run of routing requests: the identity that speaks for a conversation at the
      end is the one that spoke for the older of its two members at the start. */
  lemma {:induction false} OlderKeepsSpeaking(states: seq<seq<Entry>>, asks: seq<Ask>, results: seq<Result>, capacity: nat,
                                              x: ChatId, y: ChatId)
    requires IsRouteRun(states, asks, results, capacity) && x != NoId && Known(states[0], x)
    requires Partner(states[|asks|], x) == Some(y)
    ensures Canonical(states[|asks|], x) == Speaker(states[0], x, y)
    decreases |asks|
  {
    if |asks| == 0 {
      if y != NoId { SameSlot(states[0], x, y); }
    } else {
      assert Answered(states[0], states[1], capacity, asks[0], results[0]);
      StaysKnown(states[0], states[1], capacity, asks[0], results[0], x);
      FreeBefore(states[1..], asks[1..], results[1..], capacity, x, y);
      OlderKeepsSpeaking(states[1..], asks[1..], results[1..], capacity, x, y);
      var p, a := asks[0].primary, Authoritative(asks[0].primary, asks[0].offered);
      if asks[0].primary.Direct? && results[0].Resolved? {
        if x == y { PartnersApart(states[|asks|], x, y); }
        RouteKeepsSpeaker(states[0], states[1], p, a, results[0].id, x, y);
      }
    }
  }

  lemma PartnersApart(es: seq<Entry>, x: ChatId, y: ChatId)
    requires Matching(es) && x != NoId && Partner(es, x) == Some(y)
    ensures x != y
  {
    if y != NoId { PartnersAreMutual(es, x, y); }
  }

  lemma StaysKnown(before: seq<Entry>, after: seq<Entry>, capacity: nat, ask: Ask, r: Result, x: ChatId)
    requires Answered(before, after, capacity, ask, r) && Known(before, x)
    ensures Known(after, x)
  {
    assert Partner(after, x).Some?;
  }
}
