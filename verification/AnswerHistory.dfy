/** The answer cache over its whole history, told in pairs of ecosystem and reference instead of string
    keys, and shared with the security profiles. */
module AnswerHistory {
  import opened Wrappers
  import opened Cache
  import opened Platform

  datatype Event =
    | Kept(at: int, about: UniqueRef, response: Response)
    | KeptProfile(at: int, about: UniqueRef, tier: int)
    | Asked(at: int, about: UniqueRef)

  function OpOf(e: Event): Op<Cached> {
    match e
    case Kept(at, u, r) => Set(at, KeyOf(u), Resolved(r))
    case KeptProfile(at, u, tier) => Set(at, ProfileKey(u.ecosystem, u.reference), Profile(tier))
    case Asked(at, u) => Get(at, KeyOf(u))
  }

  function Ops(events: seq<Event>): seq<Op<Cached>> { seq(|events|, i requires 0 <= i < |events| => OpOf(events[i])) }

  /** The newest answer kept for exactly this pair in the last five minutes. */
  function NewestAbout(events: seq<Event>, n: nat, now: int, u: UniqueRef): Option<Response>
    requires n <= |events|
  {
    if n == 0 then None
    else if events[n - 1].Kept? && events[n - 1].about == u then
      if now - events[n - 1].at <= CACHE_TTL then Some(events[n - 1].response) else None
    else NewestAbout(events, n - 1, now, u)
  }

  ghost predicate EventsColonFree(events: seq<Event>) {
    forall i :: 0 <= i < |events| ==> ColonFree(events[i].about.ecosystem)
  }

  lemma {:induction false} KeysStandForPairs(events: seq<Event>, n: nat, now: int, u: UniqueRef)
    requires n <= |events| && EventsColonFree(events) && ColonFree(u.ecosystem)
    ensures Newest(Ops(events), n, now, KeyOf(u)) ==
            (match NewestAbout(events, n, now, u) case Some(r) => Some(Resolved(r)) case None => None)
  {
    if n > 0 {
      KeysStandForPairs(events, n - 1, now, u);
      var v := events[n - 1].about;
      if events[n - 1].Kept? && KeyOf(v) == KeyOf(u) {
        ResolveKeyInjective(v.ecosystem, v.reference, u.ecosystem, u.reference);
      }
      KeySpacesDisjoint(u.ecosystem, u.reference, v.ecosystem, v.reference);
    }
  }

  /** Cache transparency: with a monotone clock and colon-free ecosystem names, a lookup at any instant from
      now on finds the newest answer kept for that very pair within five minutes, and otherwise nothing;
      string keys, profiles in the same map and eviction never show. */
  lemma LookupsFollowHistory(events: seq<Event>, now: int, u: UniqueRef)
    requires EventsColonFree(events) && ColonFree(u.ecosystem)
    requires forall i, j :: 0 <= i < j < |events| ==> events[i].at <= events[j].at
    requires forall i :: 0 <= i < |events| ==> events[i].at <= now
    ensures Recall(After(Ops(events), |events|), now, u) == NewestAbout(events, |events|, now, u)
  {
    var ops := Ops(events);
    assert forall i :: 0 <= i < |ops| ==> ops[i] == OpOf(events[i]) && ops[i].at == events[i].at;
    LookupIsNewest(ops, |ops|, now, KeyOf(u));
    KeysStandForPairs(events, |events|, now, u);
  }

  // ---------------------------------------------------------------- what the client does to the cache is history

  lemma {:induction false} AfterPrefix(ops: seq<Op<Cached>>, op: Op<Cached>, n: nat)
    requires n <= |ops|
    ensures After(ops + [op], n) == After(ops, n)
  {
    if n > 0 {
      AfterPrefix(ops, op, n - 1);
    }
  }

  lemma OneMoreEvent(events: seq<Event>, e: Event)
    ensures Ops(events + [e]) == Ops(events) + [OpOf(e)]
  {
  }

  /** The cache a history leaves. */
  function CacheAfter(events: seq<Event>): AnswerCache { After(Ops(events), |events|) }

  /** Keeping an answer is one more event: the cache stays that of a history. */
  lemma RememberIsHistory(events: seq<Event>, at: int, u: UniqueRef, r: Response)
    ensures Remember(CacheAfter(events), at, u, r) == CacheAfter(events + [Kept(at, u, r)])
  {
    OneMoreEvent(events, Kept(at, u, r));
    AfterPrefix(Ops(events), OpOf(Kept(at, u, r)), |events|);
  }

  /** The events of the first n items of a batch answer: those with a hash and without an error, in order, each about
      its own label. */
  function ItemEvents(at: int, items: seq<BatchItem>, n: nat): seq<Event>
    requires n <= |items|
  {
    if n == 0 then []
    else
      var item := items[n - 1];
      ItemEvents(at, items, n - 1) +
      if item.error == "" && item.response.hash != ""
      then [Kept(at, UniqueRef(item.ecosystem, item.reference), item.response)] else []
  }

  /** So is keeping a batch answer: exactly its usable items are kept, each under its own pair. */
  lemma {:induction false} RememberItemsIsHistory(events: seq<Event>, at: int, items: seq<BatchItem>, n: nat)
    requires n <= |items|
    ensures RememberItems(CacheAfter(events), at, items, n) == CacheAfter(events + ItemEvents(at, items, n))
  {
    if n == 0 {
      assert events + [] == events;
    } else {
      var item, before := items[n - 1], events + ItemEvents(at, items, n - 1);
      RememberItemsIsHistory(events, at, items, n - 1);
      if item.error == "" && item.response.hash != "" {
        var e := Kept(at, UniqueRef(item.ecosystem, item.reference), item.response);
        RememberIsHistory(before, at, UniqueRef(item.ecosystem, item.reference), item.response);
        assert before + [e] == events + ItemEvents(at, items, n);
      } else {
        assert before == events + ItemEvents(at, items, n);
      }
    }
  }
}
