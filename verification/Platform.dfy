/** The platform's messages and the answers built from them. */
module Platform {
  import opened Wrappers
  import opened Cache

  /** Wrap-around of Go's int64, which time.Duration is. */
  function Int64(n: int): (r: int)
    ensures -0x8000_0000_0000_0000 <= r < 0x8000_0000_0000_0000
    ensures (r - n) % 0x1_0000_0000_0000_0000 == 0
    ensures -0x8000_0000_0000_0000 <= n < 0x8000_0000_0000_0000 ==> r == n
  {
    (n + 0x8000_0000_0000_0000) % 0x1_0000_0000_0000_0000 - 0x8000_0000_0000_0000
  }

  /** time.Duration(n) * time.Second */
  function Seconds(n: int): int { Int64(n * SECOND) }

  /** ResolveResponse without its timestamps. */
  datatype Response = Response(hash: string, algorithm: string, source: string, stale: bool, ageSeconds: int)

  /** One item of a batch answer carries its own labels and possibly an error. */
  datatype BatchItem = BatchItem(ecosystem: string, reference: string, response: Response, error: string)

  datatype UniqueRef = UniqueRef(ecosystem: string, reference: string)

  /** Why the client has no answer: the context ended, a transient condition, or one that stays. */
  datatype ClientError =
    | ContextDone
    | Unavailable
    | RateLimited(retryAfter: int)
    | Permanent(code: int)

  /** Why a check has no answer for a reference. */
  datatype Failure = NoResolver(ecosystem: string) | Client(error: ClientError)

  /** The values the client keeps: answers for references and security profiles. */
  datatype Cached = Resolved(response: Response) | Profile(tier: int)

  type AnswerCache = Store<Cached>

  function KeyOf(u: UniqueRef): string { ResolveKey(u.ecosystem, u.reference) }

  /** getCache[*ResolveResponse]: a value of another type is a miss. */
  function Recall(c: AnswerCache, now: int, u: UniqueRef): Option<Response> {
    match Lookup<Cached>(c, now, KeyOf(u))
    case Some(Resolved(r)) => Some(r)
    case _ => None
  }

  function Remember(c: AnswerCache, now: int, u: UniqueRef, r: Response): AnswerCache {
    Put(c, now, KeyOf(u), Resolved(r))
  }

  /** A batch item that ResolveBatch puts into the cache. */
  predicate Usable(item: BatchItem) { item.error == "" && item.response.hash != "" }

  function Label(item: BatchItem): UniqueRef { UniqueRef(item.ecosystem, item.reference) }

  /** The cache after the first n items of a batch answer. */
  function RememberItems(c: AnswerCache, now: int, items: seq<BatchItem>, n: nat): AnswerCache
    requires n <= |items|
  {
    if n == 0 then c
    else
      var before := RememberItems(c, now, items, n - 1);
      var item := items[n - 1];
      if Usable(item) then Remember(before, now, Label(item), item.response) else before
  }

  /** resolver.Resolution without the instant it was taken. */
  datatype Resolution = Resolution(original: string, hash: string, algorithm: string, canonical: string, source: string)

  function Resolve(u: UniqueRef, r: Response): Resolution {
    Resolution(u.reference, r.hash, r.algorithm, u.reference + "@" + r.hash, "platform:" + r.source)
  }

  datatype Freshness = Freshness(stale: bool, age: int)

  function FreshnessOf(r: Response): Freshness { Freshness(r.stale, Seconds(r.ageSeconds)) }

  // ---------------------------------------------------------------- provenance

  /** What the platform said, and about which reference. */
  type Sent = set<(UniqueRef, Response)>

  function SentItems(items: seq<BatchItem>): Sent {
    set i | 0 <= i < |items| && Usable(items[i]) :: (Label(items[i]), items[i].response)
  }

  /** Every cached answer is one the platform sent for a pair with that key and a colon-free ecosystem. */
  ghost predicate Sourced(c: AnswerCache, sent: Sent) {
    forall k, r :: k in c && c[k].data == Resolved(r) ==>
      exists u: UniqueRef :: (u, r) in sent && ColonFree(u.ecosystem) && k == KeyOf(u)
  }

  ghost predicate LabelsColonFree(items: seq<BatchItem>) {
    forall i :: 0 <= i < |items| && Usable(items[i]) ==> ColonFree(items[i].ecosystem)
  }

  lemma RecallIsSent(c: AnswerCache, sent: Sent, now: int, u: UniqueRef)
    requires Sourced(c, sent) && ColonFree(u.ecosystem)
    requires Recall(c, now, u).Some?
    ensures (u, Recall(c, now, u).value) in sent
  {
    var r := Recall(c, now, u).value;
    var v: UniqueRef :| (v, r) in sent && ColonFree(v.ecosystem) && KeyOf(u) == KeyOf(v);
    ResolveKeyInjective(u.ecosystem, u.reference, v.ecosystem, v.reference);
  }

  lemma RememberSourced(c: AnswerCache, sent: Sent, now: int, u: UniqueRef, r: Response)
    requires Sourced(c, sent) && ColonFree(u.ecosystem)
    ensures Sourced(Remember(c, now, u, r), sent + {(u, r)})
  {
  }

  lemma {:induction false} RememberItemsSourced(c: AnswerCache, sent: Sent, now: int, items: seq<BatchItem>, n: nat)
    requires n <= |items| && Sourced(c, sent) && LabelsColonFree(items)
    ensures Sourced(RememberItems(c, now, items, n), sent + SentItems(items))
  {
    var all := sent + SentItems(items);
    if n == 0 {
      forall k, r | k in c && c[k].data == Resolved(r)
        ensures exists u: UniqueRef :: (u, r) in all && ColonFree(u.ecosystem) && k == KeyOf(u)
      {
        var u: UniqueRef :| (u, r) in sent && ColonFree(u.ecosystem) && k == KeyOf(u);
        assert (u, r) in all;
      }
    } else {
      RememberItemsSourced(c, sent, now, items, n - 1);
      var item := items[n - 1];
      if Usable(item) {
        RememberSourced(RememberItems(c, now, items, n - 1), all, now, Label(item), item.response);
        assert (Label(item), item.response) in SentItems(items);
        assert all + {(Label(item), item.response)} == all;
      }
    }
  }

  /** A batch label with a colon can answer a different reference: the hypothesis on labels is needed. */
  lemma ColonLabelAnswersAnotherReference(r: Response)
    requires r.hash != ""
    ensures var item := BatchItem("npm:a", "b", r, "");
            var asked := UniqueRef("npm", "a:b");
            Recall(RememberItems(map[], 0, [item], 1), 0, asked) == Some(r) &&
            (asked, r) !in SentItems([item])
  {
    var item := BatchItem("npm:a", "b", r, "");
    ColonBreaksKeys();
    assert RememberItems(map[], 0, [item], 1) == Remember(RememberItems(map[], 0, [item], 0), 0, Label(item), r);
  }

  /** Items of ecosystem e are recalled for pairs of ecosystem f that are not their label exactly if one name
      with a colon begins the other. */
  lemma LabelsAnswerOthersExactly(e: string, f: string)
    requires e != f
    ensures (exists item: BatchItem, u: UniqueRef :: Usable(item) && item.ecosystem == e && u.ecosystem == f &&
               Recall(RememberItems(map[], 0, [item], 1), 0, u) == Some(item.response))
            <==> e + ":" <= f || f + ":" <= e
  {
    EcosystemsCollideExactly(e, f);
    if item: BatchItem, u: UniqueRef :|
        && Usable(item) && item.ecosystem == e && u.ecosystem == f
        && Recall(RememberItems(map[], 0, [item], 1), 0, u) == Some(item.response) {
      RecalledByKey(item, u);
      assert ResolveKey(e, item.reference) == ResolveKey(f, u.reference);
    }
    if r1, r2 :| ResolveKey(e, r1) == ResolveKey(f, r2) {
      var item, u := BatchItem(e, r1, Response("hash", "", "", false, 0), ""), UniqueRef(f, r2);
      RecalledByKey(item, u);
      assert Usable(item);
    }
  }

  /** Within one ecosystem an item answers its own reference only. */
  lemma LabelAnswersItself(item: BatchItem, u: UniqueRef)
    requires Usable(item) && u.ecosystem == item.ecosystem
    ensures Recall(RememberItems(map[], 0, [item], 1), 0, u) == Some(item.response) <==> u == Label(item)
  {
    RecalledByKey(item, u);
    var skip := |"resolve:" + u.ecosystem + ":"|;
    assert KeyOf(u)[skip..] == u.reference && KeyOf(Label(item))[skip..] == item.reference;
  }

  lemma RecalledByKey(item: BatchItem, u: UniqueRef)
    requires Usable(item)
    ensures Recall(RememberItems(map[], 0, [item], 1), 0, u) ==
            if KeyOf(u) == KeyOf(Label(item)) then Some(item.response) else None
  {
    assert RememberItems(map[], 0, [item], 1) ==
           Remember(RememberItems(map[], 0, [item], 0), 0, Label(item), item.response);
  }

  // ---------------------------------------------------------------- durability of fresh answers

  /** The pair u has an answer that stays valid until the given instant. */
  predicate Held(c: AnswerCache, u: UniqueRef, until: int) {
    KeyOf(u) in c && c[KeyOf(u)].data.Resolved? && until <= c[KeyOf(u)].expiresAt
  }

  /** Filling the cache, evicting or not, never takes away an answer that is still valid. */
  lemma RememberKeepsHeld(c: AnswerCache, now: int, v: UniqueRef, r: Response, u: UniqueRef, until: int)
    requires Held(c, u, until) && now <= until <= now + CACHE_TTL
    ensures Held(Remember(c, now, v, r), u, until)
  {
  }

  lemma {:induction false} RememberItemsHolds(c: AnswerCache, now: int, items: seq<BatchItem>, n: nat, u: UniqueRef,
                                              until: int)
    requires n <= |items| && now <= until <= now + CACHE_TTL
    requires Held(c, u, until) || exists i :: 0 <= i < n && Usable(items[i]) && Label(items[i]) == u
    ensures Held(RememberItems(c, now, items, n), u, until)
  {
    if n > 0 {
      var before := RememberItems(c, now, items, n - 1);
      var item := items[n - 1];
      if !(Usable(item) && Label(item) == u) {
        RememberItemsHolds(c, now, items, n - 1, u, until);
        if Usable(item) {
          RememberKeepsHeld(before, now, Label(item), item.response, u, until);
        }
      }
    }
  }
}
