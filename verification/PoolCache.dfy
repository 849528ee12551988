/** What a check leaves in the cache: every answer it used, for the rest of five minutes. */
module PoolCache {
  import opened Wrappers
  import opened Cache
  import opened Platform
  import opened ResolvePool
  import opened PoolRuns
  import opened PoolCost

  /** Nothing in the cache ends before this instant. */
  ghost predicate LastsUntil(cache: AnswerCache, until: int) {
    forall k :: k in cache ==> until <= cache[k].expiresAt
  }

  /** The worker has its answer, from the cache or put there. */
  predicate HasAnswer(pc: PC) { pc.Noting? || pc.Reporting? || (pc.Writing? && pc.out.Answered?) }

  ghost predicate AnswersHeld(c: Config, s: State, until: int) {
    && |s.pcs| == |c.refs| && LastsUntil(s.cache, until)
    && (forall w :: 0 <= w < |s.pcs| && HasAnswer(s.pcs[w]) ==> Held(s.cache, c.refs[w], until))
    && (forall u :: u in s.results && s.results[u].Answered? ==> Held(s.cache, u, until))
  }

  lemma RememberLasts(cache: AnswerCache, now: int, u: UniqueRef, r: Response, until: int)
    requires LastsUntil(cache, until) && now <= until <= now + CACHE_TTL
    ensures LastsUntil(Remember(cache, now, u, r), until) && Held(Remember(cache, now, u, r), u, until)
    ensures forall v :: Held(cache, v, until) ==> Held(Remember(cache, now, u, r), v, until)
  {
  }

  lemma {:induction false} RememberItemsLasts(cache: AnswerCache, now: int, items: seq<BatchItem>, n: nat, until: int)
    requires n <= |items| && LastsUntil(cache, until) && now <= until <= now + CACHE_TTL
    ensures LastsUntil(RememberItems(cache, now, items, n), until)
  {
    if n > 0 {
      RememberItemsLasts(cache, now, items, n - 1, until);
      RememberLasts(RememberItems(cache, now, items, n - 1), now, Label(items[n - 1]), items[n - 1].response, until);
    }
  }

  lemma RecalledIsHeld(cache: AnswerCache, now: int, u: UniqueRef, until: int)
    requires LastsUntil(cache, until) && Recall(cache, now, u).Some?
    ensures Held(cache, u, until)
  {
  }

  lemma BatchHolds(c: Config, s: State, a: Action, until: int)
    requires AnswersHeld(c, s, until) && a.AskBatch? && Enabled(c, s, a)
    requires Apply(c, s, a).now <= until <= Apply(c, s, a).now + CACHE_TTL
    ensures AnswersHeld(c, Apply(c, s, a), until)
  {
    var s' := Apply(c, s, a);
    if a.items.Ok? {
      var items := a.items.value;
      RememberItemsLasts(s.cache, s'.now, items, |items|, until);
      forall u | Held(s.cache, u, until) ensures Held(s'.cache, u, until) {
        RememberItemsHolds(s.cache, s'.now, items, |items|, u, until);
      }
    }
  }

  lemma WorkHolds(c: Config, s: State, w: nat, giveUp: bool, reply: Result<Response, ClientError>, until: int)
    requires AnswersHeld(c, s, until) && w < |s.pcs| && s.now <= until <= s.now + CACHE_TTL
    ensures AnswersHeld(c, Work(c, s, w, giveUp, reply), until)
  {
    if s.pcs[w].Storing? {
      StoreHolds(c, s, w, giveUp, reply, until);
    } else if s.pcs[w].Asking? {
      AskHolds(c, s, w, giveUp, reply, until);
    } else {
      OtherHolds(c, s, w, giveUp, reply, until);
    }
  }

  lemma StoreHolds(c: Config, s: State, w: nat, giveUp: bool, reply: Result<Response, ClientError>, until: int)
    requires AnswersHeld(c, s, until) && w < |s.pcs| && s.now <= until <= s.now + CACHE_TTL && s.pcs[w].Storing?
    ensures AnswersHeld(c, Work(c, s, w, giveUp, reply), until)
  {
    RememberLasts(s.cache, s.now, c.refs[w], s.pcs[w].got, until);
    assert Work(c, s, w, giveUp, reply).results == s.results;
  }

  lemma AskHolds(c: Config, s: State, w: nat, giveUp: bool, reply: Result<Response, ClientError>, until: int)
    requires AnswersHeld(c, s, until) && w < |s.pcs| && s.pcs[w].Asking?
    ensures AnswersHeld(c, Work(c, s, w, giveUp, reply), until)
  {
    if Recall(s.cache, s.now, c.refs[w]).Some? {
      RecalledIsHeld(s.cache, s.now, c.refs[w], until);
    }
    assert Work(c, s, w, giveUp, reply).cache == s.cache && Work(c, s, w, giveUp, reply).results == s.results;
  }

  lemma OtherHolds(c: Config, s: State, w: nat, giveUp: bool, reply: Result<Response, ClientError>, until: int)
    requires AnswersHeld(c, s, until) && w < |s.pcs| && !s.pcs[w].Asking? && !s.pcs[w].Storing?
    ensures AnswersHeld(c, Work(c, s, w, giveUp, reply), until)
  {
    assert Work(c, s, w, giveUp, reply).cache == s.cache;
  }

  lemma StepHolds(c: Config, s: State, a: Action, until: int)
    requires AnswersHeld(c, s, until) && Enabled(c, s, a)
    requires Apply(c, s, a).now <= until <= s.now + CACHE_TTL
    ensures AnswersHeld(c, Apply(c, s, a), until)
  {
    StepClock(c, s, a);
    if a.AskBatch? {
      BatchHolds(c, s, a, until);
    } else if a.Go? {
      ApplyGo(c, s, a);
      WorkHolds(c, s.(now := s.now + a.took), a.worker, a.giveUp, a.reply, until);
    }
  }

  lemma {:induction false} RunHolds(c: Config, s: State, acts: seq<Action>, until: int)
    requires AnswersHeld(c, s, until) && Schedule(c, s, acts)
    requires Run(c, s, acts).now <= until <= s.now + CACHE_TTL
    ensures AnswersHeld(c, Run(c, s, acts), until)
    decreases |acts|
  {
    if acts != [] {
      var s' := Apply(c, s, acts[0]);
      StepClock(c, s, acts[0]);
      ClockRises(c, s', acts[1..]);
      StepHolds(c, s, acts[0], until);
      RunHolds(c, s', acts[1..], until);
    }
  }

  /** In every run of a new client, whatever fails, a reference that has been answered is found in the cache until
      five minutes after the start at least. */
  lemma AnswersAreKept(c: Config, s: State, acts: seq<Action>, u: UniqueRef, t: int)
    requires Start(c, s) && s.cache == map[] && Schedule(c, s, acts)
    requires u in Run(c, s, acts).results && Run(c, s, acts).results[u].Answered?
    requires Run(c, s, acts).now <= t <= s.now + 300_000_000_000
    ensures Recall(Run(c, s, acts).cache, t, u).Some?
  {
    RunHolds(c, s, acts, t);
  }
}
