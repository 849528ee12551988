/** What a check costs: one request per ecosystem when the batches answer, and never more than one per
    batched ecosystem and one per distinct reference. */
module PoolCost {
  import opened Wrappers
  import opened Cache
  import opened Platform
  import opened ResolvePool
  import opened PoolRuns
  import Retry = Client

  /** The ecosystems present among the references that have a resolver. */
  function Served(c: Config): set<string> {
    set u | u in c.refs && u.ecosystem in c.resolvers :: u.ecosystem
  }

  function EcosystemOf(q: Request): string {
    match q
    case Batch(e) => e
    case Single(u) => u.ecosystem
  }

  // ---------------------------------------------------------------- the general bound

  lemma {:induction false} RequestsFit(requests: seq<Request>, batches: set<string>, singles: set<UniqueRef>)
    requires Distinct(requests)
    requires forall e :: Batch(e) in requests ==> e in batches
    requires forall u :: Single(u) in requests ==> u in singles
    ensures |requests| <= |batches| + |singles|
  {
    if requests != [] {
      var n := |requests| - 1;
      var front := requests[..n];
      assert requests[n] !in front;
      match requests[n]
      case Batch(e) => RequestsFit(front, batches - {e}, singles);
      case Single(u) => RequestsFit(front, batches, singles - {u});
    }
  }

  lemma {:induction false} SetOfSeqSize<T>(s: seq<T>)
    ensures |set x | x in s| <= |s|
  {
    if s != [] {
      var n := |s| - 1;
      SetOfSeqSize(s[..n]);
      assert (set x | x in s) == (set x | x in s[..n]) + {s[n]};
    }
  }

  /** In any run at all, cancelled or failing, the requests number at most the batchable ecosystems and
      the distinct references together. */
  lemma RequestBound(c: Config, s: State, acts: seq<Action>)
    requires Distinct(c.refs) && Start(c, s) && Schedule(c, s, acts)
    ensures |Run(c, s, acts).requests| <= |Batchable(c)| + |c.refs|
  {
    StartSafe(c, s);
    RunSafe(c, s, acts);
    SetOfSeqSize(c.refs);
    RequestsFit(Run(c, s, acts).requests, Batchable(c), set u | u in c.refs);
  }

  function Sum(ns: seq<nat>): nat { if ns == [] then 0 else Sum(ns[..|ns| - 1]) + ns[|ns| - 1] }

  lemma {:induction false} SumAtMost(ns: seq<nat>, limit: nat)
    requires forall i :: 0 <= i < |ns| ==> ns[i] <= limit
    ensures Sum(ns) <= |ns| * limit
  {
    if ns != [] {
      SumAtMost(ns[..|ns| - 1], limit);
    }
  }

  function AttemptLimit(maxRetries: int): nat { if maxRetries < 1 then 1 else maxRetries }

  /** How one request of the pool went: a call of the retrying loop. */
  datatype Call = Call(base: int, start: int, cancelAt: Option<int>, result: Result<(), ClientError>,
                       attempts: nat, slept: nat, end: int)

  /** The exchanges that each request, a batch or a single reference, would meet. */
  type Exchanges = Request -> nat -> Retry.Attempt<()>

  /** Each request was one call of the loop, against the exchanges of that request. */
  ghost predicate CallsOf(requests: seq<Request>, calls: seq<Call>, world: Exchanges, limit: nat) {
    |calls| == |requests| && forall i :: 0 <= i < |calls| ==> Loops(calls[i], world(requests[i]), limit)
  }

  ghost predicate Loops(call: Call, world: nat -> Retry.Attempt<()>, limit: nat) {
    Retry.Done(world, limit, call.base, call.start, call.cancelAt, call.result, call.attempts, call.slept, call.end)
  }

  function AttemptsOf(calls: seq<Call>): seq<nat> { seq(|calls|, i requires 0 <= i < |calls| => calls[i].attempts) }

  /** How far a request gets if nothing interrupts it. */
  ghost function AttemptsFor(world: Exchanges, limit: nat, q: Request): nat
    requires limit > 0
  {
    Retry.FirstFinal(world(q), limit, 0)
  }

  /** An interrupted call makes no more attempts than the uninterrupted one, and that one makes exactly so many. */
  lemma CallAttempts(call: Call, world: nat -> Retry.Attempt<()>, limit: nat)
    requires limit > 0 && Loops(call, world, limit)
    ensures call.attempts <= Retry.FirstFinal(world, limit, 0) <= limit
    ensures call.cancelAt == None ==> call.attempts == Retry.FirstFinal(world, limit, 0)
  {
    Retry.FirstFinalStops(world, limit, 0);
    if Retry.StopsAfter(world, limit, call.attempts) {
      Retry.StopsAtFirstFinal(world, limit, call.attempts, 0);
    }
  }

  /** Requests over HTTP in any run at all: each request of the run costs at most what its own exchanges make
      the loop try, exactly that if it is not interrupted, and all together at most max(1, MaxRetries) for every
      batchable ecosystem and every distinct reference. */
  lemma AttemptBound(c: Config, s: State, acts: seq<Action>, world: Exchanges, calls: seq<Call>, maxRetries: int)
    requires Distinct(c.refs) && Start(c, s) && Schedule(c, s, acts)
    requires CallsOf(Run(c, s, acts).requests, calls, world, AttemptLimit(maxRetries))
    ensures Sum(AttemptsOf(calls)) <= (|Batchable(c)| + |c.refs|) * if maxRetries < 1 then 1 else maxRetries
    ensures forall i :: 0 <= i < |calls| ==>
              var most := AttemptsFor(world, AttemptLimit(maxRetries), Run(c, s, acts).requests[i]);
              calls[i].attempts <= most && (calls[i].cancelAt == None ==> calls[i].attempts == most)
  {
    RequestBound(c, s, acts);
    AttemptsOfCalls(Run(c, s, acts).requests, calls, world, AttemptLimit(maxRetries));
    TimesMore(|calls|, |Batchable(c)| + |c.refs|, AttemptLimit(maxRetries));
  }

  lemma AttemptsOfCalls(requests: seq<Request>, calls: seq<Call>, world: Exchanges, limit: nat)
    requires limit > 0 && CallsOf(requests, calls, world, limit)
    ensures Sum(AttemptsOf(calls)) <= |calls| * limit
    ensures forall i :: 0 <= i < |calls| ==>
              var most := AttemptsFor(world, limit, requests[i]);
              calls[i].attempts <= most && (calls[i].cancelAt == None ==> calls[i].attempts == most)
  {
    forall i | 0 <= i < |calls|
      ensures var most := AttemptsFor(world, limit, requests[i]);
              calls[i].attempts <= most <= limit && (calls[i].cancelAt == None ==> calls[i].attempts == most)
    {
      CallAttempts(calls[i], world(requests[i]), limit);
    }
    assert forall i :: 0 <= i < |calls| ==> AttemptsOf(calls)[i] == calls[i].attempts <= limit;
    SumAtMost(AttemptsOf(calls), limit);
  }

  lemma TimesMore(a: nat, b: nat, limit: nat)
    requires a <= b
    ensures a * limit <= b * limit
  {
  }

  // ---------------------------------------------------------------- the exact cost

  /** A batch answer that covers the ecosystem it was asked for: a usable item for every reference, and
      no label outside the ecosystem. */
  ghost predicate Covers(c: Config, e: string, items: seq<BatchItem>) {
    && (forall u :: u in c.refs && u.ecosystem == e ==>
          exists i :: 0 <= i < |items| && Usable(items[i]) && Label(items[i]) == u)
    && (forall i :: 0 <= i < |items| && Usable(items[i]) ==> items[i].ecosystem == e)
  }

  ghost predicate BatchesCover(c: Config, acts: seq<Action>) {
    forall i :: 0 <= i < |acts| && acts[i].AskBatch? ==> CoveringBatch(c, acts[i])
  }

  ghost predicate CoveringBatch(c: Config, a: Action)
    requires a.AskBatch?
  {
    a.items.Ok? && Covers(c, a.batch, a.items.value)
  }

  ghost predicate BatchesKept(c: Config, s: State, until: int) {
    forall e :: e in Batchable(c) - s.pending ==>
      Batch(e) in s.requests && forall u :: u in c.refs && u.ecosystem == e ==> Held(s.cache, u, until)
  }

  /** Every cached key belongs to a batched ecosystem or to a reference asked for on its own. */
  ghost predicate CacheExplained(c: Config, cache: AnswerCache, requests: seq<Request>) {
    forall k :: k in cache ==> exists v: UniqueRef :: KeyOf(v) == k && ColonFree(v.ecosystem) &&
                                                      (v.ecosystem in Batchable(c) || Single(v) in requests)
  }

  ghost predicate SinglesExplained(c: Config, s: State) {
    && |s.pcs| == |c.refs|
    && (forall u :: Single(u) in s.requests ==> u.ecosystem !in Batchable(c))
    && (forall w :: 0 <= w < |s.pcs| && (s.pcs[w].Fetching? || s.pcs[w].Storing?) ==> Single(c.refs[w]) in s.requests)
    && (!s.cancelled ==> forall w :: 0 <= w < |s.pcs| ==>
          && !s.pcs[w].GivingUp?
          && (HasAsked(s.pcs[w]) && c.refs[w].ecosystem in c.resolvers - Batchable(c) ==>
                Single(c.refs[w]) in s.requests))
  }

  ghost predicate Accounted(c: Config, s: State, until: int) {
    && BatchesKept(c, s, until)
    && CacheExplained(c, s.cache, s.requests)
    && SinglesExplained(c, s)
  }

  lemma {:induction false} ItemsExplained(c: Config, cache: AnswerCache, requests: seq<Request>, now: int,
                                          items: seq<BatchItem>, n: nat, e: string)
    requires n <= |items| && CacheExplained(c, cache, requests) && e in Batchable(c) && ColonFree(e)
    requires forall i :: 0 <= i < |items| && Usable(items[i]) ==> items[i].ecosystem == e
    ensures CacheExplained(c, RememberItems(cache, now, items, n), requests)
  {
    if n > 0 {
      ItemsExplained(c, cache, requests, now, items, n - 1, e);
      var item, front := items[n - 1], RememberItems(cache, now, items, n - 1);
      StoreExplained(c, front, requests, now, Label(item), item.response);
    }
  }

  lemma StoreExplained(c: Config, cache: AnswerCache, requests: seq<Request>, now: int, u: UniqueRef, r: Response)
    requires CacheExplained(c, cache, requests)
    ensures ColonFree(u.ecosystem) && (u.ecosystem in Batchable(c) || Single(u) in requests) ==>
              CacheExplained(c, Remember(cache, now, u, r), requests)
  {
  }

  lemma ExplainedByMore(c: Config, cache: AnswerCache, requests: seq<Request>, more: seq<Request>)
    requires CacheExplained(c, cache, requests) && forall q :: q in requests ==> q in more
    ensures CacheExplained(c, cache, more)
  {
  }

  lemma BatchAccounted(c: Config, s: State, a: Action, until: int)
    requires Valid(c) && Safe(c, s) && Accounted(c, s, until) && a.AskBatch? && Enabled(c, s, a)
    requires CoveringBatch(c, a) && s.now + a.took <= until <= s.now + CACHE_TTL
    ensures Accounted(c, Apply(c, s, a), until)
  {
    BatchKeeps(c, s, a, until);
    BatchExplains(c, s, a);
    BatchSingles(c, s, a);
  }

  lemma BatchExplains(c: Config, s: State, a: Action)
    requires Valid(c) && PoolSafe(c, s) && CacheExplained(c, s.cache, s.requests)
    requires a.AskBatch? && Enabled(c, s, a) && CoveringBatch(c, a)
    ensures CacheExplained(c, Apply(c, s, a).cache, Apply(c, s, a).requests)
  {
    var s', items := Apply(c, s, a), a.items.value;
    ExplainedByMore(c, s.cache, s.requests, s'.requests);
    ItemsExplained(c, s.cache, s'.requests, s'.now, items, |items|, a.batch);
  }

  lemma BatchSingles(c: Config, s: State, a: Action)
    requires SinglesExplained(c, s) && a.AskBatch? && Enabled(c, s, a)
    ensures SinglesExplained(c, Apply(c, s, a))
  {
    assert Apply(c, s, a).requests == s.requests + [Batch(a.batch)];
  }

  lemma BatchKeeps(c: Config, s: State, a: Action, until: int)
    requires Valid(c) && Safe(c, s) && BatchesKept(c, s, until) && a.AskBatch? && Enabled(c, s, a)
    requires CoveringBatch(c, a) && s.now + a.took <= until <= s.now + CACHE_TTL
    ensures BatchesKept(c, Apply(c, s, a), until)
  {
    var s', items := Apply(c, s, a), a.items.value;
    forall e | e in Batchable(c) - s'.pending
      ensures Batch(e) in s'.requests
      ensures forall u :: u in c.refs && u.ecosystem == e ==> Held(s'.cache, u, until)
    {
      forall u | u in c.refs && u.ecosystem == e ensures Held(s'.cache, u, until) {
        RememberItemsHolds(s.cache, s'.now, items, |items|, u, until);
      }
    }
  }

  /** A batched reference is answered from the cache, any other one is not. */
  lemma AskingIsDecided(c: Config, s: State, w: nat, until: int)
    requires Valid(c) && Safe(c, s) && Accounted(c, s, until) && w < |s.pcs| && s.pcs[w].Asking?
    requires s.pending == {} && s.now <= until
    ensures c.refs[w].ecosystem in Batchable(c) <==> Recall(s.cache, s.now, c.refs[w]).Some?
  {
    var u := c.refs[w];
    NotYetAsked(c, s.pcs, w);
    if u.ecosystem in Batchable(c) {
      assert u.ecosystem in Batchable(c) - s.pending;
      assert Held(s.cache, u, until);
    } else if KeyOf(u) in s.cache {
      var v: UniqueRef :| KeyOf(v) == KeyOf(u) && ColonFree(v.ecosystem) &&
                          (v.ecosystem in Batchable(c) || Single(v) in s.requests);
      ResolveKeyInjective(u.ecosystem, u.reference, v.ecosystem, v.reference);
      assert false;
    }
  }

  lemma WorkAccounted(c: Config, s: State, w: nat, giveUp: bool, reply: Result<Response, ClientError>, until: int)
    requires Valid(c) && Safe(c, s) && Accounted(c, s, until) && w < |s.pcs| && s.pending == {}
    requires s.now <= until <= s.now + CACHE_TTL && (s.pcs[w].Ready? && giveUp ==> s.cancelled)
    ensures Accounted(c, Work(c, s, w, giveUp, reply), until)
  {
    var s', u := Work(c, s, w, giveUp, reply), c.refs[w];
    if s.pcs[w].Asking? {
      AskingIsDecided(c, s, w, until);
    }
    assert BatchesKept(c, s', until) by {
      forall e, v | e in Batchable(c) - s'.pending && v in c.refs && v.ecosystem == e
        ensures Batch(e) in s'.requests && Held(s'.cache, v, until)
      {
        assert Held(s.cache, v, until);
        if s.pcs[w].Storing? {
          RememberKeepsHeld(s.cache, s.now, u, s.pcs[w].got, v, until);
        }
      }
    }
    ExplainedByMore(c, s.cache, s.requests, s'.requests);
    if s.pcs[w].Storing? {
      StoreExplained(c, s.cache, s'.requests, s.now, u, s.pcs[w].got);
    }
    WorkSingles(c, s, w, giveUp, reply, until);
  }

  lemma WorkSingles(c: Config, s: State, w: nat, giveUp: bool, reply: Result<Response, ClientError>, until: int)
    requires Valid(c) && Equipped(c, s.pcs) && SinglesExplained(c, s) && w < |s.pcs|
    requires s.pcs[w].Ready? && giveUp ==> s.cancelled
    requires s.pcs[w].Asking? ==> (c.refs[w].ecosystem in Batchable(c) <==> Recall(s.cache, s.now, c.refs[w]).Some?)
    ensures SinglesExplained(c, Work(c, s, w, giveUp, reply))
  {
  }

  lemma {:induction false} ClockRises(c: Config, s: State, acts: seq<Action>)
    requires Schedule(c, s, acts)
    ensures s.now <= Run(c, s, acts).now
    decreases |acts|
  {
    if acts != [] {
      ClockRises(c, Apply(c, s, acts[0]), acts[1..]);
    }
  }

  lemma TickAccounted(c: Config, s: State, now: int, until: int)
    requires Safe(c, s) && Accounted(c, s, until)
    ensures Safe(c, s.(now := now)) && Accounted(c, s.(now := now), until)
  {
  }

  lemma GoAccounted(c: Config, s: State, a: Action, until: int)
    requires Valid(c) && Safe(c, s) && Accounted(c, s, until) && a.Go? && Enabled(c, s, a)
    requires s.now + a.took <= until <= s.now + CACHE_TTL
    ensures Accounted(c, Apply(c, s, a), until)
  {
    var s1, w := s.(now := s.now + a.took), a.worker;
    TickAccounted(c, s, s.now + a.took, until);
    assert s.pending == {} && (s.pcs[w].Ready? && a.giveUp ==> s.cancelled);
    WorkAccounted(c, s1, w, a.giveUp, a.reply, until);
    ApplyGo(c, s, a);
  }

  lemma CancelAccounted(c: Config, s: State, until: int)
    requires Accounted(c, s, until)
    ensures Accounted(c, s.(cancelled := true), until)
  {
  }

  lemma StepAccounted(c: Config, s: State, a: Action, until: int)
    requires Valid(c) && Safe(c, s) && Accounted(c, s, until) && Enabled(c, s, a)
    requires a.AskBatch? ==> CoveringBatch(c, a)
    requires Apply(c, s, a).now <= until <= s.now + CACHE_TTL
    ensures Accounted(c, Apply(c, s, a), until)
  {
    if a.Cancel? {
      CancelAccounted(c, s, until);
    } else if a.AskBatch? {
      BatchAccounted(c, s, a, until);
    } else {
      GoAccounted(c, s, a, until);
    }
  }

  lemma StepClock(c: Config, s: State, a: Action)
    requires Enabled(c, s, a)
    ensures s.now <= Apply(c, s, a).now
  {
  }

  lemma {:induction false} RunAccounted(c: Config, s: State, acts: seq<Action>, until: int)
    requires Valid(c) && Safe(c, s) && Accounted(c, s, until) && Schedule(c, s, acts) && BatchesCover(c, acts)
    requires Run(c, s, acts).now <= until <= s.now + CACHE_TTL
    ensures Accounted(c, Run(c, s, acts), until)
    decreases |acts|
  {
    if acts != [] {
      var a, rest := acts[0], acts[1..];
      var s' := Apply(c, s, a);
      assert Run(c, s, acts) == Run(c, s', rest);
      assert BatchesCover(c, rest) by {
        assert forall i :: 0 <= i < |rest| ==> rest[i] == acts[i + 1];
      }
      StepClock(c, s, a);
      ClockRises(c, s', rest);
      StepSafe(c, s, a);
      StepAccounted(c, s, a, until);
      RunAccounted(c, s', rest, until);
    }
  }

  /** Two requests for one ecosystem are one request. */
  lemma OneRequestEach(c: Config, s: State, until: int, p: Request, q: Request)
    requires Safe(c, s) && Accounted(c, s, until)
    requires p in s.requests && q in s.requests && EcosystemOf(p) == EcosystemOf(q)
    ensures p == q
  {
    if p.Single? && q.Single? {
      assert p.ref in c.refs && q.ref in c.refs;
      assert p.ref.ecosystem !in Batchable(c);
      AtMostOne(References(c.refs, p.ref.ecosystem), p.ref, q.ref);
    }
  }

  lemma AtMostOne<T>(s: set<T>, x: T, y: T)
    requires x in s && y in s
    ensures |s| < 2 ==> x == y
  {
    assert |s| == |s - {x, y}| + |{x, y}|;
  }

  lemma {:induction false} InjectiveSize(requests: seq<Request>, ecosystems: set<string>)
    requires Distinct(requests) && ecosystems == set q | q in requests :: EcosystemOf(q)
    requires forall p, q :: p in requests && q in requests && EcosystemOf(p) == EcosystemOf(q) ==> p == q
    ensures |requests| == |ecosystems|
  {
    if requests == [] {
      assert ecosystems == {};
    } else {
      var n := |requests| - 1;
      var q, front := requests[n], requests[..n];
      var rest := set p | p in front :: EcosystemOf(p);
      assert q !in front;
      InjectiveSize(front, rest);
      assert ecosystems == rest + {EcosystemOf(q)};
      assert EcosystemOf(q) !in rest;
    }
  }

  lemma EveryEcosystemAsked(c: Config, s: State, until: int, e: string)
    requires Safe(c, s) && Accounted(c, s, until) && Finished(s) && !s.cancelled && e in Served(c)
    ensures exists q :: q in s.requests && EcosystemOf(q) == e
  {
    if e in Batchable(c) {
      assert e in Batchable(c) - s.pending;
      assert EcosystemOf(Batch(e)) == e;
    } else {
      var u :| u in c.refs && u.ecosystem == e && e in c.resolvers;
      var w :| 0 <= w < |c.refs| && c.refs[w] == u;
      assert HasAsked(s.pcs[w]);
      assert EcosystemOf(Single(u)) == e;
    }
  }

  /** When every batch answers for its whole ecosystem and the run ends within the time to live, a check
      with a new client sends exactly one request for every ecosystem present that has a resolver. */
  lemma ExactCost(c: Config, s: State, acts: seq<Action>)
    requires Valid(c) && Start(c, s) && s.pending == Batchable(c) && s.cache == map[]
    requires Schedule(c, s, acts) && BatchesCover(c, acts)
    requires Finished(Run(c, s, acts)) && !Run(c, s, acts).cancelled
    requires Run(c, s, acts).now <= s.now + CACHE_TTL
    ensures |Run(c, s, acts).requests| == |Served(c)|
  {
    StartSafe(c, s);
    RunSafe(c, s, acts);
    RunAccounted(c, s, acts, s.now + CACHE_TTL);
    OneEach(c, Run(c, s, acts), s.now + CACHE_TTL);
  }

  lemma OneEach(c: Config, t: State, until: int)
    requires Safe(c, t) && Accounted(c, t, until) && Finished(t) && !t.cancelled
    ensures |t.requests| == |Served(c)|
  {
    forall e | e in Served(c) ensures exists q :: q in t.requests && EcosystemOf(q) == e {
      EveryEcosystemAsked(c, t, until, e);
    }
    forall q | q in t.requests ensures EcosystemOf(q) in Served(c) {
    }
    forall p, q | p in t.requests && q in t.requests && EcosystemOf(p) == EcosystemOf(q) ensures p == q {
      OneRequestEach(c, t, until, p, q);
    }
    assert Served(c) == set q | q in t.requests :: EcosystemOf(q);
    InjectiveSize(t.requests, Served(c));
  }
}
