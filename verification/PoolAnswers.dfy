/** Where the recorded answers come from: in every interleaving the hash and the freshness stored for a
    reference belong to one and the same platform answer for exactly that reference. */
module PoolAnswers {
  import opened Wrappers
  import opened Platform
  import opened ResolvePool
  import opened PoolRuns

  /** The result that one platform answer gives, field by field; an age in seconds is counted in nanoseconds. */
  function ResultFor(u: UniqueRef, r: Response): RefResult {
    Answered(Resolution(u.reference, r.hash, r.algorithm, u.reference + "@" + r.hash, "platform:" + r.source),
             Freshness(r.stale, Int64(r.ageSeconds * 1_000_000_000)))
  }

  /** A result is genuine when its resolution and freshness both come from one answer the platform sent for
      that reference, when there is no resolver for it, when it is the very error that the one request for that
      reference failed with, or when the context had ended. */
  ghost predicate Genuine(c: Config, s: State, u: UniqueRef, out: RefResult) {
    match out
    case Answered(_, _) => u.ecosystem in c.resolvers && exists r :: (u, r) in s.sent && out == ResultFor(u, r)
    case Failed(NoResolver(e)) => e == u.ecosystem && e !in c.resolvers
    case Failed(Client(e)) => (u, e) in s.refused || (e == ContextDone && s.cancelled)
  }

  ghost predicate WorkerHonest(c: Config, s: State, u: UniqueRef, pc: PC) {
    match pc
    case GivingUp => s.cancelled
    case Storing(r) => (u, r) in s.sent
    case Noting(r) => (u, r) in s.sent
    case Reporting(r) => (u, r) in s.sent && u in s.freshness && s.freshness[u] == FreshnessOf(r)
    case Writing(out) => Genuine(c, s, u, out)
    case _ => true
  }

  ghost predicate Honest(c: Config, s: State) {
    && |s.pcs| == |c.refs|
    && Sourced(s.cache, s.sent)
    && (forall w :: 0 <= w < |s.pcs| ==> WorkerHonest(c, s, c.refs[w], s.pcs[w]))
    && (forall u :: u in s.results ==> Genuine(c, s, u, s.results[u]))
  }

  /** The platform labels its batch items with colon-free ecosystem names. */
  ghost predicate LabelsInAction(a: Action) {
    a.AskBatch? && a.items.Ok? ==> LabelsColonFree(a.items.value)
  }

  ghost predicate WellLabelled(acts: seq<Action>) {
    forall i :: 0 <= i < |acts| ==> LabelsInAction(acts[i])
  }

  lemma GenuineGrows(c: Config, s: State, t: State, u: UniqueRef, out: RefResult)
    requires Genuine(c, s, u, out) && s.sent <= t.sent && s.refused <= t.refused && (s.cancelled ==> t.cancelled)
    ensures Genuine(c, t, u, out)
  {
  }

  /** The step of worker w leaves an honest worker behind. */
  lemma OwnStep(c: Config, s: State, w: nat, giveUp: bool, reply: Result<Response, ClientError>)
    requires Valid(c) && Equipped(c, s.pcs) && Honest(c, s) && w < |s.pcs|
    requires s.pcs[w].Ready? && giveUp ==> s.cancelled
    ensures WorkerHonest(c, Work(c, s, w, giveUp, reply), c.refs[w], NextPC(c, s, w, giveUp, reply))
  {
    var u := c.refs[w];
    assert WorkerHonest(c, s, u, s.pcs[w]);
    match s.pcs[w]
    case Asking =>
      if Recall(s.cache, s.now, u).Some? {
        RecallIsSent(s.cache, s.sent, s.now, u);
      }
    case Reporting(r) =>
      assert ResultFor(u, r) == Answered(Resolve(u, r), FreshnessFor(s, u));
    case _ =>
  }

  /** The step of worker w, which shares no reference with worker v, leaves v as honest as it was. */
  lemma OthersUntouched(c: Config, s: State, w: nat, giveUp: bool, reply: Result<Response, ClientError>, v: nat)
    requires Distinct(c.refs) && Honest(c, s) && w < |s.pcs| && v < |s.pcs| && v != w
    ensures WorkerHonest(c, Work(c, s, w, giveUp, reply), c.refs[v], s.pcs[v])
  {
  }

  lemma CacheStep(c: Config, s: State, w: nat, giveUp: bool, reply: Result<Response, ClientError>)
    requires Valid(c) && Equipped(c, s.pcs) && Honest(c, s) && w < |s.pcs|
    ensures Sourced(Work(c, s, w, giveUp, reply).cache, Work(c, s, w, giveUp, reply).sent)
  {
  }

  lemma ResultsStep(c: Config, s: State, w: nat, giveUp: bool, reply: Result<Response, ClientError>, u: UniqueRef)
    requires Honest(c, s) && w < |s.pcs| && u in Work(c, s, w, giveUp, reply).results
    ensures Genuine(c, Work(c, s, w, giveUp, reply), u, Work(c, s, w, giveUp, reply).results[u])
  {
  }

  lemma WorkHonest(c: Config, s: State, w: nat, giveUp: bool, reply: Result<Response, ClientError>)
    requires Valid(c) && Equipped(c, s.pcs) && Honest(c, s) && w < |s.pcs|
    requires s.pcs[w].Ready? && giveUp ==> s.cancelled
    ensures Honest(c, Work(c, s, w, giveUp, reply))
  {
    var s' := Work(c, s, w, giveUp, reply);
    CacheStep(c, s, w, giveUp, reply);
    forall v | 0 <= v < |s'.pcs| ensures WorkerHonest(c, s', c.refs[v], s'.pcs[v]) {
      if v == w {
        OwnStep(c, s, w, giveUp, reply);
      } else {
        OthersUntouched(c, s, w, giveUp, reply, v);
      }
    }
    forall u | u in s'.results ensures Genuine(c, s', u, s'.results[u]) {
      ResultsStep(c, s, w, giveUp, reply, u);
    }
  }

  lemma BatchHonest(c: Config, s: State, a: Action)
    requires Safe(c, s) && Honest(c, s) && a.AskBatch? && Enabled(c, s, a) && LabelsInAction(a)
    ensures Honest(c, Apply(c, s, a))
  {
    var s' := Apply(c, s, a);
    if a.items.Ok? {
      RememberItemsSourced(s.cache, s.sent, s'.now, a.items.value, |a.items.value|);
    }
    forall u | u in s'.results ensures Genuine(c, s', u, s'.results[u]) {
      GenuineGrows(c, s, s', u, s.results[u]);
    }
    forall v | 0 <= v < |s'.pcs| ensures WorkerHonest(c, s', c.refs[v], s'.pcs[v]) {
      assert s.pcs[v].Ready?;
    }
  }

  /** Neither the clock nor the cancellation touches what honesty is about. */
  lemma TickHonest(c: Config, s: State, now: int)
    requires Honest(c, s)
    ensures Honest(c, s.(now := now))
  {
  }

  lemma CancelHonest(c: Config, s: State)
    requires Honest(c, s)
    ensures Honest(c, s.(cancelled := true))
  {
  }

  lemma StepHonest(c: Config, s: State, a: Action)
    requires Valid(c) && Safe(c, s) && Honest(c, s) && Enabled(c, s, a) && LabelsInAction(a)
    ensures Honest(c, Apply(c, s, a))
  {
    if a.Cancel? {
      CancelHonest(c, s);
    } else if a.AskBatch? {
      BatchHonest(c, s, a);
    } else {
      GoHonest(c, s, a);
    }
  }

  lemma GoHonest(c: Config, s: State, a: Action)
    requires Valid(c) && Equipped(c, s.pcs) && Honest(c, s) && Enabled(c, s, a) && a.Go?
    ensures Honest(c, Apply(c, s, a))
  {
    TickHonest(c, s, s.now + a.took);
    WorkHonest(c, s.(now := s.now + a.took), a.worker, a.giveUp, a.reply);
    ApplyGo(c, s, a);
  }

  lemma {:induction false} RunHonest(c: Config, s: State, acts: seq<Action>)
    requires Valid(c) && Safe(c, s) && Honest(c, s) && Schedule(c, s, acts) && WellLabelled(acts)
    ensures Honest(c, Run(c, s, acts))
    decreases |acts|
  {
    if acts != [] {
      assert LabelsInAction(acts[0]);
      StepSafe(c, s, acts[0]);
      StepHonest(c, s, acts[0]);
      RunHonest(c, Apply(c, s, acts[0]), acts[1..]);
    }
  }

  /** In every reachable state every recorded result is genuine. */
  lemma ResultsAreGenuine(c: Config, s: State, acts: seq<Action>, u: UniqueRef)
    requires Valid(c) && Start(c, s) && Schedule(c, s, acts) && WellLabelled(acts)
    requires u in Run(c, s, acts).results
    ensures Genuine(c, Run(c, s, acts), u, Run(c, s, acts).results[u])
  {
    StartSafe(c, s);
    RunHonest(c, s, acts);
  }

  // ---------------------------------------------------------------- runs that meet no failure

  ghost predicate RepliesOk(acts: seq<Action>) {
    forall i :: 0 <= i < |acts| && acts[i].Go? ==> acts[i].reply.Ok?
  }

  predicate NoFailure(out: RefResult) { out.Failed? ==> out.error.NoResolver? }

  /** Without a cancellation and with every request answered, only a missing resolver fails a reference. */
  ghost predicate Unharmed(s: State) {
    !s.cancelled ==>
      && (forall w :: 0 <= w < |s.pcs| ==>
            !s.pcs[w].GivingUp? && (s.pcs[w].Writing? ==> NoFailure(s.pcs[w].out)))
      && (forall u :: u in s.results ==> NoFailure(s.results[u]))
  }

  lemma StepUnharmed(c: Config, s: State, a: Action)
    requires Unharmed(s) && Enabled(c, s, a) && (a.Go? ==> a.reply.Ok?)
    ensures Unharmed(Apply(c, s, a))
  {
  }

  lemma {:induction false} RunUnharmed(c: Config, s: State, acts: seq<Action>)
    requires Unharmed(s) && Schedule(c, s, acts) && RepliesOk(acts)
    ensures Unharmed(Run(c, s, acts))
    decreases |acts|
  {
    if acts != [] {
      StepUnharmed(c, s, acts[0]);
      RunUnharmed(c, Apply(c, s, acts[0]), acts[1..]);
    }
  }

  /** The platform's messages all agree with one truth. */
  ghost predicate Truthful(sent: Sent, truth: UniqueRef -> Response) {
    forall u, r :: (u, r) in sent ==> r == truth(u)
  }

  /** The hypotheses of schedule independence about a complete run. */
  ghost predicate CleanRun(c: Config, s: State, acts: seq<Action>, truth: UniqueRef -> Response) {
    && Valid(c) && Start(c, s) && Schedule(c, s, acts)
    && WellLabelled(acts) && RepliesOk(acts)
    && Finished(Run(c, s, acts)) && !Run(c, s, acts).cancelled
    && Truthful(Run(c, s, acts).sent, truth)
    && forall u :: u in c.refs ==> u.ecosystem in c.resolvers
  }

  /** Every complete clean run, whatever its interleaving, batches and cache, ends with the one same map. */
  lemma FinalAnswers(c: Config, s: State, acts: seq<Action>, truth: UniqueRef -> Response)
    requires CleanRun(c, s, acts, truth)
    ensures Run(c, s, acts).results == map u | u in c.refs :: ResultFor(u, truth(u))
  {
    var t := Run(c, s, acts);
    RunUnharmed(c, s, acts);
    FinishedIsComplete(c, s, acts);
    forall u | u in c.refs ensures t.results[u] == ResultFor(u, truth(u)) {
      ResultsAreGenuine(c, s, acts, u);
      assert NoFailure(t.results[u]);
    }
  }

  /** In particular the prefetch changes nothing: runs with and without it agree. */
  lemma PrefetchPreservesMeaning(c: Config, s1: State, acts1: seq<Action>, s2: State, acts2: seq<Action>,
                                 truth: UniqueRef -> Response)
    requires CleanRun(c, s1, acts1, truth) && s1.pending == Batchable(c)
    requires CleanRun(c, s2, acts2, truth) && s2.pending == {}
    ensures Run(c, s1, acts1).results == Run(c, s2, acts2).results
  {
    FinalAnswers(c, s1, acts1, truth);
    FinalAnswers(c, s2, acts2, truth);
  }

  /** Some step that is neither a cancellation nor a failed single request is always enabled before the end. */
  lemma CleanStep(c: Config, s: State, truth: UniqueRef -> Response) returns (a: Action)
    requires Safe(c, s) && !Finished(s) && Truthful(s.sent, truth)
    ensures Enabled(c, s, a) && !a.Cancel? && LabelsInAction(a) && (a.Go? ==> a.reply.Ok?)
    ensures Truthful(Apply(c, s, a).sent, truth) && Apply(c, s, a).cancelled == s.cancelled
  {
    if s.pending != {} {
      var e :| e in s.pending;
      return AskBatch(e, 0, Err(Unavailable));
    }
    var w :| 0 <= w < |s.pcs| && !s.pcs[w].Done?;
    if v :| 0 <= v < |s.pcs| && !s.pcs[v].Done? && !s.pcs[v].Ready? {
      return Go(v, 0, false, Ok(truth(c.refs[v])));
    }
    NoneTaken(s.pcs);
    return Go(w, 0, false, Ok(truth(c.refs[w])));
  }

  /** Every safe, uncancelled state can be run to a clean end. */
  lemma {:induction false} Completion(c: Config, s: State, truth: UniqueRef -> Response) returns (acts: seq<Action>)
    requires Valid(c) && Safe(c, s) && !s.cancelled && Truthful(s.sent, truth)
    ensures Schedule(c, s, acts) && WellLabelled(acts) && RepliesOk(acts)
    ensures Finished(Run(c, s, acts)) && !Run(c, s, acts).cancelled && Truthful(Run(c, s, acts).sent, truth)
    decreases Measure(s)
  {
    if Finished(s) {
      return [];
    }
    var a := CleanStep(c, s, truth);
    StepSafe(c, s, a);
    StepDecreases(c, s, a);
    var rest := Completion(c, Apply(c, s, a), truth);
    acts := [a] + rest;
    assert acts[0] == a && acts[1..] == rest;
  }

  /** Clean runs exist: whatever the start, with a resolver for each ecosystem and answers kept from the same
      truth, some schedule is one. */
  lemma CleanRunExists(c: Config, s: State, truth: UniqueRef -> Response) returns (acts: seq<Action>)
    requires Valid(c) && Start(c, s) && !s.cancelled && Truthful(s.sent, truth)
    requires forall u :: u in c.refs ==> u.ecosystem in c.resolvers
    ensures CleanRun(c, s, acts, truth)
  {
    StartSafe(c, s);
    acts := Completion(c, s, truth);
  }
}
