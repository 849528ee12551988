/** resolveUnique as a transition system: batch requests per ecosystem first, then one worker for every
    distinct reference, eight of them at a time, sharing the answer cache, the per-ecosystem freshness
    tables and the result map. A schedule is any sequence of enabled actions; the outcomes of the
    requests, the passing of time and the cancellation are part of the schedule. */
module ResolvePool {
  import opened Wrappers
  import opened Cache
  import opened Platform

  const MAX_CONCURRENT_RESOLVES: nat := 8

  /** refResult: an error, or a resolution with the freshness read for it. */
  datatype RefResult =
    | Failed(error: Failure)
    | Answered(resolution: Resolution, freshness: Freshness)

  /** Where a worker stands. */
  datatype PC =
    | Ready                    // spawned; at the select between a slot and the cancellation
    | GivingUp                 // saw the cancellation; about to record it
    | Holding                  // owns a slot; about to look for a resolver
    | Asking                   // about to read the cache
    | Fetching                 // cache miss; its request is out
    | Storing(got: Response)   // about to fill the cache
    | Noting(got: Response)    // about to record the freshness under the resolver's lock
    | Reporting(got: Response) // Resolve has returned; about to read the freshness under the lock
    | Writing(out: RefResult)  // about to write the shared result map
    | Releasing                // about to free the slot
    | Done

  datatype Config = Config(refs: seq<UniqueRef>, resolvers: set<string>)

  type Refused = set<(UniqueRef, ClientError)>

  datatype Request = Batch(ecosystem: string) | Single(ref: UniqueRef)

  datatype State = State(
    pending: set<string>,      // ecosystems whose batch has not been sent
    pcs: seq<PC>,
    slots: nat,                // slots taken
    results: map<UniqueRef, RefResult>,
    freshness: map<UniqueRef, Freshness>, // the tables of all resolvers, by their ecosystem
    cache: AnswerCache,
    now: int,
    cancelled: bool,
    requests: seq<Request>,    // what was asked, for the proofs
    sent: Sent,                // what was answered, for the proofs
    refused: Refused           // which single requests failed and how, for the proofs
  )

  datatype Action =
    | Cancel
    | AskBatch(batch: string, took: nat, items: Result<seq<BatchItem>, ClientError>)
    | Go(worker: nat, took: nat, giveUp: bool, reply: Result<Response, ClientError>)

  // ---------------------------------------------------------------- the system

  function References(refs: seq<UniqueRef>, ecosystem: string): set<UniqueRef> {
    set u | u in refs && u.ecosystem == ecosystem
  }

  /** prefetch sends a batch for an ecosystem with a resolver and two references or more. */
  function Batchable(c: Config): set<string> {
    set u | u in c.refs && u.ecosystem in c.resolvers && |References(c.refs, u.ecosystem)| >= 2 :: u.ecosystem
  }

  predicate Enabled(c: Config, s: State, a: Action) {
    match a
    case Cancel => !s.cancelled
    case AskBatch(e, _, _) => e in s.pending
    case Go(w, _, giveUp, _) =>
      && s.pending == {} && w < |s.pcs| && w < |c.refs| && !s.pcs[w].Done?
      && (s.pcs[w].Ready? ==> if giveUp then s.cancelled else s.slots < MAX_CONCURRENT_RESOLVES)
  }

  function Apply(c: Config, s: State, a: Action): State
    requires Enabled(c, s, a)
  {
    match a
    case Cancel => s.(cancelled := true)
    case AskBatch(e, took, items) =>
      var s' := s.(now := s.now + took, pending := s.pending - {e}, requests := s.requests + [Batch(e)]);
      if items.Err? then s'
      else s'.(cache := RememberItems(s.cache, s'.now, items.value, |items.value|),
               sent := s.sent + SentItems(items.value))
    case Go(w, took, giveUp, reply) => Work(c, s.(now := s.now + took), w, giveUp, reply)
  }

  lemma ApplyGo(c: Config, s: State, a: Action)
    requires Enabled(c, s, a) && a.Go?
    ensures Apply(c, s, a) == Work(c, s.(now := s.now + a.took), a.worker, a.giveUp, a.reply)
  {
  }

  /** One atomic step of worker w, by its program counter: where it goes and the one thing it writes. */
  function Work(c: Config, s: State, w: nat, giveUp: bool, reply: Result<Response, ClientError>): State
    requires w < |s.pcs| && w < |c.refs|
  {
    var u, pc := c.refs[w], s.pcs[w];
    s.(pcs := s.pcs[w := NextPC(c, s, w, giveUp, reply)],
       slots := NextSlots(s, pc, giveUp),
       results := NextResults(s, u, pc),
       freshness := if pc.Noting? then s.freshness[u := FreshnessOf(pc.got)] else s.freshness,
       cache := if pc.Storing? then Remember(s.cache, s.now, u, pc.got) else s.cache,
       requests := if pc.Asking? && Recall(s.cache, s.now, u).None? then s.requests + [Single(u)] else s.requests,
       sent := if pc.Fetching? && reply.Ok? then s.sent + {(u, reply.value)} else s.sent,
       refused := if pc.Fetching? && reply.Err? then s.refused + {(u, reply.error)} else s.refused)
  }

  function NextPC(c: Config, s: State, w: nat, giveUp: bool, reply: Result<Response, ClientError>): PC
    requires w < |s.pcs| && w < |c.refs|
  {
    var u := c.refs[w];
    match s.pcs[w]
    case Ready => if giveUp then GivingUp else Holding
    case GivingUp => Done
    case Holding => if u.ecosystem in c.resolvers then Asking else Writing(Failed(NoResolver(u.ecosystem)))
    case Asking => (match Recall(s.cache, s.now, u) case Some(r) => Noting(r) case None => Fetching)
    case Fetching => (match reply case Ok(r) => Storing(r) case Err(e) => Writing(Failed(Client(e))))
    case Storing(r) => Noting(r)
    case Noting(r) => Reporting(r)
    case Reporting(r) => Writing(Answered(Resolve(u, r), FreshnessFor(s, u)))
    case Writing(_) => Releasing
    case Releasing => Done
    case Done => Done
  }

  /** Freshness: an absent entry reads as the zero value. */
  function FreshnessFor(s: State, u: UniqueRef): Freshness {
    if u in s.freshness then s.freshness[u] else Freshness(false, 0)
  }

  function NextSlots(s: State, pc: PC, giveUp: bool): nat {
    if pc.Ready? && !giveUp then s.slots + 1
    else if pc.Releasing? && s.slots > 0 then s.slots - 1
    else s.slots
  }

  function NextResults(s: State, u: UniqueRef, pc: PC): map<UniqueRef, RefResult> {
    match pc
    case GivingUp => s.results[u := Failed(Client(ContextDone))]
    case Writing(out) => s.results[u := out]
    case _ => s.results
  }

  /** The caller's obligations: distinct references (collectUniqueRefs) and resolvers whose ecosystem
      names hold no colon (buildResolvers). */
  ghost predicate Valid(c: Config) {
    && Distinct(c.refs)
    && forall e :: e in c.resolvers ==> ColonFree(e)
  }

  /** The start: nothing asked. The pending batches are the batchable ecosystems, or none at all when
      the prefetch is left out; cache, clock and freshness tables may hold anything. */
  ghost predicate Start(c: Config, s: State) {
    && (s.pending == Batchable(c) || s.pending == {})
    && |s.pcs| == |c.refs| && (forall w :: 0 <= w < |s.pcs| ==> s.pcs[w] == Ready)
    && s.slots == 0 && s.results == map[] && s.requests == [] && s.refused == {}
    && Sourced(s.cache, s.sent)
  }

  ghost predicate Schedule(c: Config, s: State, acts: seq<Action>)
    decreases |acts|
  {
    acts == [] || (Enabled(c, s, acts[0]) && Schedule(c, Apply(c, s, acts[0]), acts[1..]))
  }

  function Run(c: Config, s: State, acts: seq<Action>): State
    requires Schedule(c, s, acts)
    decreases |acts|
  {
    if acts == [] then s else Run(c, Apply(c, s, acts[0]), acts[1..])
  }

  /** What wg.Wait waits for. */
  ghost predicate Finished(s: State) {
    s.pending == {} && forall w :: 0 <= w < |s.pcs| ==> s.pcs[w].Done?
  }

  // ---------------------------------------------------------------- the pool keeps its bounds

  predicate HoldsSlot(pc: PC) { !pc.Ready? && !pc.GivingUp? && !pc.Done? }

  predicate HasWritten(pc: PC) { pc.Releasing? || pc.Done? }

  predicate HasAsked(pc: PC) { !pc.Ready? && !pc.GivingUp? && !pc.Holding? && !pc.Asking? }

  function SlotsTaken(pcs: seq<PC>): nat {
    if pcs == [] then 0
    else SlotsTaken(pcs[..|pcs| - 1]) + if HoldsSlot(pcs[|pcs| - 1]) then 1 else 0
  }

  lemma {:induction false} SlotsTakenAfter(pcs: seq<PC>, w: nat, pc: PC)
    requires w < |pcs|
    ensures SlotsTaken(pcs[w := pc]) ==
            SlotsTaken(pcs) - (if HoldsSlot(pcs[w]) then 1 else 0) + (if HoldsSlot(pc) then 1 else 0)
  {
    var n := |pcs| - 1;
    if w == n {
      assert pcs[w := pc][..n] == pcs[..n];
    } else {
      assert pcs[w := pc][..n] == pcs[..n][w := pc];
      SlotsTakenAfter(pcs[..n], w, pc);
    }
  }

  lemma {:induction false} NoneTaken(pcs: seq<PC>)
    requires forall w :: 0 <= w < |pcs| ==> !HoldsSlot(pcs[w])
    ensures SlotsTaken(pcs) == 0
  {
    if pcs != [] {
      NoneTaken(pcs[..|pcs| - 1]);
    }
  }

  function WrittenBy(c: Config, pcs: seq<PC>): set<UniqueRef> {
    set w | 0 <= w < |pcs| && w < |c.refs| && HasWritten(pcs[w]) :: c.refs[w]
  }

  ghost predicate AskedFor(c: Config, pcs: seq<PC>, u: UniqueRef) {
    exists w :: 0 <= w < |c.refs| && w < |pcs| && c.refs[w] == u && HasAsked(pcs[w])
  }

  predicate UsesResolver(pc: PC) {
    pc.Asking? || pc.Fetching? || pc.Storing? || pc.Noting? || pc.Reporting?
  }

  /** One worker for every reference, and a resolver wherever one is in use. */
  ghost predicate Equipped(c: Config, pcs: seq<PC>) {
    && |pcs| == |c.refs|
    && forall w :: 0 <= w < |pcs| && UsesResolver(pcs[w]) ==> c.refs[w].ecosystem in c.resolvers
  }

  /** The pool: at most eight workers own a slot, and none starts before the batches are sent. */
  ghost predicate PoolSafe(c: Config, s: State) {
    && Equipped(c, s.pcs)
    && s.slots == SlotsTaken(s.pcs) && s.slots <= MAX_CONCURRENT_RESOLVES
    && s.pending <= Batchable(c)
    && (s.pending != {} ==> forall w :: 0 <= w < |s.pcs| ==> s.pcs[w].Ready?)
  }

  /** The requests: one batch for an ecosystem at most, one single request for a reference at most. */
  ghost predicate RequestsSafe(c: Config, s: State) {
    && Distinct(s.requests)
    && (forall e :: Batch(e) in s.requests ==> e in Batchable(c) && e !in s.pending)
    && (forall u :: Single(u) in s.requests ==> u.ecosystem in c.resolvers && AskedFor(c, s.pcs, u))
  }

  /** What every reachable state satisfies. */
  ghost predicate Safe(c: Config, s: State) {
    && PoolSafe(c, s)
    && RequestsSafe(c, s)
    && s.results.Keys == WrittenBy(c, s.pcs)
  }

  lemma WorkPool(c: Config, s: State, w: nat, giveUp: bool, reply: Result<Response, ClientError>)
    requires PoolSafe(c, s) && s.pending == {} && w < |s.pcs| && !s.pcs[w].Done?
    requires s.pcs[w].Ready? && !giveUp ==> s.slots < MAX_CONCURRENT_RESOLVES
    ensures PoolSafe(c, Work(c, s, w, giveUp, reply))
  {
    SlotsTakenAfter(s.pcs, w, NextPC(c, s, w, giveUp, reply));
  }

  lemma StepPool(c: Config, s: State, a: Action)
    requires PoolSafe(c, s) && Enabled(c, s, a)
    ensures PoolSafe(c, Apply(c, s, a))
  {
    if a.Go? {
      ApplyGo(c, s, a);
      WorkPool(c, s.(now := s.now + a.took), a.worker, a.giveUp, a.reply);
    }
  }

  lemma AskedForAfter(c: Config, pcs: seq<PC>, w: nat, pc: PC, u: UniqueRef)
    requires |pcs| == |c.refs| && w < |pcs| && (HasAsked(pcs[w]) ==> HasAsked(pc))
    requires AskedFor(c, pcs, u) || (c.refs[w] == u && HasAsked(pc))
    ensures AskedFor(c, pcs[w := pc], u)
  {
  }

  lemma NotYetAsked(c: Config, pcs: seq<PC>, w: nat)
    requires Distinct(c.refs) && |pcs| == |c.refs| && w < |pcs| && !HasAsked(pcs[w])
    ensures !AskedFor(c, pcs, c.refs[w])
  {
  }

  lemma WorkRequests(c: Config, s: State, w: nat, giveUp: bool, reply: Result<Response, ClientError>)
    requires Distinct(c.refs) && Equipped(c, s.pcs) && RequestsSafe(c, s) && w < |s.pcs| && !s.pcs[w].Done?
    ensures RequestsSafe(c, Work(c, s, w, giveUp, reply))
  {
    var s' := Work(c, s, w, giveUp, reply);
    if !HasAsked(s.pcs[w]) {
      NotYetAsked(c, s.pcs, w);
    }
    forall u | Single(u) in s'.requests ensures u.ecosystem in c.resolvers && AskedFor(c, s'.pcs, u) {
      AskedForAfter(c, s.pcs, w, s'.pcs[w], u);
    }
  }

  lemma BatchRequests(c: Config, s: State, a: Action)
    requires PoolSafe(c, s) && RequestsSafe(c, s) && a.AskBatch? && Enabled(c, s, a)
    ensures RequestsSafe(c, Apply(c, s, a))
  {
    assert Batch(a.batch) !in s.requests;
    assert Apply(c, s, a).requests == s.requests + [Batch(a.batch)];
  }

  lemma StepRequests(c: Config, s: State, a: Action)
    requires Distinct(c.refs) && PoolSafe(c, s) && RequestsSafe(c, s) && Enabled(c, s, a)
    ensures RequestsSafe(c, Apply(c, s, a))
  {
    if a.AskBatch? {
      BatchRequests(c, s, a);
    } else if a.Go? {
      ApplyGo(c, s, a);
      WorkRequests(c, s.(now := s.now + a.took), a.worker, a.giveUp, a.reply);
    }
  }

  lemma WrittenAfter(c: Config, pcs: seq<PC>, w: nat, pc: PC)
    requires |pcs| == |c.refs| && w < |pcs| && (HasWritten(pcs[w]) ==> HasWritten(pc))
    ensures WrittenBy(c, pcs[w := pc]) == WrittenBy(c, pcs) + if HasWritten(pc) then {c.refs[w]} else {}
  {
    var after := pcs[w := pc];
    forall u | u in WrittenBy(c, pcs) ensures u in WrittenBy(c, after) {
      var v :| 0 <= v < |pcs| && HasWritten(pcs[v]) && c.refs[v] == u;
      assert HasWritten(after[v]);
    }
    if HasWritten(pc) {
      assert HasWritten(after[w]);
    }
  }

  lemma NextResultsKeys(c: Config, s: State, w: nat, giveUp: bool, reply: Result<Response, ClientError>)
    requires w < |s.pcs| && w < |c.refs| && !s.pcs[w].Done?
    ensures NextResults(s, c.refs[w], s.pcs[w]).Keys ==
            s.results.Keys + if s.pcs[w].GivingUp? || s.pcs[w].Writing? then {c.refs[w]} else {}
    ensures HasWritten(NextPC(c, s, w, giveUp, reply)) <==>
            s.pcs[w].GivingUp? || s.pcs[w].Writing? || s.pcs[w].Releasing?
  {
  }

  lemma WorkResults(c: Config, s: State, w: nat, giveUp: bool, reply: Result<Response, ClientError>)
    requires |s.pcs| == |c.refs| && s.results.Keys == WrittenBy(c, s.pcs) && w < |s.pcs| && !s.pcs[w].Done?
    ensures Work(c, s, w, giveUp, reply).results.Keys == WrittenBy(c, Work(c, s, w, giveUp, reply).pcs)
  {
    NextResultsKeys(c, s, w, giveUp, reply);
    WrittenAfter(c, s.pcs, w, NextPC(c, s, w, giveUp, reply));
    assert s.pcs[w].Releasing? ==> c.refs[w] in WrittenBy(c, s.pcs);
  }

  lemma StepResults(c: Config, s: State, a: Action)
    requires |s.pcs| == |c.refs| && s.results.Keys == WrittenBy(c, s.pcs) && Enabled(c, s, a)
    ensures Apply(c, s, a).results.Keys == WrittenBy(c, Apply(c, s, a).pcs)
  {
    if a.Go? {
      ApplyGo(c, s, a);
      WorkResults(c, s.(now := s.now + a.took), a.worker, a.giveUp, a.reply);
    }
  }

  lemma StepSafe(c: Config, s: State, a: Action)
    requires Distinct(c.refs) && Safe(c, s) && Enabled(c, s, a)
    ensures Safe(c, Apply(c, s, a))
  {
    StepPool(c, s, a);
    StepRequests(c, s, a);
    StepResults(c, s, a);
  }
}
