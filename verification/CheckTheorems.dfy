/** What a whole check means: the worker pool and the comparison after it, over every schedule. */
module CheckTheorems {
  import opened Wrappers
  import opened Cache
  import opened Platform
  import opened Manifest
  import opened ResolvePool
  import opened PoolRuns
  import opened PoolAnswers
  import opened PoolFailures
  import opened Check
  import opened Verdict

  /** The pool works on the distinct references of the lockfile. */
  ghost predicate PoolFor(lf: Lockfile, c: Config) { c.refs == Unique(Entries(lf)) }

  /** A finished pool has an answer for every entry. */
  lemma FinishedCovers(lf: Lockfile, c: Config, s: State, acts: seq<Action>)
    requires PoolFor(lf, c) && Start(c, s) && Schedule(c, s, acts) && Finished(Run(c, s, acts))
    ensures Check.Covers(Entries(lf), Run(c, s, acts).results)
  {
    UniqueIsDistinct(Entries(lf));
    FinishedIsComplete(c, s, acts);
  }

  /** A truth without stale answers. */
  ghost predicate AlwaysFresh(truth: UniqueRef -> Response) {
    forall u :: !truth(u).stale
  }

  /** A deterministic, successful resolver that tells that truth. */
  function ResolverOf(truth: UniqueRef -> Response): UniqueRef -> Result<Resolution, ClientError> {
    u => Ok(Resolve(u, truth(u)))
  }

  lemma {:induction false} SequentialAgrees(entries: seq<ToolEntry>, n: nat, resolvers: set<string>,
                                            truth: UniqueRef -> Response, resolved: map<UniqueRef, RefResult>)
    requires n <= |entries| && AlwaysFresh(truth) && Check.Covers(entries, resolved)
    requires forall t :: t in entries ==> t.ecosystem in resolvers
    requires forall u :: u in Refs(entries) ==> resolved[u] == ResultFor(u, truth(u))
    ensures SequentialDrift(entries, n, resolvers, ResolverOf(truth)) == Ok(DriftsOf(Findings(entries, resolved)[..n]))
    ensures WarningsOf(Findings(entries, resolved)[..n]) == []
  {
    if n > 0 {
      SequentialAgrees(entries, n - 1, resolvers, truth, resolved);
      var f, t := Findings(entries, resolved), entries[n - 1];
      assert t in entries && RefOf(t) in Refs(entries);
      assert f[..n][..n - 1] == f[..n - 1];
      assert f[..n][n - 1] == Judge(t, ResultFor(RefOf(t), truth(RefOf(t))));
      assert DriftsOf(f[..n - 1]) + [] == DriftsOf(f[..n - 1]);
    }
  }

  /** Schedule independence: with deterministic, successful, fresh resolvers for every ecosystem and no
      cancellation, every interleaving of the pool followed by the comparison finds the same drift, in the
      same order, as the sequential loop that resolves entry by entry, and raises no warning. */
  lemma ScheduleIndependence(lf: Lockfile, c: Config, s: State, acts: seq<Action>, truth: UniqueRef -> Response)
    requires PoolFor(lf, c) && CleanRun(c, s, acts, truth) && AlwaysFresh(truth)
    ensures Check.Covers(Entries(lf), Run(c, s, acts).results)
    ensures Ok(DriftsOf(Findings(Entries(lf), Run(c, s, acts).results)))
         == SequentialDrift(Entries(lf), |Entries(lf)|, c.resolvers, ResolverOf(truth))
    ensures WarningsOf(Findings(Entries(lf), Run(c, s, acts).results)) == []
  {
    var entries, resolved := Entries(lf), Run(c, s, acts).results;
    UniqueIsDistinct(entries);
    FinishedCovers(lf, c, s, acts);
    FinalAnswers(c, s, acts, truth);
    assert forall u :: u in c.refs <==> u in Refs(entries) by {
      assert forall u :: u in Unique(entries) <==> u in set v | v in Unique(entries);
    }
    forall t | t in entries ensures t.ecosystem in c.resolvers {
      assert RefOf(t) in Refs(entries);
    }
    SequentialAgrees(entries, |entries|, c.resolvers, truth, resolved);
    assert Findings(entries, resolved)[..|entries|] == Findings(entries, resolved);
  }

  /** An entry backed by a fresh answer of the platform for its own reference, with the locked hash. */
  ghost predicate Confirmed(sent: Sent, t: ToolEntry) {
    exists r :: (UniqueRef(t.ecosystem, t.reference), r) in sent && !r.stale && r.hash == t.hash
  }

  /** An entry contradicted by a fresh answer of the platform for its own reference, as the drift says. */
  ghost predicate ContradictedBy(sent: Sent, t: ToolEntry, d: DriftResult) {
    exists r :: (UniqueRef(t.ecosystem, t.reference), r) in sent && !r.stale && r.hash != t.hash &&
      d == DriftResult(t.ecosystem, t.reference, t.hash, r.hash, SevCritical)
  }

  ghost predicate Contradicted(sent: Sent, t: ToolEntry) { exists d :: ContradictedBy(sent, t, d) }

  /** What a finding about an entry says has happened in the run. */
  ghost predicate Explained(c: Config, s: State, t: ToolEntry, f: Finding) {
    var u := UniqueRef(t.ecosystem, t.reference);
    match f
    case Matching => Confirmed(s.sent, t)
    case Drifted(d) => ContradictedBy(s.sent, t, d)
    case Unverified(StaleData(reference, age)) =>
      reference == t.reference && exists r :: (u, r) in s.sent && r.stale && age == Int64(r.ageSeconds * 1_000_000_000)
    case Unverified(Unresolved(reference, NoResolver(e))) =>
      reference == t.reference && e == t.ecosystem && e !in c.resolvers
    case Unverified(Unresolved(reference, Client(e))) =>
      reference == t.reference && ((u, e) in s.refused || (e == ContextDone && s.cancelled))
  }

  lemma FindingIsBacked(c: Config, s: State, t: ToolEntry, got: RefResult)
    requires Genuine(c, s, RefOf(t), got)
    ensures Explained(c, s, t, Judge(t, got))
  {
    if got.Answered? {
      var r :| (RefOf(t), r) in s.sent && got == ResultFor(RefOf(t), r);
      assert !r.stale && r.hash != t.hash ==>
        ContradictedBy(s.sent, t, DriftResult(t.ecosystem, t.reference, t.hash, r.hash, SevCritical));
    }
  }

  lemma VerdictShows(findings: seq<Finding>, selectionChanges: nat)
    ensures ExpectedExit(findings, selectionChanges) == 0 ==>
              selectionChanges == 0 && forall i :: 0 <= i < |findings| ==> findings[i].Matching?
    ensures DriftsOf(findings) != [] ==> exists i :: 0 <= i < |findings| && findings[i].Drifted?
  {
    EmptyMeansNone(findings);
  }

  /** Over every schedule each entry has one finding, in lockfile order, and each finding is explained by what
      happened in the run. */
  lemma FindingsAreBacked(lf: Lockfile, c: Config, s: State, acts: seq<Action>, i: nat)
    requires PoolFor(lf, c) && Valid(c) && Start(c, s) && Schedule(c, s, acts) && WellLabelled(acts)
    requires i < |Entries(lf)| && Check.Covers(Entries(lf), Run(c, s, acts).results)
    ensures Explained(c, Run(c, s, acts), Entries(lf)[i], Findings(Entries(lf), Run(c, s, acts).results)[i])
  {
    var t, entry := Run(c, s, acts), Entries(lf)[i];
    ResultsAreGenuine(c, s, acts, RefOf(entry));
    FindingIsBacked(c, t, entry, t.results[RefOf(entry)]);
  }

  /** An entry whose request failed is reported with that failure, whatever else happened in the run. */
  lemma FailuresAreWarned(lf: Lockfile, c: Config, s: State, acts: seq<Action>, i: nat, e: ClientError)
    requires PoolFor(lf, c) && Valid(c) && Start(c, s) && Schedule(c, s, acts) && WellLabelled(acts)
    requires Finished(Run(c, s, acts)) && i < |Entries(lf)|
    requires (UniqueRef(Entries(lf)[i].ecosystem, Entries(lf)[i].reference), e) in Run(c, s, acts).refused
    ensures Check.Covers(Entries(lf), Run(c, s, acts).results)
    ensures Findings(Entries(lf), Run(c, s, acts).results)[i] ==
            Unverified(Unresolved(Entries(lf)[i].reference, Client(e)))
  {
    FinishedCovers(lf, c, s, acts);
    FailuresAreRecorded(c, s, acts, RefOf(Entries(lf)[i]), e);
  }

  /** Over every schedule, cancelled or failing at any point, exit code 0 means that every single entry was
      confirmed by a fresh answer for its own reference, and every drift reported is one between some entry and
      a fresh answer for its own reference. */
  lemma VerdictIsBacked(lf: Lockfile, c: Config, s: State, acts: seq<Action>, selectionChanges: nat)
    requires PoolFor(lf, c) && Valid(c) && Start(c, s) && Schedule(c, s, acts) && WellLabelled(acts)
    requires Finished(Run(c, s, acts))
    ensures Check.Covers(Entries(lf), Run(c, s, acts).results)
    ensures var findings := Findings(Entries(lf), Run(c, s, acts).results);
            var sent := Run(c, s, acts).sent;
            && (ExpectedExit(findings, selectionChanges) == 0 ==>
                  selectionChanges == 0 && forall t :: t in Entries(lf) ==> Confirmed(sent, t))
            && (forall d :: d in DriftsOf(findings) ==> exists t :: t in Entries(lf) && ContradictedBy(sent, t, d))
            && (DriftsOf(findings) != [] ==> exists t :: t in Entries(lf) && Contradicted(sent, t))
  {
    FinishedCovers(lf, c, s, acts);
    var findings := Findings(Entries(lf), Run(c, s, acts).results);
    forall i | 0 <= i < |findings| ensures Explained(c, Run(c, s, acts), Entries(lf)[i], findings[i]) {
      FindingsAreBacked(lf, c, s, acts, i);
    }
    VerdictShows(findings, selectionChanges);
    DriftsAreBacked(lf, c, s, acts, findings);
  }

  lemma DriftsAreBacked(lf: Lockfile, c: Config, s: State, acts: seq<Action>, findings: seq<Finding>)
    requires Schedule(c, s, acts) && |findings| == |Entries(lf)|
    requires forall i :: 0 <= i < |findings| ==> Explained(c, Run(c, s, acts), Entries(lf)[i], findings[i])
    ensures forall d :: d in DriftsOf(findings) ==>
              exists t :: t in Entries(lf) && ContradictedBy(Run(c, s, acts).sent, t, d)
    ensures DriftsOf(findings) != [] ==> exists t :: t in Entries(lf) && Contradicted(Run(c, s, acts).sent, t)
  {
    forall d | d in DriftsOf(findings)
      ensures exists t :: t in Entries(lf) && ContradictedBy(Run(c, s, acts).sent, t, d)
    {
      DriftsAndWarnings(findings);
      var i :| 0 <= i < |findings| && findings[i] == Drifted(d);
      assert Entries(lf)[i] in Entries(lf);
    }
    if DriftsOf(findings) != [] {
      var d := DriftsOf(findings)[0];
      assert d in DriftsOf(findings);
      var t :| t in Entries(lf) && ContradictedBy(Run(c, s, acts).sent, t, d);
      assert Contradicted(Run(c, s, acts).sent, t);
    }
  }

  /** The pool as a check starts it: a new client, nothing asked, the batches still to be sent. */
  function Initial(lf: Lockfile, resolvers: set<string>): State {
    var c := Config(Unique(Entries(lf)), resolvers);
    State(Batchable(c), seq(|c.refs|, _ => Ready), 0, map[], map[], map[], 0, false, [], {}, {})
  }

  /** So the clean runs the theorems speak of exist for every lockfile whose ecosystems have resolvers. */
  lemma CheckCanComplete(lf: Lockfile, resolvers: set<string>, truth: UniqueRef -> Response)
    returns (c: Config, acts: seq<Action>)
    requires forall e :: e in resolvers ==> ColonFree(e)
    requires forall t :: t in Entries(lf) ==> t.ecosystem in resolvers
    ensures PoolFor(lf, c) && CleanRun(c, Initial(lf, resolvers), acts, truth)
  {
    c := Config(Unique(Entries(lf)), resolvers);
    UniqueIsDistinct(Entries(lf));
    forall u | u in c.refs ensures u.ecosystem in c.resolvers {
      assert u in Refs(Entries(lf));
    }
    acts := CleanRunExists(c, Initial(lf, resolvers), truth);
  }
}
