/** A baseline just written and then checked against the unchanged project and platform. */
module InitCheck {
  import opened Wrappers
  import opened Platform
  import opened Manifest
  import opened Parser
  import opened Grouping
  import opened Init
  import opened ResolvePool
  import opened PoolAnswers
  import opened Check
  import opened CheckTheorems
  import opened Verdict
  import opened Selection
  import Prefetch

  ghost predicate StepsCoverTools(ws: seq<WorkflowFile>) { forall i :: 0 <= i < |ws| ==> StepsCover(ws[i]) }

  /** Each reference is used in one ecosystem only. */
  ghost predicate ReferenceDeterminesEcosystem(ws: seq<WorkflowFile>) {
    forall t, t' :: t in AllTools(ws) && t' in AllTools(ws) && t.reference == t'.reference ==>
      t.ecosystem == t'.ecosystem
  }

  /** What ResolveTools yields for the tools of CollectUniqueTools when the platform tells this truth. */
  ghost predicate ResolvedBy(ws: seq<WorkflowFile>, resolved: map<string, Resolution>, truth: UniqueRef -> Response) {
    && (forall r :: r in resolved <==> FirstWith(AllTools(ws), r).Some?)
    && forall r :: r in resolved ==> resolved[r] == Platform.Resolve(AskedAs(ws, r), truth(AskedAs(ws, r)))
  }

  /** The pair init asks the platform about for a reference: that of the first tool carrying it. */
  ghost function AskedAs(ws: seq<WorkflowFile>, r: string): UniqueRef {
    match FirstWith(AllTools(ws), r)
    case Some(t) => PairOf(t)
    case None => UniqueRef("", r)
  }

  // ---------------------------------------------------------------- what the lockfile holds

  lemma {:induction false} AcrossPipelines(ps: seq<PipelineEntry>, n: nat, e: ToolEntry)
    requires n <= |ps|
    ensures e in PipelineTools(ps, n) <==> exists i :: 0 <= i < n && e in PipelineEntries(ps[i])
  {
    if n > 0 {
      AcrossPipelines(ps, n - 1, e);
    }
  }

  lemma {:induction false} AcrossFiles(ws: seq<WorkflowFile>, n: nat, t: ToolRef)
    requires n <= |ws|
    ensures t in ToolsOf(ws, n) <==> exists i :: 0 <= i < n && t in ws[i].tools
  {
    if n > 0 {
      AcrossFiles(ws, n - 1, t);
    }
  }

  lemma FileEntries(wf: WorkflowFile, resolved: map<string, Resolution>, e: ToolEntry)
    requires forall t :: t in wf.tools ==> t.reference in resolved
    requires forall t :: t in wf.tools ==> exists s :: s in wf.steps && s.job == t.jobName && s.name == t.stepName
    ensures e in PipelineEntries(PipelineOf(wf, resolved)) <==>
            exists t :: t in wf.tools && e == EntryOf(t, resolved[t.reference])
  {
    var keys, items := KeysOf(wf.steps), KeyedTools(wf.tools, resolved);
    PipelinePlaces(wf, resolved);
    PlacedMembers(keys, items, e);
    forall t | t in wf.tools && e == EntryOf(t, resolved[t.reference])
      ensures exists i :: 0 <= i < |items| && items[i].key in keys && items[i].item == e
    {
      var s :| s in wf.steps && s.job == t.jobName && s.name == t.stepName;
      var j :| 0 <= j < |wf.steps| && wf.steps[j] == s;
      assert keys[j] == StepKey(t.jobName, t.stepName);
      var k := Keyed(StepKey(t.jobName, t.stepName), e);
      KeyedMembers(wf.tools, resolved, k);
      var i :| 0 <= i < |items| && items[i] == k;
    }
    forall i | 0 <= i < |items| && items[i].item == e
      ensures exists t :: t in wf.tools && e == EntryOf(t, resolved[t.reference])
    {
      KeyedMembers(wf.tools, resolved, items[i]);
    }
  }

  /** The baseline holds an entry exactly for every tool, with its reference's resolution. */
  lemma EntriesAreTools(ws: seq<WorkflowFile>, resolved: map<string, Resolution>, at: string, e: ToolEntry)
    requires StepsCoverTools(ws) && forall t :: t in AllTools(ws) ==> t.reference in resolved
    ensures e in Entries(LockfileOf(ws, resolved, at)) <==>
            exists t :: t in AllTools(ws) && e == EntryOf(t, resolved[t.reference])
  {
    var ps := LockfileOf(ws, resolved, at).pipelines.All();
    assert |ps| == |ws| && forall i :: 0 <= i < |ws| ==> ps[i] == PipelineOf(ws[i], resolved);
    AcrossPipelines(ps, |ps|, e);
    forall i | 0 <= i < |ws|
      ensures e in PipelineEntries(ps[i]) <==> exists t :: t in ws[i].tools && t.reference in resolved &&
                                                                  e == EntryOf(t, resolved[t.reference])
    {
      forall t | t in ws[i].tools ensures t.reference in resolved {
        AcrossFiles(ws, |ws|, t);
      }
      FileEntries(ws[i], resolved, e);
    }
    forall t ensures t in AllTools(ws) <==> exists i :: 0 <= i < |ws| && t in ws[i].tools {
      AcrossFiles(ws, |ws|, t);
    }
  }

  /** An entry that records a tool with what the platform answered for its reference. */
  ghost predicate RecordsAnswer(e: ToolEntry, t: ToolRef, r: Response) {
    e == ToolEntry(t.ecosystem, t.reference, r.hash, r.algorithm, "platform:" + r.source)
  }

  /** The baseline of a truthful platform: an entry exactly for every tool, with the answer for the pair of the first
      tool that carries its reference. */
  lemma EntriesAreAnswers(ws: seq<WorkflowFile>, truth: UniqueRef -> Response, at: string, e: ToolEntry)
    requires StepsCoverTools(ws)
    ensures e in Entries(LockfileOf(ws, ResolutionsOf(ws, truth), at)) <==>
            exists t, first :: t in AllTools(ws) && ComesFirst(AllTools(ws), first) && first.reference == t.reference &&
                               RecordsAnswer(e, t, truth(UniqueRef(first.ecosystem, first.reference)))
  {
    ResolutionsResolve(ws, truth);
    AllResolved(ws, ResolutionsOf(ws, truth), truth);
    EntriesAreTools(ws, ResolutionsOf(ws, truth), at, e);
    forall t | t in AllTools(ws)
      ensures e == EntryOf(t, ResolutionsOf(ws, truth)[t.reference]) <==>
              exists first :: ComesFirst(AllTools(ws), first) && first.reference == t.reference &&
                              RecordsAnswer(e, t, truth(UniqueRef(first.ecosystem, first.reference)))
    {
      EntryOfFirst(ws, truth, t, e);
    }
  }

  lemma EntryOfFirst(ws: seq<WorkflowFile>, truth: UniqueRef -> Response, t: ToolRef, e: ToolEntry)
    requires t in AllTools(ws) && t.reference in ResolutionsOf(ws, truth)
    ensures e == EntryOf(t, ResolutionsOf(ws, truth)[t.reference]) <==>
            exists first :: ComesFirst(AllTools(ws), first) && first.reference == t.reference &&
                            RecordsAnswer(e, t, truth(UniqueRef(first.ecosystem, first.reference)))
  {
    ResolutionsResolve(ws, truth);
    FirstWithFacts(AllTools(ws), t.reference);
    FirstWithComesFirst(AllTools(ws), t.reference);
    OnlyOneComesFirst(AllTools(ws), FirstOf(ws, t));
    assert AskedAs(ws, t.reference) == UniqueRef(FirstOf(ws, t).ecosystem, FirstOf(ws, t).reference);
  }

  ghost function FirstOf(ws: seq<WorkflowFile>, t: ToolRef): ToolRef {
    match FirstWith(AllTools(ws), t.reference)
    case Some(first) => first
    case None => t
  }

  lemma OnlyOneComesFirst(tools: seq<ToolRef>, a: ToolRef)
    requires ComesFirst(tools, a)
    ensures forall b :: ComesFirst(tools, b) && b.reference == a.reference ==> b == a
  {
    forall b | ComesFirst(tools, b) && b.reference == a.reference ensures b == a {
      var i :| 0 <= i < |tools| && tools[i] == a && forall j :: 0 <= j < i ==> tools[j].reference != a.reference;
      var k :| 0 <= k < |tools| && tools[k] == b && forall j :: 0 <= j < k ==> tools[j].reference != b.reference;
      assert i == k;
    }
  }

  lemma AllResolved(ws: seq<WorkflowFile>, resolved: map<string, Resolution>, truth: UniqueRef -> Response)
    requires ResolvedBy(ws, resolved, truth)
    ensures forall t :: t in AllTools(ws) ==> t.reference in resolved
  {
    forall t | t in AllTools(ws) ensures t.reference in resolved {
      FirstWithFacts(AllTools(ws), t.reference);
    }
  }

  // ---------------------------------------------------------------- the three parts of a check

  /** The new baseline is readable exactly when no reference and no platform hash is blank. */
  lemma BaselineIsWellFormed(ws: seq<WorkflowFile>, resolved: map<string, Resolution>, at: string,
                             truth: UniqueRef -> Response)
    requires StepsCoverTools(ws) && ResolvedBy(ws, resolved, truth)
    ensures WellFormed(LockfileOf(ws, resolved, at)) <==>
            forall t :: t in AllTools(ws) ==> t.reference != "" && truth(AskedAs(ws, t.reference)).hash != ""
  {
    AllResolved(ws, resolved, truth);
    var lf := LockfileOf(ws, resolved, at);
    forall t | t in AllTools(ws) ensures EntryOf(t, resolved[t.reference]) in Entries(lf) {
      EntriesAreTools(ws, resolved, at, EntryOf(t, resolved[t.reference]));
    }
    forall e | e in Entries(lf) ensures exists t :: t in AllTools(ws) && e == EntryOf(t, resolved[t.reference]) {
      EntriesAreTools(ws, resolved, at, e);
    }
  }

  /** The same pairs, in files that may list them in another order. */
  ghost predicate SamePairs(ws: seq<WorkflowFile>, declared: seq<WorkflowFile>) {
    forall u :: Declared(ws, u) <==> Declared(declared, u)
  }

  lemma BaselineRecordsDeclared(ws: seq<WorkflowFile>, resolved: map<string, Resolution>, at: string,
                                truth: UniqueRef -> Response, u: UniqueRef)
    requires StepsCoverTools(ws) && ResolvedBy(ws, resolved, truth)
    ensures Recorded(LockfileOf(ws, resolved, at), u) <==> Declared(ws, u)
  {
    AllResolved(ws, resolved, truth);
    var lf := LockfileOf(ws, resolved, at);
    if Declared(ws, u) {
      var i :| 0 <= i < |ws| && DeclaredIn(ws[i], u);
      var t :| t in ws[i].tools && PairOf(t) == u;
      AcrossFiles(ws, |ws|, t);
      EntriesAreTools(ws, resolved, at, EntryOf(t, resolved[t.reference]));
      assert RefOf(EntryOf(t, resolved[t.reference])) == u;
    }
    if Recorded(lf, u) {
      var e :| e in Entries(lf) && RefOf(e) == u;
      EntriesAreTools(ws, resolved, at, e);
      var t :| t in AllTools(ws) && e == EntryOf(t, resolved[t.reference]);
      AcrossFiles(ws, |ws|, t);
      var i :| 0 <= i < |ws| && t in ws[i].tools;
      assert DeclaredIn(ws[i], u);
    }
  }

  /** Every entry records what the platform answers for its own pair. */
  ghost predicate EntriesTrue(lf: Lockfile, truth: UniqueRef -> Response) {
    forall e :: e in Entries(lf) ==> e.hash == truth(RefOf(e)).hash
  }

  lemma EntriesTrueIfDetermined(ws: seq<WorkflowFile>, resolved: map<string, Resolution>, at: string,
                                truth: UniqueRef -> Response)
    requires StepsCoverTools(ws) && ResolvedBy(ws, resolved, truth) && ReferenceDeterminesEcosystem(ws)
    ensures EntriesTrue(LockfileOf(ws, resolved, at), truth)
  {
    AllResolved(ws, resolved, truth);
    forall e | e in Entries(LockfileOf(ws, resolved, at)) ensures e.hash == truth(RefOf(e)).hash {
      EntriesAreTools(ws, resolved, at, e);
      var t :| t in AllTools(ws) && e == EntryOf(t, resolved[t.reference]);
      FirstWithFacts(AllTools(ws), t.reference);
      assert AskedAs(ws, t.reference) == PairOf(t);
    }
  }

  /** A platform that gives every ecosystem hashes of its own. */
  function ByEcosystem(u: UniqueRef): Response { Response("sha-" + u.ecosystem, "", "", false, 0) }

  ghost function ResolutionsOf(ws: seq<WorkflowFile>, truth: UniqueRef -> Response): map<string, Resolution> {
    map t | t in AllTools(ws) && FirstWith(AllTools(ws), t.reference).Some? ::
      t.reference := Platform.Resolve(AskedAs(ws, t.reference), truth(AskedAs(ws, t.reference)))
  }

  lemma ResolutionsResolve(ws: seq<WorkflowFile>, truth: UniqueRef -> Response)
    ensures ResolvedBy(ws, ResolutionsOf(ws, truth), truth)
  {
    forall r ensures r in ResolutionsOf(ws, truth) <==> FirstWith(AllTools(ws), r).Some? {
      FirstWithFacts(AllTools(ws), r);
    }
  }

  /** Of two tools that share a reference, the one whose ecosystem init did not ask about is recorded with
      a hash that is not its own. */
  lemma OddEcosystemIsWrong(ws: seq<WorkflowFile>, at: string, t: ToolRef)
    requires StepsCoverTools(ws) && t in AllTools(ws) && AskedAs(ws, t.reference).ecosystem != t.ecosystem
    ensures !EntriesTrue(LockfileOf(ws, ResolutionsOf(ws, ByEcosystem), at), ByEcosystem)
  {
    var resolved := ResolutionsOf(ws, ByEcosystem);
    ResolutionsResolve(ws, ByEcosystem);
    AllResolved(ws, resolved, ByEcosystem);
    var e := EntryOf(t, resolved[t.reference]);
    EntriesAreTools(ws, resolved, at, e);
    var asked := AskedAs(ws, t.reference).ecosystem;
    assert ("sha-" + asked)[4..] == asked && ("sha-" + t.ecosystem)[4..] == t.ecosystem;
    assert e.hash == "sha-" + asked && ByEcosystem(RefOf(e)).hash == "sha-" + t.ecosystem;
  }

  lemma UndeterminedIsWrong(ws: seq<WorkflowFile>, at: string)
    requires StepsCoverTools(ws) && !ReferenceDeterminesEcosystem(ws)
    ensures !EntriesTrue(LockfileOf(ws, ResolutionsOf(ws, ByEcosystem), at), ByEcosystem)
  {
    var t, t' :| t in AllTools(ws) && t' in AllTools(ws) && t.reference == t'.reference && t.ecosystem != t'.ecosystem;
    if AskedAs(ws, t.reference).ecosystem == t.ecosystem {
      OddEcosystemIsWrong(ws, at, t');
    } else {
      OddEcosystemIsWrong(ws, at, t);
    }
  }

  /** A new baseline agrees with every platform exactly when no reference is used in two ecosystems: the
      tools are collected by reference alone, so a second ecosystem's entry gets the first one's hash. */
  lemma BaselineTrueIffDetermined(ws: seq<WorkflowFile>, at: string)
    requires StepsCoverTools(ws)
    ensures (forall truth: UniqueRef -> Response :: EntriesTrue(LockfileOf(ws, ResolutionsOf(ws, truth), at), truth))
            <==> ReferenceDeterminesEcosystem(ws)
  {
    if ReferenceDeterminesEcosystem(ws) {
      forall truth: UniqueRef -> Response ensures EntriesTrue(LockfileOf(ws, ResolutionsOf(ws, truth), at), truth) {
        ResolutionsResolve(ws, truth);
        EntriesTrueIfDetermined(ws, ResolutionsOf(ws, truth), at, truth);
      }
    } else {
      UndeterminedIsWrong(ws, at);
    }
  }

  /** A lockfile whose entries are all true is found clean by every clean run of the pool. */
  lemma TrueEntriesMatch(lf: Lockfile, c: Config, s: State, acts: seq<Action>, truth: UniqueRef -> Response)
    requires PoolFor(lf, c) && CleanRun(c, s, acts, truth) && AlwaysFresh(truth) && EntriesTrue(lf, truth)
    ensures Check.Covers(Entries(lf), Run(c, s, acts).results)
    ensures ExpectedExit(Findings(Entries(lf), Run(c, s, acts).results), 0) == 0
  {
    FinishedCovers(lf, c, s, acts);
    FinalAnswers(c, s, acts, truth);
    var entries, resolved := Entries(lf), Run(c, s, acts).results;
    forall i | 0 <= i < |entries| ensures Findings(entries, resolved)[i].Matching? {
      var e := entries[i];
      assert RefOf(e) in resolved && resolved[RefOf(e)] == ResultFor(RefOf(e), truth(RefOf(e)));
      assert e in entries;
    }
  }

  /** Init, then check, on an unchanged world: if each reference belongs to one ecosystem and nothing is
      blank, the new baseline is valid, shows no selection change against files with the same pairs, and
      every clean run of the pool over it ends with exit code 0. */
  lemma InitThenCheckIsClean(ws: seq<WorkflowFile>, declared: seq<WorkflowFile>, resolved: map<string, Resolution>,
                             at: string, c: Config, s: State, acts: seq<Action>, truth: UniqueRef -> Response)
    requires StepsCoverTools(ws) && ReferenceDeterminesEcosystem(ws) && SamePairs(ws, declared)
    requires ResolvedBy(ws, resolved, truth) && AlwaysFresh(truth)
    requires forall t :: t in AllTools(ws) ==> t.reference != "" && truth(AskedAs(ws, t.reference)).hash != ""
    requires PoolFor(LockfileOf(ws, resolved, at), c) && CleanRun(c, s, acts, truth)
    ensures WellFormed(LockfileOf(ws, resolved, at))
    ensures forall ch :: !IsChange(declared, LockfileOf(ws, resolved, at), ch)
    ensures Check.Covers(Entries(LockfileOf(ws, resolved, at)), Run(c, s, acts).results)
    ensures ExpectedExit(Findings(Entries(LockfileOf(ws, resolved, at)), Run(c, s, acts).results), 0) == 0
  {
    var lf := LockfileOf(ws, resolved, at);
    BaselineIsWellFormed(ws, resolved, at, truth);
    forall u ensures Declared(declared, u) <==> Recorded(lf, u) {
      BaselineRecordsDeclared(ws, resolved, at, truth, u);
    }
    NoChanges(declared, lf);
    EntriesTrueIfDetermined(ws, resolved, at, truth);
    TrueEntriesMatch(lf, c, s, acts, truth);
  }

  datatype InitError = NoDependencies | Unresolvable(failure: Failure)

  lemma CollectedTools(ws: seq<WorkflowFile>, tools: map<string, ToolRef>)
    requires FirstTools(AllTools(ws), tools)
    ensures forall k :: k in tools ==> tools[k].reference == k && tools[k] in AllTools(ws)
    ensures |tools| == 0 <==> AllTools(ws) == []
  {
    forall k ensures k in tools ==> tools[k].reference == k && tools[k] in AllTools(ws) {
      FirstWithFacts(AllTools(ws), k);
    }
    if AllTools(ws) != [] {
      FirstWithFacts(AllTools(ws), AllTools(ws)[0].reference);
      assert AllTools(ws)[0].reference in tools;
    } else {
      assert forall k :: k !in tools;
    }
  }

  lemma ResolvedToolsAre(ws: seq<WorkflowFile>, tools: map<string, ToolRef>, m: map<string, Resolution>,
                         truth: UniqueRef -> Response)
    requires FirstTools(AllTools(ws), tools) && m.Keys == tools.Keys
    requires forall k :: k in tools ==> m[k] == Platform.Resolve(PairOf(tools[k]), truth(PairOf(tools[k])))
    ensures m == ResolutionsOf(ws, truth)
  {
    var expected := ResolutionsOf(ws, truth);
    ResolutionsResolve(ws, truth);
    assert m.Keys == expected.Keys;
    forall k | k in m ensures m[k] == expected[k] {
      assert FirstWith(AllTools(ws), k) == Some(tools[k]);
    }
  }

  /** The pairs init asks about in one ecosystem: one for each reference whose first tool is in it. */
  ghost function AskedIn(ws: seq<WorkflowFile>, e: string): set<UniqueRef> {
    set t | t in AllTools(ws) && AskedAs(ws, t.reference).ecosystem == e :: AskedAs(ws, t.reference)
  }

  lemma AskedAreCollected(ws: seq<WorkflowFile>, tools: map<string, ToolRef>, refs: seq<UniqueRef>, e: string)
    requires FirstTools(AllTools(ws), tools)
    requires forall u :: u in refs <==> u.reference in tools && u == PairOf(tools[u.reference])
    ensures AskedIn(ws, e) == References(refs, e)
  {
    forall t | t in AllTools(ws) ensures AskedAs(ws, t.reference) in refs {
      FirstWithFacts(AllTools(ws), t.reference);
    }
    forall u | u in refs
      ensures u == AskedAs(ws, u.reference) && exists t :: t in AllTools(ws) && t.reference == u.reference
    {
      FirstWithFacts(AllTools(ws), u.reference);
    }
  }

  /** The pairs of the collected tools, in any order of the map. */
  method PairsOf(tools: map<string, ToolRef>) returns (refs: seq<UniqueRef>)
    requires forall k :: k in tools ==> tools[k].reference == k
    ensures Distinct(refs) && forall u :: u in refs <==> u.reference in tools && u == PairOf(tools[u.reference])
  {
    refs := [];
    var left := tools.Keys;
    while left != {}
      invariant left <= tools.Keys && Distinct(refs)
      invariant forall u :: u in refs <==> u.reference in tools.Keys - left && u == PairOf(tools[u.reference])
      decreases |left|
    {
      var k :| k in left;
      left := left - {k};
      refs := refs + [PairOf(tools[k])];
    }
  }

  /** The middle of doInit: collect, send the batches, resolve through resolvers that tell the truth, build. A
      batch goes out for exactly the ecosystems with a resolver and two references or more, whatever follows. */
  method MakeBaseline(ws: seq<WorkflowFile>, resolvers: set<string>, truth: UniqueRef -> Response, at: string)
    returns (r: Result<Lockfile, InitError>, batches: seq<string>)
    ensures Distinct(batches) && forall e :: e in batches <==> e in resolvers && |AskedIn(ws, e)| >= 2
    ensures r == Err(NoDependencies) <==> AllTools(ws) == []
    ensures r.Ok? ==> r.value == LockfileOf(ws, ResolutionsOf(ws, truth), at)
    ensures r.Err? && r != Err(NoDependencies) ==>
              exists t :: t in AllTools(ws) && t.ecosystem !in resolvers &&
                          r == Err(Unresolvable(NoResolver(t.ecosystem)))
  {
    var tools := CollectUniqueTools(ws);
    CollectedTools(ws, tools);
    if |tools| == 0 {
      assert AllTools(ws) == [];
      assert forall e :: AskedIn(ws, e) == {};
      return Err(NoDependencies), [];
    }
    var refs := PairsOf(tools);
    batches := Prefetch.ChooseBatches(refs, resolvers);
    BatchesAre(ws, tools, refs, resolvers, batches);
    var resolved := ResolveTools(tools, resolvers, ResolverOf(truth));
    if resolved.Err? {
      ghost var k :| k in tools && LeastFailure(tools, k, resolvers, ResolverOf(truth), resolved.error);
      assert tools[k] in AllTools(ws);
      return Err(Unresolvable(resolved.error)), batches;
    }
    ResolvedToolsAre(ws, tools, resolved.value, truth);
    var lf := BuildLockfile(ws, resolved.value, at);
    return Ok(lf), batches;
  }

  lemma BatchesAre(ws: seq<WorkflowFile>, tools: map<string, ToolRef>, refs: seq<UniqueRef>, resolvers: set<string>,
                   batches: seq<string>)
    requires FirstTools(AllTools(ws), tools)
    requires forall u :: u in refs <==> u.reference in tools && u == PairOf(tools[u.reference])
    requires (set e | e in batches) == Batchable(Config(refs, resolvers))
    ensures forall e :: e in batches <==> e in resolvers && |AskedIn(ws, e)| >= 2
  {
    forall e ensures e in batches <==> e in resolvers && |AskedIn(ws, e)| >= 2 {
      AskedAreCollected(ws, tools, refs, e);
      assert e in batches <==> e in (set x | x in batches);
      BatchableExactly(Config(refs, resolvers), e);
    }
  }

  lemma BatchableExactly(c: Config, e: string)
    ensures e in Batchable(c) <==> e in c.resolvers && |References(c.refs, e)| >= 2
  {
    if |References(c.refs, e)| >= 2 {
      var u :| u in References(c.refs, e);
      assert u in c.refs && u.ecosystem == e;
    }
  }
}
