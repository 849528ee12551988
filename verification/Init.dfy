/** Building the baseline: distinct tools, their resolutions, and the lockfile grouped by step. */
module Init {
  import opened Wrappers
  import opened Platform
  import opened Manifest
  import opened Parser
  import opened Sorting
  import opened Grouping

  // ---------------------------------------------------------------- distinct tools

  /** All tools of the first n workflows, in order. */
  function ToolsOf(ws: seq<WorkflowFile>, n: nat): seq<ToolRef>
    requires n <= |ws|
  {
    if n == 0 then [] else ToolsOf(ws, n - 1) + ws[n - 1].tools
  }

  function AllTools(ws: seq<WorkflowFile>): seq<ToolRef> { ToolsOf(ws, |ws|) }

  /** The first tool with the reference. */
  function FirstWith(tools: seq<ToolRef>, reference: string): Option<ToolRef> {
    if tools == [] then None
    else
      var n := |tools| - 1;
      match FirstWith(tools[..n], reference)
      case Some(t) => Some(t)
      case None => if tools[n].reference == reference then Some(tools[n]) else None
  }

  /** A map from references to the first tool that carries each. */
  ghost predicate FirstTools(tools: seq<ToolRef>, m: map<string, ToolRef>) {
    forall r :: (r in m <==> FirstWith(tools, r).Some?) && (r in m ==> FirstWith(tools, r) == Some(m[r]))
  }

  lemma {:induction false} FirstWithFacts(tools: seq<ToolRef>, r: string)
    ensures FirstWith(tools, r).Some? <==> exists t :: t in tools && t.reference == r
    ensures FirstWith(tools, r).Some? ==> FirstWith(tools, r).value in tools && FirstWith(tools, r).value.reference == r
  {
    if tools != [] {
      var n := |tools| - 1;
      FirstWithFacts(tools[..n], r);
      assert forall t :: t in tools <==> t in tools[..n] || t == tools[n];
    }
  }

  /** A tool at a position before which nothing carries its reference. */
  ghost predicate ComesFirst(tools: seq<ToolRef>, t: ToolRef) {
    exists i :: 0 <= i < |tools| && tools[i] == t && forall j :: 0 <= j < i ==> tools[j].reference != t.reference
  }

  lemma {:induction false} FirstWithComesFirst(tools: seq<ToolRef>, r: string)
    ensures FirstWith(tools, r).Some? ==>
              FirstWith(tools, r).value.reference == r && ComesFirst(tools, FirstWith(tools, r).value)
  {
    if tools != [] {
      var n := |tools| - 1;
      FirstWithComesFirst(tools[..n], r);
      FirstWithFacts(tools[..n], r);
      if FirstWith(tools[..n], r).Some? {
        var t := FirstWith(tools[..n], r).value;
        var i :| 0 <= i < n && tools[..n][i] == t && forall j :: 0 <= j < i ==> tools[..n][j].reference != t.reference;
        assert tools[i] == t && forall j :: 0 <= j < i ==> tools[j] == tools[..n][j];
      } else if tools[n].reference == r {
        assert forall j :: 0 <= j < n ==> tools[j] in tools[..n];
      }
    }
  }

  /** collectUniqueTools: under every reference of a tool the first tool that carries it. */
  method CollectUniqueTools(ws: seq<WorkflowFile>) returns (tools: map<string, ToolRef>)
    ensures FirstTools(AllTools(ws), tools)
    ensures forall r :: r in tools <==> exists t :: t in AllTools(ws) && t.reference == r
    ensures forall r :: r in tools ==> tools[r].reference == r && ComesFirst(AllTools(ws), tools[r])
  {
    tools := map[];
    for i := 0 to |ws|
      invariant FirstTools(ToolsOf(ws, i), tools)
    {
      ghost var before := ToolsOf(ws, i);
      assert before + ws[i].tools[..0] == before;
      for j := 0 to |ws[i].tools|
        invariant FirstTools(before + ws[i].tools[..j], tools)
      {
        var t := ws[i].tools[j];
        ghost var seen := before + ws[i].tools[..j];
        assert before + ws[i].tools[..j + 1] == seen + [t];
        assert (seen + [t])[..|seen|] == seen;
        if t.reference !in tools {
          tools := tools[t.reference := t];
        }
      }
      assert ws[i].tools[..|ws[i].tools|] == ws[i].tools;
    }
    forall r
      ensures r in tools <==> exists t :: t in AllTools(ws) && t.reference == r
      ensures r in tools ==> tools[r].reference == r && ComesFirst(AllTools(ws), tools[r])
    {
      FirstWithFacts(AllTools(ws), r);
      FirstWithComesFirst(AllTools(ws), r);
    }
  }

  // ---------------------------------------------------------------- resolutions

  type Resolver = UniqueRef -> Result<Resolution, ClientError>

  predicate Failing(t: ToolRef, resolvers: set<string>, resolve: Resolver) {
    t.ecosystem !in resolvers || resolve(PairOf(t)).Err?
  }

  ghost predicate LeastFailure(tools: map<string, ToolRef>, k: string, resolvers: set<string>, resolve: Resolver,
                               e: Failure)
    requires k in tools
  {
    && Failing(tools[k], resolvers, resolve)
    && e == (if tools[k].ecosystem !in resolvers then NoResolver(tools[k].ecosystem)
             else Client(resolve(PairOf(tools[k])).error))
    && forall j :: j in tools && StrLess(j, k) ==> !Failing(tools[j], resolvers, resolve)
  }

  /** resolveTools goes through the references in sorted order: either all resolve, or the error is that of
      the least failing reference. */
  method ResolveTools(tools: map<string, ToolRef>, resolvers: set<string>, resolve: Resolver)
    returns (r: Result<map<string, Resolution>, Failure>)
    requires forall k :: k in tools ==> tools[k].reference == k
    ensures r.Ok? ==>
              && r.value.Keys == tools.Keys
              && forall k :: k in tools ==>
                   !Failing(tools[k], resolvers, resolve) && Ok(r.value[k]) == resolve(PairOf(tools[k]))
    ensures r.Err? ==> exists k :: k in tools && LeastFailure(tools, k, resolvers, resolve, r.error)
  {
    var refs := SortedKeys(tools.Keys);
    var resolved: map<string, Resolution> := map[];
    for i := 0 to |refs|
      invariant resolved.Keys == set k | k in refs[..i]
      invariant forall k :: k in refs[..i] ==> !Failing(tools[k], resolvers, resolve) &&
                                                  Ok(resolved[k]) == resolve(PairOf(tools[k]))
    {
      var ref := refs[i];
      var tool := tools[ref];
      if tool.ecosystem !in resolvers || resolve(PairOf(tool)).Err? {
        forall j | j in tools && StrLess(j, ref) ensures !Failing(tools[j], resolvers, resolve) {
          EarlierInOrder(refs, i, j);
        }
        return Err(if tool.ecosystem !in resolvers then NoResolver(tool.ecosystem)
                   else Client(resolve(PairOf(tool)).error));
      }
      resolved := resolved[ref := resolve(PairOf(tool)).value];
      assert refs[..i + 1] == refs[..i] + [ref];
    }
    assert refs[..|refs|] == refs;
    return Ok(resolved);
  }

  function SelfKey(s: string): Key { [s] }

  lemma OneMoreKey(found: seq<string>, k: string)
    requires DistinctKeys(SelfKey, found) && k !in found
    ensures DistinctKeys(SelfKey, found + [k])
  {
  }

  /** The keys of a map, taken in any order, then sorted. */
  method SortedKeys(keys: set<string>) returns (refs: seq<string>)
    ensures StrictlySorted(SelfKey, refs) && forall k :: k in refs <==> k in keys
  {
    var found: seq<string> := [];
    var left := keys;
    while left != {}
      invariant left <= keys && DistinctKeys(SelfKey, found)
      invariant forall k :: k in found <==> k in keys - left
      decreases |left|
    {
      var k :| k in left;
      left := left - {k};
      OneMoreKey(found, k);
      found := found + [k];
    }
    refs := Sort(SelfKey, found);
    SortDistinct(SelfKey, found);
    assert forall k :: k in refs <==> k in Members(refs);
  }

  lemma EarlierInOrder(refs: seq<string>, i: nat, j: string)
    requires StrictlySorted(SelfKey, refs) && i < |refs| && j in refs && StrLess(j, refs[i])
    ensures j in refs[..i]
  {
    var p :| 0 <= p < |refs| && refs[p] == j;
    StrTotal(j, refs[i]);
    assert p > i ==> KeyLess(SelfKey(refs[i]), SelfKey(refs[p]));
    assert SelfKey(refs[i])[0] == refs[i] && SelfKey(refs[p])[0] == j;
    assert p < i;
    assert refs[..i][p] == j;
  }

  // ---------------------------------------------------------------- the lockfile

  function StepKey(job: string, step: string): string { job + ":" + step }

  function EntryOf(t: ToolRef, res: Resolution): ToolEntry {
    ToolEntry(t.ecosystem, t.reference, res.hash, res.algorithm, res.source)
  }

  /** The resolved tools with their step keys, in source order. */
  function KeyedTools(tools: seq<ToolRef>, resolved: map<string, Resolution>): seq<Keyed<ToolEntry>> {
    if tools == [] then []
    else
      var n := |tools| - 1;
      var t := tools[n];
      KeyedTools(tools[..n], resolved) +
      if t.reference in resolved then [Keyed(StepKey(t.jobName, t.stepName), EntryOf(t, resolved[t.reference]))] else []
  }

  lemma {:induction false} KeyedMembers(tools: seq<ToolRef>, resolved: map<string, Resolution>, k: Keyed<ToolEntry>)
    ensures k in KeyedTools(tools, resolved) <==>
            exists t :: t in tools && t.reference in resolved &&
                        k == Keyed(StepKey(t.jobName, t.stepName), EntryOf(t, resolved[t.reference]))
  {
    if tools != [] {
      var n := |tools| - 1;
      KeyedMembers(tools[..n], resolved, k);
      assert forall t :: t in tools <==> t in tools[..n] || t == tools[n];
    }
  }

  function KeyedSecrets(secrets: seq<SecretRef>): seq<Keyed<SecretEntry>> {
    if secrets == [] then []
    else
      var n := |secrets| - 1;
      var s := secrets[n];
      KeyedSecrets(secrets[..n]) + [Keyed(StepKey(s.jobName, s.stepName), SecretEntry(s.name, s.source))]
  }

  lemma {:induction false} KeyedSecretMembers(secrets: seq<SecretRef>, k: Keyed<SecretEntry>)
    ensures k in KeyedSecrets(secrets) <==>
            exists s :: s in secrets && k == Keyed(StepKey(s.jobName, s.stepName), SecretEntry(s.name, s.source))
  {
    if secrets != [] {
      var n := |secrets| - 1;
      KeyedSecretMembers(secrets[..n], k);
      assert forall s :: s in secrets <==> s in secrets[..n] || s == secrets[n];
    }
  }

  function KeysOf(steps: seq<StepDef>): seq<string> {
    seq(|steps|, i requires 0 <= i < |steps| => StepKey(steps[i].job, steps[i].name))
  }

  /** A slice built by appending stays nil until the first append. */
  function Appended<T>(items: seq<T>): Slice<T> { if items == [] then Nil else Of(items) }

  function StepWith(tools: seq<Keyed<ToolEntry>>, secrets: seq<Keyed<SecretEntry>>, step: StepDef): StepEntry {
    var key := StepKey(step.job, step.name);
    StepEntry(step.name, step.job, step.order, Appended(Under(tools, key)), Appended(Under(secrets, key)))
  }

  function StepsWith(defs: seq<StepDef>, tools: seq<Keyed<ToolEntry>>,
                     secrets: seq<Keyed<SecretEntry>>): seq<StepEntry> {
    seq(|defs|, i requires 0 <= i < |defs| => StepWith(tools, secrets, defs[i]))
  }

  function StepsOf(wf: WorkflowFile, resolved: map<string, Resolution>): seq<StepEntry> {
    StepsWith(wf.steps, KeyedTools(wf.tools, resolved), KeyedSecrets(wf.secrets))
  }

  function PipelineOf(wf: WorkflowFile, resolved: map<string, Resolution>): PipelineEntry {
    PipelineEntry(wf.path, wf.kind, "", Appended(StepsOf(wf, resolved)))
  }

  function LockfileOf(ws: seq<WorkflowFile>, resolved: map<string, Resolution>, at: string): Lockfile {
    Lockfile(CURRENT_VERSION, at, Appended(seq(|ws|, i requires 0 <= i < |ws| => PipelineOf(ws[i], resolved))), None)
  }

  /** A map of append-built groups: absent keys read as nil. */
  ghost predicate GroupsOf<T>(m: map<string, seq<T>>, items: seq<Keyed<T>>) {
    forall k :: (if k in m then m[k] else []) == Under(items, k)
  }

  lemma GroupsAppend<T>(m: map<string, seq<T>>, items: seq<Keyed<T>>, k: Keyed<T>)
    requires GroupsOf(m, items)
    ensures GroupsOf(m[k.key := (if k.key in m then m[k.key] else []) + [k.item]], items + [k])
  {
    assert (items + [k])[..|items|] == items;
  }

  lemma OneMoreTool(tools: seq<ToolRef>, resolved: map<string, Resolution>, i: nat)
    requires i < |tools|
    ensures var t, front := tools[i], KeyedTools(tools[..i], resolved);
            KeyedTools(tools[..i + 1], resolved) ==
            if t.reference in resolved
            then front + [Keyed(StepKey(t.jobName, t.stepName), EntryOf(t, resolved[t.reference]))] else front
  {
    assert tools[..i + 1][..i] == tools[..i];
  }

  lemma OneMoreSecret(secrets: seq<SecretRef>, i: nat)
    requires i < |secrets|
    ensures var s := secrets[i];
            KeyedSecrets(secrets[..i + 1]) ==
            KeyedSecrets(secrets[..i]) + [Keyed(StepKey(s.jobName, s.stepName), SecretEntry(s.name, s.source))]
  {
    assert secrets[..i + 1][..i] == secrets[..i];
  }

  method GroupTools(tools: seq<ToolRef>, resolved: map<string, Resolution>) returns (m: map<string, seq<ToolEntry>>)
    ensures GroupsOf(m, KeyedTools(tools, resolved))
  {
    m := map[];
    for i := 0 to |tools|
      invariant GroupsOf(m, KeyedTools(tools[..i], resolved))
    {
      var t := tools[i];
      OneMoreTool(tools, resolved, i);
      ghost var items := KeyedTools(tools[..i], resolved);
      if t.reference in resolved {
        var key := StepKey(t.jobName, t.stepName);
        GroupsAppend(m, items, Keyed(key, EntryOf(t, resolved[t.reference])));
        m := m[key := (if key in m then m[key] else []) + [EntryOf(t, resolved[t.reference])]];
      }
    }
    assert tools[..|tools|] == tools;
  }

  method GroupSecrets(secrets: seq<SecretRef>) returns (m: map<string, seq<SecretEntry>>)
    ensures GroupsOf(m, KeyedSecrets(secrets))
  {
    m := map[];
    for i := 0 to |secrets|
      invariant GroupsOf(m, KeyedSecrets(secrets[..i]))
    {
      var s := secrets[i];
      var key := StepKey(s.jobName, s.stepName);
      OneMoreSecret(secrets, i);
      GroupsAppend(m, KeyedSecrets(secrets[..i]), Keyed(key, SecretEntry(s.name, s.source)));
      m := m[key := (if key in m then m[key] else []) + [SecretEntry(s.name, s.source)]];
    }
    assert secrets[..|secrets|] == secrets;
  }

  /** The inner loop of buildLockfile: each step with what was grouped under its key. */
  method BuildSteps(defs: seq<StepDef>, toolsByStep: map<string, seq<ToolEntry>>,
                    secretsByStep: map<string, seq<SecretEntry>>, ghost tools: seq<Keyed<ToolEntry>>,
                    ghost secrets: seq<Keyed<SecretEntry>>) returns (steps: seq<StepEntry>)
    requires GroupsOf(toolsByStep, tools) && GroupsOf(secretsByStep, secrets)
    ensures steps == StepsWith(defs, tools, secrets)
  {
    steps := [];
    for j := 0 to |defs|
      invariant |steps| == j && forall k :: 0 <= k < j ==> steps[k] == StepWith(tools, secrets, defs[k])
    {
      var step := defs[j];
      var key := StepKey(step.job, step.name);
      steps := steps + [StepEntry(step.name, step.job, step.order,
                                  Appended(if key in toolsByStep then toolsByStep[key] else []),
                                  Appended(if key in secretsByStep then secretsByStep[key] else []))];
    }
  }

  /** buildLockfile. */
  method BuildLockfile(ws: seq<WorkflowFile>, resolved: map<string, Resolution>, at: string) returns (lf: Lockfile)
    ensures lf == LockfileOf(ws, resolved, at)
  {
    var pipelines: seq<PipelineEntry> := [];
    for i := 0 to |ws|
      invariant |pipelines| == i && forall k :: 0 <= k < i ==> pipelines[k] == PipelineOf(ws[k], resolved)
    {
      var secretsByStep := GroupSecrets(ws[i].secrets);
      var toolsByStep := GroupTools(ws[i].tools, resolved);
      ghost var tools, secrets := KeyedTools(ws[i].tools, resolved), KeyedSecrets(ws[i].secrets);
      var steps := BuildSteps(ws[i].steps, toolsByStep, secretsByStep, tools, secrets);
      assert PipelineOf(ws[i], resolved) == PipelineEntry(ws[i].path, ws[i].kind, "", Appended(steps)) by {
        assert steps == StepsOf(ws[i], resolved);
      }
      pipelines := pipelines + [PipelineEntry(ws[i].path, ws[i].kind, "", Appended(steps))];
    }
    assert pipelines == seq(|ws|, k requires 0 <= k < |ws| => PipelineOf(ws[k], resolved));
    lf := Lockfile(CURRENT_VERSION, at, Appended(pipelines), None);
  }

  // ---------------------------------------------------------------- conservation

  function StepSecrets(steps: seq<StepEntry>, n: nat): seq<SecretEntry>
    requires n <= |steps|
  {
    if n == 0 then [] else StepSecrets(steps, n - 1) + steps[n - 1].secrets.All()
  }

  lemma {:induction false} StepsPlace(defs: seq<StepDef>, tools: seq<Keyed<ToolEntry>>,
                                      secrets: seq<Keyed<SecretEntry>>, n: nat)
    requires n <= |defs|
    ensures StepTools(StepsWith(defs, tools, secrets), n) == Placed(KeysOf(defs)[..n], tools)
  {
    if n > 0 {
      StepsPlace(defs, tools, secrets, n - 1);
      var keys := KeysOf(defs);
      assert keys[..n][..n - 1] == keys[..n - 1];
      assert StepsWith(defs, tools, secrets)[n - 1].tools.All() == Under(tools, keys[n - 1]);
    }
  }

  lemma {:induction false} StepsPlaceSecrets(defs: seq<StepDef>, tools: seq<Keyed<ToolEntry>>,
                                             secrets: seq<Keyed<SecretEntry>>, n: nat)
    requires n <= |defs|
    ensures StepSecrets(StepsWith(defs, tools, secrets), n) == Placed(KeysOf(defs)[..n], secrets)
  {
    if n > 0 {
      StepsPlaceSecrets(defs, tools, secrets, n - 1);
      var keys := KeysOf(defs);
      assert keys[..n][..n - 1] == keys[..n - 1];
      assert StepsWith(defs, tools, secrets)[n - 1].secrets.All() == Under(secrets, keys[n - 1]);
    }
  }

  /** The tool entries of one pipeline are the resolved tools placed by step key. */
  function PipelineEntries(p: PipelineEntry): seq<ToolEntry> { StepTools(p.steps.All(), |p.steps.All()|) }

  lemma PipelinePlaces(wf: WorkflowFile, resolved: map<string, Resolution>)
    ensures PipelineEntries(PipelineOf(wf, resolved)) == Placed(KeysOf(wf.steps), KeyedTools(wf.tools, resolved))
  {
    StepsPlace(wf.steps, KeyedTools(wf.tools, resolved), KeyedSecrets(wf.secrets), |wf.steps|);
    assert KeysOf(wf.steps)[..|wf.steps|] == KeysOf(wf.steps);
  }

  /** Grouping conserves tools. With every tool's step listed, the pipeline has as many entries as resolved
      tools exactly when every such tool's key names one step only; then it holds exactly those entries. */
  lemma GroupingConservesTools(wf: WorkflowFile, resolved: map<string, Resolution>)
    requires Listed(KeysOf(wf.steps), KeyedTools(wf.tools, resolved))
    ensures |PipelineEntries(PipelineOf(wf, resolved))| == |KeyedTools(wf.tools, resolved)| <==>
            ListedOnce(KeysOf(wf.steps), KeyedTools(wf.tools, resolved))
    ensures ListedOnce(KeysOf(wf.steps), KeyedTools(wf.tools, resolved)) ==>
            multiset(PipelineEntries(PipelineOf(wf, resolved))) == multiset(ItemsOf(KeyedTools(wf.tools, resolved)))
  {
    PipelinePlaces(wf, resolved);
    PlacedCount(KeysOf(wf.steps), KeyedTools(wf.tools, resolved));
    if ListedOnce(KeysOf(wf.steps), KeyedTools(wf.tools, resolved)) {
      PlacedConserves(KeysOf(wf.steps), KeyedTools(wf.tools, resolved));
    }
  }

  /** Two different steps can share a key, and each then holds the tools of both. */
  lemma CollidingKeysDuplicate(t: ToolRef, res: Resolution)
    requires t.jobName == "a" && t.stepName == "b:c"
    ensures var steps := [StepDef("b:c", "a", 0), StepDef("c", "a:b", 1)];
            var wf := WorkflowFile("p", "github_actions", [t], [], steps, []);
            PipelineEntries(PipelineOf(wf, map[t.reference := res])) == [EntryOf(t, res), EntryOf(t, res)]
  {
    var wf := WorkflowFile("p", "github_actions", [t], [], [StepDef("b:c", "a", 0), StepDef("c", "a:b", 1)], []);
    var resolved := map[t.reference := res];
    var keys, items := KeysOf(wf.steps), KeyedTools(wf.tools, resolved);
    PipelinePlaces(wf, resolved);
    assert wf.tools[..0] == [] && KeyedTools([], resolved) == [];
    assert StepKey("a", "b:c") == "a:b:c" == StepKey("a:b", "c");
    assert items == [Keyed("a:b:c", EntryOf(t, res))];
    assert keys == ["a:b:c", "a:b:c"];
    PlacedTwice("a:b:c", EntryOf(t, res));
  }

  lemma PlacedTwice<T>(key: string, x: T)
    ensures Placed([key, key], [Keyed(key, x)]) == [x, x]
  {
    var keys, items := [key, key], [Keyed(key, x)];
    assert items[..0] == [] && Under(items, key) == Under([], key) + [x] == [x];
    assert keys[..1] == [key] && keys[..1][..0] == [];
    assert Placed([key], items) == Placed([], items) + Under(items, key);
    assert Placed(keys, items) == Placed(keys[..1], items) + Under(items, key);
  }

  /** Secrets are conserved likewise. */
  lemma GroupingConservesSecrets(wf: WorkflowFile, resolved: map<string, Resolution>)
    requires Listed(KeysOf(wf.steps), KeyedSecrets(wf.secrets))
    ensures var steps := PipelineOf(wf, resolved).steps.All();
            |StepSecrets(steps, |steps|)| == |wf.secrets| <==> ListedOnce(KeysOf(wf.steps), KeyedSecrets(wf.secrets))
    ensures ListedOnce(KeysOf(wf.steps), KeyedSecrets(wf.secrets)) ==>
            var steps := PipelineOf(wf, resolved).steps.All();
            multiset(StepSecrets(steps, |steps|)) == multiset(ItemsOf(KeyedSecrets(wf.secrets)))
  {
    SecretsPlaced(wf, resolved);
    SecretsCount(wf.secrets);
    PlacedCount(KeysOf(wf.steps), KeyedSecrets(wf.secrets));
    if ListedOnce(KeysOf(wf.steps), KeyedSecrets(wf.secrets)) {
      PlacedConserves(KeysOf(wf.steps), KeyedSecrets(wf.secrets));
    }
  }

  lemma SecretsPlaced(wf: WorkflowFile, resolved: map<string, Resolution>)
    ensures var steps := PipelineOf(wf, resolved).steps.All();
            StepSecrets(steps, |steps|) == Placed(KeysOf(wf.steps), KeyedSecrets(wf.secrets))
  {
    StepsPlaceSecrets(wf.steps, KeyedTools(wf.tools, resolved), KeyedSecrets(wf.secrets), |wf.steps|);
    assert KeysOf(wf.steps)[..|wf.steps|] == KeysOf(wf.steps);
  }

  lemma {:induction false} SecretsCount(secrets: seq<SecretRef>)
    ensures |KeyedSecrets(secrets)| == |secrets|
  {
    if secrets != [] {
      SecretsCount(secrets[..|secrets| - 1]);
    }
  }
}
