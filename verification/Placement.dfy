/** What buildLockfile writes, told in the fields of the built lockfile: the files and steps that were declared, and
    in each step its own tools and secrets, in source order. */
module Placement {
  import opened Wrappers
  import opened Platform
  import opened Manifest
  import opened Parser
  import opened Grouping
  import opened Init

  /** The entry that records a tool with its resolution. */
  ghost predicate Records(e: ToolEntry, t: ToolRef, res: Resolution) {
    && e.ecosystem == t.ecosystem && e.reference == t.reference
    && e.hash == res.hash && e.algorithm == res.algorithm && e.source == res.source
  }

  /** The entries of the resolved tools of one step, in source order. */
  function ToolsAt(tools: seq<ToolRef>, resolved: map<string, Resolution>, job: string, step: string): seq<ToolEntry> {
    if tools == [] then []
    else
      var t, before := tools[|tools| - 1], ToolsAt(tools[..|tools| - 1], resolved, job, step);
      if t.reference in resolved && t.jobName == job && t.stepName == step then
        var res := resolved[t.reference];
        before + [ToolEntry(t.ecosystem, t.reference, res.hash, res.algorithm, res.source)]
      else before
  }

  function SecretsAt(secrets: seq<SecretRef>, job: string, step: string): seq<SecretEntry> {
    if secrets == [] then []
    else
      var s, before := secrets[|secrets| - 1], SecretsAt(secrets[..|secrets| - 1], job, step);
      if s.jobName == job && s.stepName == step then before + [SecretEntry(s.name, s.source)] else before
  }

  /** No resolved tool of another step has a job and a name that join to the same key. */
  ghost predicate NoForeignTool(tools: seq<ToolRef>, resolved: map<string, Resolution>, job: string, step: string) {
    forall t :: t in tools && t.reference in resolved && t.jobName + ":" + t.stepName == job + ":" + step ==>
      t.jobName == job && t.stepName == step
  }

  ghost predicate NoForeignSecret(secrets: seq<SecretRef>, job: string, step: string) {
    forall s :: s in secrets && s.jobName + ":" + s.stepName == job + ":" + step ==>
      s.jobName == job && s.stepName == step
  }

  // ---------------------------------------------------------------- the frame: files and steps

  /** Step i of pipeline p. */
  function StepAt(lf: Lockfile, p: nat, i: nat): StepEntry
    requires p < |lf.pipelines.All()| && i < |lf.pipelines.All()[p].steps.All()|
  {
    lf.pipelines.All()[p].steps.All()[i]
  }

  /** What was never appended to is nil, not empty. */
  predicate NilIfEmpty<T(==)>(s: Slice<T>) { s.Nil? <==> s.All() == [] }

  /** The built lockfile is of version 1 and unsigned, with one pipeline for every file, of its path and kind, and in
      it one step for every step of the file, with its name, job and order. */
  ghost predicate Frames(lf: Lockfile, ws: seq<WorkflowFile>, at: string) {
    && lf.version == 1 && lf.generatedAt == at && lf.signature == None
    && |lf.pipelines.All()| == |ws| && NilIfEmpty(lf.pipelines)
    && forall p :: 0 <= p < |ws| ==>
         var built := lf.pipelines.All()[p];
         && built.path == ws[p].path && built.kind == ws[p].kind && built.repo == ""
         && |built.steps.All()| == |ws[p].steps| && NilIfEmpty(built.steps)
         && forall i :: 0 <= i < |ws[p].steps| ==> FramesStep(built.steps.All()[i], ws[p].steps[i])
  }

  ghost predicate FramesStep(step: StepEntry, def: StepDef) {
    && step.name == def.name && step.job == def.job && step.order == def.order
    && NilIfEmpty(step.tools) && NilIfEmpty(step.secrets)
  }

  lemma BuiltFrame(ws: seq<WorkflowFile>, resolved: map<string, Resolution>, at: string)
    ensures Frames(LockfileOf(ws, resolved, at), ws, at)
  {
  }

  /** What stands in a step comes from the file's tools whose job and name join to the step's, and only they do;
      each is recorded with its own ecosystem and reference and the three fields of its resolution. */
  lemma StepHoldsExactly(ws: seq<WorkflowFile>, resolved: map<string, Resolution>, at: string, p: nat, i: nat,
                         e: ToolEntry)
    requires p < |ws| && i < |ws[p].steps|
    ensures Frames(LockfileOf(ws, resolved, at), ws, at)
    ensures var step := StepAt(LockfileOf(ws, resolved, at), p, i);
            e in step.tools.All() <==>
            exists t :: t in ws[p].tools && t.reference in resolved && Records(e, t, resolved[t.reference]) &&
                        t.jobName + ":" + t.stepName == step.job + ":" + step.name
  {
    BuiltFrame(ws, resolved, at);
    var def, items := ws[p].steps[i], KeyedTools(ws[p].tools, resolved);
    UnderMembers(items, StepKey(def.job, def.name), e);
    forall k ensures k in items <==>
      exists t :: t in ws[p].tools && t.reference in resolved &&
                  k == Keyed(StepKey(t.jobName, t.stepName), EntryOf(t, resolved[t.reference]))
    {
      KeyedMembers(ws[p].tools, resolved, k);
    }
    if j :| 0 <= j < |items| && items[j].key == StepKey(def.job, def.name) && items[j].item == e {
      assert items[j] in items;
    }
    if t :| t in ws[p].tools && t.reference in resolved && Records(e, t, resolved[t.reference]) &&
            t.jobName + ":" + t.stepName == def.job + ":" + def.name {
      assert Keyed(StepKey(t.jobName, t.stepName), EntryOf(t, resolved[t.reference])) in items;
    }
  }

  /** The same for secrets. */
  lemma StepHoldsSecretsExactly(ws: seq<WorkflowFile>, resolved: map<string, Resolution>, at: string, p: nat, i: nat,
                                e: SecretEntry)
    requires p < |ws| && i < |ws[p].steps|
    ensures Frames(LockfileOf(ws, resolved, at), ws, at)
    ensures var step := StepAt(LockfileOf(ws, resolved, at), p, i);
            e in step.secrets.All() <==>
            exists s :: s in ws[p].secrets && e.name == s.name && e.source == s.source &&
                        s.jobName + ":" + s.stepName == step.job + ":" + step.name
  {
    BuiltFrame(ws, resolved, at);
    var def, items := ws[p].steps[i], KeyedSecrets(ws[p].secrets);
    UnderMembers(items, StepKey(def.job, def.name), e);
    forall k ensures k in items <==>
      exists s :: s in ws[p].secrets && k == Keyed(StepKey(s.jobName, s.stepName), SecretEntry(s.name, s.source))
    {
      KeyedSecretMembers(ws[p].secrets, k);
    }
    if j :| 0 <= j < |items| && items[j].key == StepKey(def.job, def.name) && items[j].item == e {
      assert items[j] in items;
    }
    if s :| s in ws[p].secrets && e.name == s.name && e.source == s.source &&
            s.jobName + ":" + s.stepName == def.job + ":" + def.name {
      assert Keyed(StepKey(s.jobName, s.stepName), SecretEntry(s.name, s.source)) in items;
    }
  }

  // ---------------------------------------------------------------- and in each step its own tools, in order

  lemma {:induction false} OwnToolsExactly(tools: seq<ToolRef>, resolved: map<string, Resolution>, job: string,
                                           step: string)
    ensures |Under(KeyedTools(tools, resolved), StepKey(job, step))| >= |ToolsAt(tools, resolved, job, step)|
    ensures Under(KeyedTools(tools, resolved), StepKey(job, step)) == ToolsAt(tools, resolved, job, step) <==>
            NoForeignTool(tools, resolved, job, step)
    ensures |Under(KeyedTools(tools, resolved), StepKey(job, step))| == |ToolsAt(tools, resolved, job, step)| ==>
            NoForeignTool(tools, resolved, job, step)
  {
    if tools != [] {
      var n := |tools| - 1;
      var t, items := tools[n], KeyedTools(tools[..n], resolved);
      OwnToolsExactly(tools[..n], resolved, job, step);
      assert forall x :: x in tools <==> x in tools[..n] || x == t;
      if t.reference in resolved {
        UnderOneMore(items, Keyed(StepKey(t.jobName, t.stepName), EntryOf(t, resolved[t.reference])),
          StepKey(job, step));
      } else {
        assert KeyedTools(tools, resolved) == items;
      }
    }
  }

  lemma {:induction false} OwnSecretsExactly(secrets: seq<SecretRef>, job: string, step: string)
    ensures |Under(KeyedSecrets(secrets), StepKey(job, step))| >= |SecretsAt(secrets, job, step)|
    ensures Under(KeyedSecrets(secrets), StepKey(job, step)) == SecretsAt(secrets, job, step) <==>
            NoForeignSecret(secrets, job, step)
    ensures |Under(KeyedSecrets(secrets), StepKey(job, step))| == |SecretsAt(secrets, job, step)| ==>
            NoForeignSecret(secrets, job, step)
  {
    if secrets != [] {
      var n := |secrets| - 1;
      var s := secrets[n];
      OwnSecretsExactly(secrets[..n], job, step);
      assert forall x :: x in secrets <==> x in secrets[..n] || x == s;
      UnderOneMore(KeyedSecrets(secrets[..n]), Keyed(StepKey(s.jobName, s.stepName), SecretEntry(s.name, s.source)),
                   StepKey(job, step));
    }
  }

  /** A step of the built lockfile holds exactly its own tools, in source order, exactly if no tool of another step
      shares its key. */
  lemma StepHoldsOwnToolsExactly(ws: seq<WorkflowFile>, resolved: map<string, Resolution>, at: string, p: nat, i: nat)
    requires p < |ws| && i < |ws[p].steps|
    ensures Frames(LockfileOf(ws, resolved, at), ws, at)
    ensures var step := StepAt(LockfileOf(ws, resolved, at), p, i);
            step.tools.All() == ToolsAt(ws[p].tools, resolved, step.job, step.name) <==>
            NoForeignTool(ws[p].tools, resolved, step.job, step.name)
  {
    BuiltFrame(ws, resolved, at);
    OwnToolsExactly(ws[p].tools, resolved, ws[p].steps[i].job, ws[p].steps[i].name);
  }

  /** The same for secrets. */
  lemma StepHoldsOwnSecretsExactly(ws: seq<WorkflowFile>, resolved: map<string, Resolution>, at: string, p: nat, i: nat)
    requires p < |ws| && i < |ws[p].steps|
    ensures Frames(LockfileOf(ws, resolved, at), ws, at)
    ensures var step := StepAt(LockfileOf(ws, resolved, at), p, i);
            step.secrets.All() == SecretsAt(ws[p].secrets, step.job, step.name) <==>
            NoForeignSecret(ws[p].secrets, step.job, step.name)
  {
    BuiltFrame(ws, resolved, at);
    OwnSecretsExactly(ws[p].secrets, ws[p].steps[i].job, ws[p].steps[i].name);
  }

  lemma {:induction false} OnlyPlace(keys: seq<string>, i: nat, j: nat)
    requires i < j < |keys| && keys[i] == keys[j]
    ensures Times(keys, keys[i]) >= 2
  {
    var front := keys[..|keys| - 1];
    if j < |keys| - 1 {
      OnlyPlace(front, i, j);
    } else {
      Somewhere(front, i);
    }
  }

  lemma {:induction false} Somewhere(keys: seq<string>, i: nat)
    requires i < |keys|
    ensures Times(keys, keys[i]) >= 1
  {
    if i < |keys| - 1 {
      Somewhere(keys[..|keys| - 1], i);
    }
  }

  /** A step listed for another job or name would be a second one with the same key. */
  lemma SameStep(steps: seq<StepDef>, i: nat, j: nat)
    requires i < |steps| && j < |steps| && StepKey(steps[i].job, steps[i].name) == StepKey(steps[j].job, steps[j].name)
    requires Times(KeysOf(steps), StepKey(steps[i].job, steps[i].name)) == 1
    ensures i == j
  {
    if i < j {
      OnlyPlace(KeysOf(steps), i, j);
    } else if j < i {
      OnlyPlace(KeysOf(steps), j, i);
    }
  }

  /** Grouping puts every resolved tool into its own step, in source order, when each tool's step is listed and
      each used key names one step. */
  lemma EveryToolInItsStep(ws: seq<WorkflowFile>, resolved: map<string, Resolution>, at: string, p: nat, i: nat)
    requires p < |ws| && i < |ws[p].steps| && StepsCover(ws[p])
    requires ListedOnce(KeysOf(ws[p].steps), KeyedTools(ws[p].tools, resolved))
    ensures Frames(LockfileOf(ws, resolved, at), ws, at)
    ensures var step := StepAt(LockfileOf(ws, resolved, at), p, i);
            step.tools.All() == ToolsAt(ws[p].tools, resolved, step.job, step.name)
  {
    NoToolIsForeign(ws[p], resolved, i);
    StepHoldsOwnToolsExactly(ws, resolved, at, p, i);
  }

  lemma NoToolIsForeign(wf: WorkflowFile, resolved: map<string, Resolution>, i: nat)
    requires StepsCover(wf) && ListedOnce(KeysOf(wf.steps), KeyedTools(wf.tools, resolved)) && i < |wf.steps|
    ensures NoForeignTool(wf.tools, resolved, wf.steps[i].job, wf.steps[i].name)
  {
    var step, items := wf.steps[i], KeyedTools(wf.tools, resolved);
    forall t | t in wf.tools && t.reference in resolved &&
               StepKey(t.jobName, t.stepName) == StepKey(step.job, step.name)
      ensures t.jobName == step.job && t.stepName == step.name
    {
      var s :| s in wf.steps && s.job == t.jobName && s.name == t.stepName;
      var j :| 0 <= j < |wf.steps| && wf.steps[j] == s;
      var k := Keyed(StepKey(t.jobName, t.stepName), EntryOf(t, resolved[t.reference]));
      KeyedMembers(wf.tools, resolved, k);
      var q :| 0 <= q < |items| && items[q] == k;
      SameStep(wf.steps, i, j);
    }
  }

  /** The same for secrets. */
  lemma EverySecretInItsStep(ws: seq<WorkflowFile>, resolved: map<string, Resolution>, at: string, p: nat, i: nat)
    requires p < |ws| && i < |ws[p].steps| && StepsCoverSecrets(ws[p])
    requires ListedOnce(KeysOf(ws[p].steps), KeyedSecrets(ws[p].secrets))
    ensures Frames(LockfileOf(ws, resolved, at), ws, at)
    ensures var step := StepAt(LockfileOf(ws, resolved, at), p, i);
            step.secrets.All() == SecretsAt(ws[p].secrets, step.job, step.name)
  {
    NoSecretIsForeign(ws[p], i);
    StepHoldsOwnSecretsExactly(ws, resolved, at, p, i);
  }

  lemma NoSecretIsForeign(wf: WorkflowFile, i: nat)
    requires StepsCoverSecrets(wf) && ListedOnce(KeysOf(wf.steps), KeyedSecrets(wf.secrets)) && i < |wf.steps|
    ensures NoForeignSecret(wf.secrets, wf.steps[i].job, wf.steps[i].name)
  {
    var step, items := wf.steps[i], KeyedSecrets(wf.secrets);
    forall r | r in wf.secrets && StepKey(r.jobName, r.stepName) == StepKey(step.job, step.name)
      ensures r.jobName == step.job && r.stepName == step.name
    {
      var s :| s in wf.steps && s.job == r.jobName && s.name == r.stepName;
      var j :| 0 <= j < |wf.steps| && wf.steps[j] == s;
      var k := Keyed(StepKey(r.jobName, r.stepName), SecretEntry(r.name, r.source));
      KeyedSecretMembers(wf.secrets, k);
      var q :| 0 <= q < |items| && items[q] == k;
      SameStep(wf.steps, i, j);
    }
  }
}
