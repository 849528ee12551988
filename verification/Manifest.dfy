/** The scg.lock data model, with nil and empty slices kept apart as Go keeps them. */
module Manifest {
  import opened Wrappers
  import opened Platform

  datatype Slice<+T> = Nil | Of(items: seq<T>) {
    function All(): seq<T> { if Nil? then [] else items }
  }

  datatype ToolEntry = ToolEntry(ecosystem: string, reference: string, hash: string, algorithm: string, source: string)

  datatype SecretEntry = SecretEntry(name: string, source: string)

  datatype StepEntry = StepEntry(name: string, job: string, order: GoInt, tools: Slice<ToolEntry>,
                                 secrets: Slice<SecretEntry>)

  datatype PipelineEntry = PipelineEntry(path: string, kind: string, repo: string, steps: Slice<StepEntry>)

  datatype Signature = Signature(algorithm: string, value: string, publicKey: string, issuer: string, subject: string)

  datatype Lockfile = Lockfile(version: GoInt, generatedAt: string, pipelines: Slice<PipelineEntry>,
                               signature: Option<Signature>)

  const CURRENT_VERSION := 1

  function RefOf(t: ToolEntry): UniqueRef { UniqueRef(t.ecosystem, t.reference) }

  /** The tools of the first n steps, in order. */
  function StepTools(steps: seq<StepEntry>, n: nat): seq<ToolEntry>
    requires n <= |steps|
  {
    if n == 0 then [] else StepTools(steps, n - 1) + steps[n - 1].tools.All()
  }

  /** The tools of the first n pipelines, in order. */
  function PipelineTools(pipelines: seq<PipelineEntry>, n: nat): seq<ToolEntry>
    requires n <= |pipelines|
  {
    if n == 0 then []
    else
      var steps := pipelines[n - 1].steps.All();
      PipelineTools(pipelines, n - 1) + StepTools(steps, |steps|)
  }

  /** Every tool entry of the lockfile, in lockfile order. */
  function Entries(lf: Lockfile): seq<ToolEntry> {
    PipelineTools(lf.pipelines.All(), |lf.pipelines.All()|)
  }

  /** An entry is a tool of some step of some pipeline. */
  lemma {:induction false} InSteps(steps: seq<StepEntry>, n: nat, t: ToolEntry)
    requires n <= |steps|
    ensures t in StepTools(steps, n) <==> exists j :: 0 <= j < n && t in steps[j].tools.All()
  {
    if n > 0 {
      InSteps(steps, n - 1, t);
    }
  }

  lemma {:induction false} InPipelines(ps: seq<PipelineEntry>, n: nat, t: ToolEntry)
    requires n <= |ps|
    ensures t in PipelineTools(ps, n) <==>
            exists i, j :: 0 <= i < n && 0 <= j < |ps[i].steps.All()| && t in ps[i].steps.All()[j].tools.All()
  {
    if n > 0 {
      InPipelines(ps, n - 1, t);
      InSteps(ps[n - 1].steps.All(), |ps[n - 1].steps.All()|, t);
    }
  }

  lemma EntriesExactly(lf: Lockfile, t: ToolEntry)
    ensures t in Entries(lf) <==>
            exists p, s :: p in lf.pipelines.All() && s in p.steps.All() && t in s.tools.All()
  {
    var ps := lf.pipelines.All();
    InPipelines(ps, |ps|, t);
    if p, s :| p in ps && s in p.steps.All() && t in s.tools.All() {
      var i :| 0 <= i < |ps| && ps[i] == p;
      var j :| 0 <= j < |p.steps.All()| && p.steps.All()[j] == s;
      assert t in ps[i].steps.All()[j].tools.All();
    }
  }

  // ---------------------------------------------------------------- positions of the nested walk

  /** What a walk over pipelines, steps and tools has passed when it stands before step j of pipeline i. */
  function AtStep(ps: seq<PipelineEntry>, i: nat, j: nat): seq<ToolEntry>
    requires i < |ps| && j <= |ps[i].steps.All()|
  {
    PipelineTools(ps, i) + StepTools(ps[i].steps.All(), j)
  }

  /** The same, standing before tool k of step j of pipeline i. */
  function AtTool(ps: seq<PipelineEntry>, i: nat, j: nat, k: nat): seq<ToolEntry>
    requires i < |ps| && j < |ps[i].steps.All()| && k <= |ps[i].steps.All()[j].tools.All()|
  {
    AtStep(ps, i, j) + ps[i].steps.All()[j].tools.All()[..k]
  }

  lemma StepEnds(ps: seq<PipelineEntry>, i: nat)
    requires i < |ps|
    ensures AtStep(ps, i, 0) == PipelineTools(ps, i)
    ensures AtStep(ps, i, |ps[i].steps.All()|) == PipelineTools(ps, i + 1)
  {
  }

  lemma ToolEnds(ps: seq<PipelineEntry>, i: nat, j: nat)
    requires i < |ps| && j < |ps[i].steps.All()|
    ensures AtTool(ps, i, j, 0) == AtStep(ps, i, j)
    ensures AtTool(ps, i, j, |ps[i].steps.All()[j].tools.All()|) == AtStep(ps, i, j + 1)
  {
  }

  lemma StepNext(ps: seq<PipelineEntry>, i: nat, j: nat)
    requires i < |ps| && j < |ps[i].steps.All()|
    ensures AtStep(ps, i, j + 1) == AtStep(ps, i, j) + ps[i].steps.All()[j].tools.All()
  {
  }

  lemma ToolNext(ps: seq<PipelineEntry>, i: nat, j: nat, k: nat)
    requires i < |ps| && j < |ps[i].steps.All()| && k < |ps[i].steps.All()[j].tools.All()|
    ensures AtTool(ps, i, j, k + 1) == AtTool(ps, i, j, k) + [ps[i].steps.All()[j].tools.All()[k]]
  {
  }

  ghost predicate Prefix<T>(a: seq<T>, b: seq<T>) { |a| <= |b| && b[..|a|] == a }

  lemma PrefixTrans<T>(a: seq<T>, b: seq<T>, c: seq<T>)
    requires Prefix(a, b) && Prefix(b, c)
    ensures Prefix(a, c)
  {
  }

  lemma {:induction false} PipelinePrefix(ps: seq<PipelineEntry>, m: nat, n: nat)
    requires m <= n <= |ps|
    ensures Prefix(PipelineTools(ps, m), PipelineTools(ps, n))
  {
    if m < n {
      PipelinePrefix(ps, m, n - 1);
      PrefixTrans(PipelineTools(ps, m), PipelineTools(ps, n - 1), PipelineTools(ps, n));
    }
  }

  lemma {:induction false} StepPrefix(ps: seq<PipelineEntry>, i: nat, m: nat, n: nat)
    requires i < |ps| && m <= n <= |ps[i].steps.All()|
    ensures Prefix(AtStep(ps, i, m), AtStep(ps, i, n))
  {
    if m < n {
      StepPrefix(ps, i, m, n - 1);
      ToolEnds(ps, i, n - 1);
      PrefixTrans(AtStep(ps, i, m), AtStep(ps, i, n - 1), AtStep(ps, i, n));
    }
  }

  /** What a walk has passed is always a prefix of all the entries. */
  lemma PassedIsPrefix(lf: Lockfile, i: nat, j: nat, k: nat)
    requires var ps := lf.pipelines.All();
             i < |ps| && j < |ps[i].steps.All()| && k <= |ps[i].steps.All()[j].tools.All()|
    ensures Prefix(AtTool(lf.pipelines.All(), i, j, k), Entries(lf))
  {
    var ps := lf.pipelines.All();
    ToolEnds(ps, i, j);
    StepEnds(ps, i);
    StepPrefix(ps, i, j + 1, |ps[i].steps.All()|);
    PipelinePrefix(ps, i + 1, |ps|);
    PrefixTrans(AtTool(ps, i, j, k), AtStep(ps, i, j + 1), PipelineTools(ps, i + 1));
    PrefixTrans(AtTool(ps, i, j, k), PipelineTools(ps, i + 1), Entries(lf));
  }

  /** The tool a walk stands before is one of the entries. */
  lemma CurrentIsEntry(lf: Lockfile, i: nat, j: nat, k: nat)
    requires var ps := lf.pipelines.All();
             i < |ps| && j < |ps[i].steps.All()| && k < |ps[i].steps.All()[j].tools.All()|
    ensures lf.pipelines.All()[i].steps.All()[j].tools.All()[k] in Entries(lf)
  {
    var ps := lf.pipelines.All();
    PassedIsPrefix(lf, i, j, k + 1);
    ToolNext(ps, i, j, k);
    assert AtTool(ps, i, j, k + 1)[|AtTool(ps, i, j, k)|] ==
           Entries(lf)[..|AtTool(ps, i, j, k + 1)|][|AtTool(ps, i, j, k)|];
  }

  // ---------------------------------------------------------------- validation

  datatype Invalid =
    NoVersion | UnsupportedVersion(version: int) | EmptyReference(path: string) | NoHash(reference: string)

  predicate Filled(t: ToolEntry) { t.reference != "" && t.hash != "" }

  ghost predicate AllFilled(entries: seq<ToolEntry>) { forall t :: t in entries ==> Filled(t) }

  ghost predicate WellFormed(lf: Lockfile) {
    lf.version == CURRENT_VERSION && AllFilled(Entries(lf))
  }

  ghost predicate BlankReferenceIn(p: PipelineEntry) {
    exists s, t :: s in p.steps.All() && t in s.tools.All() && t.reference == ""
  }

  /** The fault names an entry that has it, or the pipeline of one. */
  ghost predicate Explains(lf: Lockfile, fault: Invalid) {
    match fault
    case NoVersion => lf.version == 0
    case UnsupportedVersion(v) => v == lf.version && v != 0 && v != CURRENT_VERSION
    case EmptyReference(path) =>
      lf.version == CURRENT_VERSION && exists p :: p in lf.pipelines.All() && p.path == path && BlankReferenceIn(p)
    case NoHash(r) =>
      lf.version == CURRENT_VERSION && exists t :: t in Entries(lf) && t.hash == "" && t.reference == r != ""
  }

  lemma ToolsAreEntries(lf: Lockfile, i: nat, j: nat)
    requires var ps := lf.pipelines.All(); i < |ps| && j < |ps[i].steps.All()|
    ensures forall t :: t in lf.pipelines.All()[i].steps.All()[j].tools.All() ==> t in Entries(lf)
  {
    var tools := lf.pipelines.All()[i].steps.All()[j].tools.All();
    forall k | 0 <= k < |tools| ensures tools[k] in Entries(lf) {
      CurrentIsEntry(lf, i, j, k);
    }
  }

  /** The fault is that of the first entry with one. */
  ghost predicate FirstFault(entries: seq<ToolEntry>, n: nat, fault: Invalid) {
    && n < |entries| && (forall k :: 0 <= k < n ==> entries[k].reference != "" && entries[k].hash != "")
    && if entries[n].reference == "" then fault.EmptyReference?
       else entries[n].hash == "" && fault == NoHash(entries[n].reference)
  }

  /** The innermost loop of validateLockfile: the tools of one step. */
  method ValidateTools(path: string, tools: seq<ToolEntry>) returns (fault: Option<Invalid>)
    ensures fault.None? <==> AllFilled(tools)
    ensures fault.Some? ==> exists n: nat :: FirstFault(tools, n, fault.value)
    ensures fault.Some? ==>
              || (fault == Some(EmptyReference(path)) && exists t :: t in tools && t.reference == "")
              || (exists t :: t in tools && t.hash == "" && t.reference != "" && fault == Some(NoHash(t.reference)))
  {
    for k := 0 to |tools|
      invariant AllFilled(tools[..k])
    {
      assert tools[k] in tools && tools[..k + 1] == tools[..k] + [tools[k]];
      assert forall j :: 0 <= j < k ==> tools[j] in tools[..k];
      assert tools[k].reference == "" ==> FirstFault(tools, k, EmptyReference(path));
      assert tools[k].reference != "" && tools[k].hash == "" ==> FirstFault(tools, k, NoHash(tools[k].reference));
      if tools[k].reference == "" {
        return Some(EmptyReference(path));
      }
      if tools[k].hash == "" {
        return Some(NoHash(tools[k].reference));
      }
    }
    assert tools[..|tools|] == tools;
    return None;
  }

  lemma FirstFaultAt(lf: Lockfile, i: nat, j: nat, fault: Invalid)
    requires var ps := lf.pipelines.All(); i < |ps| && j < |ps[i].steps.All()|
    requires AllFilled(AtStep(lf.pipelines.All(), i, j))
    requires exists n: nat :: FirstFault(lf.pipelines.All()[i].steps.All()[j].tools.All(), n, fault)
    ensures exists n: nat :: FirstFault(Entries(lf), n, fault)
  {
    var ps := lf.pipelines.All();
    var before, tools, all := AtStep(ps, i, j), ps[i].steps.All()[j].tools.All(), Entries(lf);
    var n: nat :| FirstFault(tools, n, fault);
    PassedIsPrefix(lf, i, j, |tools|);
    assert tools[..|tools|] == tools;
    FaultBehind(before, tools, all, n, fault);
  }

  lemma FaultBehind(before: seq<ToolEntry>, tools: seq<ToolEntry>, all: seq<ToolEntry>, n: nat, fault: Invalid)
    requires AllFilled(before) && FirstFault(tools, n, fault) && Prefix(before + tools, all)
    ensures FirstFault(all, |before| + n, fault)
  {
    var passed := before + tools;
    assert forall k :: 0 <= k < |passed| ==> all[k] == all[..|passed|][k] == passed[k];
    assert forall k :: 0 <= k < |before| ==> before[k] in before;
  }

  /** validateLockfile accepts exactly version 1 with no blank reference or hash, and otherwise names the version or
      the first entry with a blank. */
  method ValidateLockfile(lf: Lockfile) returns (fault: Option<Invalid>)
    ensures fault.None? <==> WellFormed(lf)
    ensures fault.None? <==> lf.version == 1 && forall t :: t in Entries(lf) ==> t.reference != "" && t.hash != ""
    ensures fault.Some? ==> Explains(lf, fault.value)
    ensures fault.Some? && lf.version == 1 ==> exists n: nat :: FirstFault(Entries(lf), n, fault.value)
  {
    if lf.version != CURRENT_VERSION {
      if lf.version == 0 {
        return Some(NoVersion);
      }
      return Some(UnsupportedVersion(lf.version));
    }
    var ps := lf.pipelines.All();
    for i := 0 to |ps|
      invariant AllFilled(PipelineTools(ps, i))
    {
      StepEnds(ps, i);
      var steps := ps[i].steps.All();
      for j := 0 to |steps|
        invariant AllFilled(AtStep(ps, i, j))
      {
        ToolEnds(ps, i, j);
        ToolsAreEntries(lf, i, j);
        fault := ValidateTools(ps[i].path, steps[j].tools.All());
        if fault.Some? {
          FirstFaultAt(lf, i, j, fault.value);
          return;
        }
      }
    }
    return None;
  }
}
