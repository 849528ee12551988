/** The end of every dependency-list parser: sort the tools by reference, put them into one step, list that step. */
module Dependencies {
  import opened Wrappers
  import opened Parser
  import opened Sorting
  import opened Text

  /** What becomes of one declaration. */
  datatype Outcome = Ignored | Tool(tool: ToolRef) | Skipped(ref: UnsupportedRef)

  function RefKey(t: ToolRef): Key { [t.reference] }

  function RefsOf(tools: seq<ToolRef>): seq<string> { seq(|tools|, i requires 0 <= i < |tools| => tools[i].reference) }

  /** The references recorded so far are exactly those of the tools, each once. */
  ghost predicate Recorded(seen: set<string>, tools: seq<ToolRef>) {
    Distinct(RefsOf(tools)) && forall r :: r in seen <==> r in RefsOf(tools)
  }

  lemma OneMoreReference(tools: seq<ToolRef>, tool: ToolRef)
    requires Distinct(RefsOf(tools)) && tool.reference !in RefsOf(tools)
    ensures RefsOf(tools + [tool]) == RefsOf(tools) + [tool.reference] && Distinct(RefsOf(tools + [tool]))
  {
    assert RefsOf(tools + [tool]) == RefsOf(tools) + [tool.reference];
  }

  lemma {:induction false} RecordedAppends(seen: set<string>, tools: seq<ToolRef>, tool: ToolRef)
    requires Recorded(seen, tools) && tool.reference !in seen
    ensures Recorded(seen + {tool.reference}, tools + [tool])
  {
    OneMoreReference(tools, tool);
  }

  /** b's name continues a's name behind an at-sign, and a's version ends in b's. */
  ghost predicate Shadows(a: ToolRef, b: ToolRef) { Continues(a.name, a.version, b.name, b.version, '@') }

  /** Two different pairs of name and version share a reference exactly if one shadows the other. */
  lemma SameReferenceExactly(a: ToolRef, b: ToolRef)
    requires a.reference == a.name + "@" + a.version && b.reference == b.name + "@" + b.version
    ensures a.reference == b.reference && (a.name != b.name || a.version != b.version) <==>
            Shadows(a, b) || Shadows(b, a)
  {
    if |a.name| <= |b.name| {
      JoinedAlike(a.name, a.version, b.name, b.version, '@');
    } else {
      JoinedAlike(b.name, b.version, a.name, a.version, '@');
    }
  }

  // ---------------------------------------------------------------- what a loop over declarations collects

  /** An order in which a loop over a map can visit its keys. */
  ghost predicate IsOrder(names: seq<string>, keys: set<string>) {
    Distinct(names) && forall name :: name in names <==> name in keys
  }

  function ToolsIn(os: seq<Outcome>): seq<ToolRef> {
    if os == [] then []
    else
      var before, o := ToolsIn(os[..|os| - 1]), os[|os| - 1];
      if o.Tool? then before + [o.tool] else before
  }

  function ReportsIn(os: seq<Outcome>): seq<UnsupportedRef> {
    if os == [] then []
    else
      var before, o := ReportsIn(os[..|os| - 1]), os[|os| - 1];
      if o.Skipped? then before + [o.ref] else before
  }

  /** The tools a loop keeps that remembers references: of those that share one the first. */
  function Kept(os: seq<Outcome>): seq<ToolRef> {
    if os == [] then []
    else
      var before, o := Kept(os[..|os| - 1]), os[|os| - 1];
      if o.Tool? && o.tool.reference !in RefsOf(before) then before + [o.tool] else before
  }

  lemma OneMoreOutcome(front: seq<Outcome>, o: Outcome)
    ensures ToolsIn(front + [o]) == if o.Tool? then ToolsIn(front) + [o.tool] else ToolsIn(front)
    ensures ReportsIn(front + [o]) == if o.Skipped? then ReportsIn(front) + [o.ref] else ReportsIn(front)
    ensures Kept(front + [o]) ==
            if o.Tool? && o.tool.reference !in RefsOf(Kept(front)) then Kept(front) + [o.tool] else Kept(front)
  {
    assert (front + [o])[..|front|] == front;
  }

  lemma {:induction false} ToolsAreOutcomes(os: seq<Outcome>)
    ensures forall t :: t in ToolsIn(os) <==> Tool(t) in os
    ensures forall u :: u in ReportsIn(os) <==> Skipped(u) in os
  {
    if os != [] {
      var front, o := os[..|os| - 1], os[|os| - 1];
      ToolsAreOutcomes(front);
      OneMoreOutcome(front, o);
      assert os == front + [o];
    }
  }

  /** Each reference of a tool is kept once, and nothing else. */
  lemma {:induction false} KeptFacts(os: seq<Outcome>)
    ensures Distinct(RefsOf(Kept(os)))
    ensures forall t :: t in Kept(os) ==> Tool(t) in os
    ensures forall t :: Tool(t) in os ==> t.reference in RefsOf(Kept(os))
  {
    if os != [] {
      var front, o := os[..|os| - 1], os[|os| - 1];
      KeptFacts(front);
      assert os == front + [o] && forall x :: x in os <==> x in front || x == o;
      OneMoreOutcome(front, o);
      if o.Tool? && o.tool.reference !in RefsOf(Kept(front)) {
        OneMoreReference(Kept(front), o.tool);
      }
    }
  }

  /** A tool before which no tool has its reference. */
  ghost predicate IsFirstOf(os: seq<Outcome>, t: ToolRef) {
    exists i :: 0 <= i < |os| && os[i] == Tool(t) &&
                forall j :: 0 <= j < i && os[j].Tool? ==> os[j].tool.reference != t.reference
  }

  /** Exactly the first tool with each reference is kept. */
  lemma {:induction false} KeptIsFirst(os: seq<Outcome>)
    ensures forall t :: t in Kept(os) <==> IsFirstOf(os, t)
  {
    if os != [] {
      var front, o := os[..|os| - 1], os[|os| - 1];
      KeptIsFirst(front);
      KeptFacts(front);
      assert os == front + [o] && forall i :: 0 <= i < |front| ==> front[i] == os[i];
      OneMoreOutcome(front, o);
      forall t ensures t in Kept(os) <==> IsFirstOf(os, t) {
        assert IsFirstOf(front, t) ==> IsFirstOf(os, t);
        if o == Tool(t) && t.reference !in RefsOf(Kept(front)) {
          forall j | 0 <= j < |front| && os[j].Tool? ensures os[j].tool.reference != t.reference {
            assert front[j] == Tool(os[j].tool) && front[j] in front;
          }
          assert IsFirstOf(os, t);
        }
        assert IsFirstOf(os, t) && !IsFirstOf(front, t) ==> o == Tool(t);
        if o == Tool(t) && t.reference in RefsOf(Kept(front)) {
          KeptBefore(front, t.reference);
        }
      }
    }
  }

  lemma KeptBefore(os: seq<Outcome>, reference: string)
    requires reference in RefsOf(Kept(os))
    ensures exists j :: 0 <= j < |os| && os[j].Tool? && os[j].tool.reference == reference
  {
    KeptFacts(os);
    var k :| 0 <= k < |Kept(os)| && RefsOf(Kept(os))[k] == reference;
    assert Kept(os)[k] in Kept(os) && Tool(Kept(os)[k]) in os;
    var j :| 0 <= j < |os| && os[j] == Tool(Kept(os)[k]);
  }

  /** Every report is made, once if the reports differ, and nothing else. */
  lemma {:induction false} ReportsFacts(os: seq<Outcome>)
    ensures forall u :: u in ReportsIn(os) <==> Skipped(u) in os
    ensures (forall i, j :: 0 <= i < j < |os| && os[i].Skipped? ==> os[i] != os[j]) ==> Distinct(ReportsIn(os))
  {
    if os != [] {
      var front, o := os[..|os| - 1], os[|os| - 1];
      ReportsFacts(front);
      assert os == front + [o] && forall x :: x in os <==> x in front || x == o;
      assert forall i :: 0 <= i < |front| ==> front[i] == os[i];
      OneMoreOutcome(front, o);
    }
  }

  /** A package of the Python index. */
  function IndexTool(name: string, version: string): ToolRef {
    ToolRef("pypi", name + "@" + version, "", name, version, "", "")
  }

  /** Every reference is made of its name and version. */
  ghost predicate Named(os: seq<Outcome>) { forall t :: Tool(t) in os ==> t == IndexTool(t.name, t.version) }

  /** No two tools share a reference by an at-sign. */
  ghost predicate SeparateTools(os: seq<Outcome>) { forall a, b :: Tool(a) in os && Tool(b) in os ==> !Shadows(a, b) }

  lemma PairSharesExactly(os: seq<Outcome>, a: ToolRef, b: ToolRef)
    requires Named(os) && Tool(a) in os && Tool(b) in os
    ensures a.reference == b.reference && a != b <==> Shadows(a, b) || Shadows(b, a)
  {
    SameReferenceExactly(a, b);
  }

  /** Every tool is kept exactly if they are separate: otherwise the later one is lost. */
  lemma AllKeptExactly(os: seq<Outcome>)
    requires Named(os)
    ensures SeparateTools(os) <==> forall t :: Tool(t) in os ==> t in Kept(os)
  {
    KeptFacts(os);
    if SeparateTools(os) {
      forall t | Tool(t) in os ensures t in Kept(os) {
        var i :| 0 <= i < |Kept(os)| && RefsOf(Kept(os))[i] == t.reference;
        var kept := Kept(os)[i];
        assert kept in Kept(os);
        PairSharesExactly(os, kept, t);
      }
    } else {
      var a, b :| Tool(a) in os && Tool(b) in os && Shadows(a, b);
      PairSharesExactly(os, a, b);
      OnlyOne(Kept(os), a, b);
    }
  }

  lemma OnlyOne(tools: seq<ToolRef>, a: ToolRef, b: ToolRef)
    requires Distinct(RefsOf(tools)) && a.reference == b.reference && a != b
    ensures a !in tools || b !in tools
  {
    forall i, j | 0 <= i < |tools| && 0 <= j < |tools| ensures !(tools[i] == a && tools[j] == b) {
      assert i != j ==> RefsOf(tools)[i] != RefsOf(tools)[j];
    }
  }

  const STEP := "dependencies"

  function Labelled(t: ToolRef, job: string): ToolRef { t.(stepName := STEP, jobName := job) }

  function LabelAll(tools: seq<ToolRef>, job: string): seq<ToolRef> {
    seq(|tools|, i requires 0 <= i < |tools| => Labelled(tools[i], job))
  }

  /** In the order of the references, byte by byte. */
  ghost predicate ByReference(tools: seq<ToolRef>) {
    forall i, j :: 0 <= i < j < |tools| ==> !StrLess(tools[j].reference, tools[i].reference)
  }

  lemma SortedByReference(tools: seq<ToolRef>)
    requires Sorted(RefKey, tools)
    ensures ByReference(tools)
  {
    forall i, j | 0 <= i < j < |tools| ensures !StrLess(tools[j].reference, tools[i].reference) {
      assert !KeyLess(RefKey(tools[j]), RefKey(tools[i]));
      StrTotal(tools[j].reference, tools[i].reference);
    }
  }

  /** A file of dependencies: the path and kind it was read as, no secrets, one step if it has tools, and every tool
      in that step, in the ecosystem of that kind, under the reference made of its own name and version; the tools
      are sorted by their references. */
  ghost predicate FileOf(wf: WorkflowFile, path: string, kind: string, job: string) {
    && wf.path == path && wf.kind == kind && wf.secrets == []
    && wf.steps == (if wf.tools == [] then [] else [StepDef("dependencies", job, 0)])
    && ByReference(wf.tools)
    && forall t :: t in wf.tools ==>
         && t.ecosystem == kind && t.reference == t.name + "@" + t.version
         && t.stepName == "dependencies" && t.jobName == job
  }

  /** sort.Slice may leave equal references in any order; the loop then labels the slice in place. */
  method FinishFile(path: string, kind: string, job: string, tools: seq<ToolRef>, unsupported: seq<UnsupportedRef>)
    returns (wf: WorkflowFile)
    ensures wf.path == path && wf.kind == kind && wf.secrets == [] && wf.unsupported == unsupported
    ensures Sorted(RefKey, wf.tools) && ByReference(wf.tools)
    ensures multiset(wf.tools) == multiset(LabelAll(tools, job))
    ensures Distinct(RefsOf(tools)) ==> StrictlySorted(RefKey, wf.tools)
    ensures StepsCover(wf) && (wf.tools == [] <==> tools == [])
    ensures wf.steps == if tools == [] then [] else [StepDef("dependencies", job, 0)]
    ensures forall t :: t in wf.tools <==>
              exists raw :: raw in tools && t == raw.(stepName := "dependencies", jobName := job)
  {
    if tools == [] {
      return WorkflowFile(path, kind, [], [], [], unsupported);
    }
    var sorted := Sort(RefKey, tools);
    var labelled := sorted;
    for i := 0 to |labelled|
      invariant |labelled| == |sorted|
      invariant forall k :: 0 <= k < |sorted| ==> labelled[k] == if k < i then Labelled(sorted[k], job) else sorted[k]
    {
      labelled := labelled[i := labelled[i].(stepName := STEP, jobName := job)];
    }
    wf := WorkflowFile(path, kind, labelled, [], [StepDef(STEP, job, 0)], unsupported);
    SortSorts(RefKey, tools);
    assert labelled == LabelAll(sorted, job);
    SameLabelled(sorted, tools, job);
    assert |multiset(sorted)| == |sorted|;
    if Distinct(RefsOf(tools)) {
      DistinctKeysOf(tools);
      SortDistinct(RefKey, tools);
    }
    assert wf.steps[0] in wf.steps;
    FinishedMembers(tools, job, labelled);
    SortedByReference(labelled);
  }

  lemma DistinctKeysOf(tools: seq<ToolRef>)
    requires Distinct(RefsOf(tools))
    ensures DistinctKeys(RefKey, tools)
  {
    forall i, j | 0 <= i < j < |tools| ensures RefKey(tools[i]) != RefKey(tools[j]) {
      assert RefsOf(tools)[i] != RefsOf(tools)[j];
      assert RefKey(tools[i])[0] != RefKey(tools[j])[0];
    }
  }

  function Without<T>(s: seq<T>, i: nat): seq<T>
    requires i < |s|
  {
    s[..i] + s[i + 1..]
  }

  lemma WithoutOne<T>(s: seq<T>, i: nat)
    requires i < |s|
    ensures multiset(s) == multiset(Without(s, i)) + multiset{s[i]}
  {
    assert s == s[..i] + [s[i]] + s[i + 1..];
  }

  lemma SameRest<T>(a: seq<T>, i: nat, b: seq<T>, j: nat)
    requires multiset(a) == multiset(b) && i < |a| && j < |b| && a[i] == b[j]
    ensures multiset(Without(a, i)) == multiset(Without(b, j))
  {
    WithoutOne(a, i);
    WithoutOne(b, j);
    assert multiset(Without(a, i)) == multiset(a) - multiset{a[i]};
    assert multiset(Without(b, j)) == multiset(b) - multiset{b[j]};
  }

  lemma LabelledWithoutOne(s: seq<ToolRef>, i: nat, job: string)
    requires i < |s|
    ensures multiset(LabelAll(s, job)) == multiset(LabelAll(Without(s, i), job)) + multiset{Labelled(s[i], job)}
  {
    var all := LabelAll(s, job);
    WithoutOne(all, i);
    assert Without(all, i) == LabelAll(Without(s, i), job);
  }

  /** Labelling a permutation gives a permutation. */
  lemma {:induction false} SameLabelled(a: seq<ToolRef>, b: seq<ToolRef>, job: string)
    requires multiset(a) == multiset(b)
    ensures multiset(LabelAll(a, job)) == multiset(LabelAll(b, job))
  {
    if a == [] {
      assert |multiset(a)| == |multiset(b)|;
    } else {
      assert a[0] in multiset(b);
      var i :| 0 <= i < |b| && b[i] == a[0];
      SameRest(a, 0, b, i);
      SameLabelled(Without(a, 0), Without(b, i), job);
      LabelledWithoutOne(a, 0, job);
      LabelledWithoutOne(b, i, job);
    }
  }

  /** The finished list holds the labelled tools and no others. */
  lemma FinishedMembers(tools: seq<ToolRef>, job: string, finished: seq<ToolRef>)
    requires multiset(finished) == multiset(LabelAll(tools, job))
    ensures forall t :: t in finished <==> exists raw :: raw in tools && t == Labelled(raw, job)
    ensures forall r :: r in RefsOf(finished) <==> r in RefsOf(tools)
  {
    forall t ensures t in finished <==> exists raw :: raw in tools && t == Labelled(raw, job) {
      assert t in finished <==> t in multiset(finished);
      assert t in LabelAll(tools, job) <==> t in multiset(LabelAll(tools, job));
      if t in finished {
        var i :| 0 <= i < |tools| && LabelAll(tools, job)[i] == t;
        assert tools[i] in tools;
      }
      if raw :| raw in tools && t == Labelled(raw, job) {
        var i :| 0 <= i < |tools| && tools[i] == raw;
        assert LabelAll(tools, job)[i] == t;
      }
    }
    forall r ensures r in RefsOf(finished) <==> r in RefsOf(tools) {
      if r in RefsOf(finished) {
        var i :| 0 <= i < |finished| && finished[i].reference == r;
        assert finished[i] in finished;
        var raw :| raw in tools && finished[i] == Labelled(raw, job);
        var k :| 0 <= k < |tools| && tools[k] == raw;
        assert RefsOf(tools)[k] == r;
      }
      if r in RefsOf(tools) {
        var k :| 0 <= k < |tools| && tools[k].reference == r;
        var t := Labelled(tools[k], job);
        assert t in finished;
        var i :| 0 <= i < |finished| && finished[i] == t;
        assert RefsOf(finished)[i] == r;
      }
    }
  }

  lemma SharedReference(a: seq<ToolRef>, b: seq<ToolRef>, t: ToolRef)
    requires t in a && forall r :: r in RefsOf(a) ==> r in RefsOf(b)
    ensures exists y :: y in b && y.reference == t.reference
  {
    var i :| 0 <= i < |a| && a[i] == t;
    assert RefsOf(a)[i] in RefsOf(a) && t.reference in RefsOf(b);
    var k :| 0 <= k < |b| && RefsOf(b)[k] == t.reference;
    assert b[k] in b;
  }
}
