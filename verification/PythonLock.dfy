/** poetry.lock and uv.lock: the loop that sorts the locked packages into tools, gaps, and what is neither. */
module PythonLock {
  import opened Text
  import opened Parser
  import opened Dependencies
  import opened Sorting
  import PyName

  /** A package table, with the keys of its source table. */
  datatype Package = Package(name: string, version: string, source: set<string>)

  predicate OwnProject(source: set<string>) {
    exists key :: key in ["editable", "virtual", "workspace"] && key in source
  }

  predicate FromPackageIndex(source: set<string>) { source == {} || "registry" in source || "pypi" in source }

  const NOT_INDEXED :=
    "not from a package index: a path, editable or version-control dependency cannot be verified against PyPI"

  function OutcomeOf(p: Package): Outcome {
    var name, version := PyName.Normalized(p.name), TrimSpace(p.version);
    if name == "" || version == "" || OwnProject(p.source) then Ignored
    else if !FromPackageIndex(p.source) then Skipped(UnsupportedRef("pypi", name + " " + version, NOT_INDEXED))
    else Tool(IndexTool(name, version))
  }

  predicate OnlySeparators(s: string) { forall i :: 0 <= i < |s| ==> PyName.IsSeparator(s[i]) }

  lemma {:induction false} TrimsToNothing(s: string)
    ensures PyName.TrimSeparators(s) == "" <==> OnlySeparators(s)
    decreases |s|
  {
    if s != "" {
      if PyName.IsSeparator(s[0]) {
        TrimsToNothing(s[1..]);
        assert forall i :: 0 < i < |s| ==> s[i] == s[1..][i - 1];
      } else if PyName.IsSeparator(s[|s| - 1]) {
        TrimsToNothing(s[..|s| - 1]);
        assert s[..|s| - 1][0] == s[0];
      }
    }
  }

  lemma OwnProjectExactly(source: set<string>)
    ensures OwnProject(source) <==> "editable" in source || "virtual" in source || "workspace" in source
  {
    assert "editable" in ["editable", "virtual", "workspace"];
    assert "virtual" in ["editable", "virtual", "workspace"];
    assert "workspace" in ["editable", "virtual", "workspace"];
  }

  /** Nothing with a name, a version and a source of its own is passed over in silence. */
  lemma IgnoredExactly(p: Package)
    ensures OutcomeOf(p).Ignored? <==>
            || OnlySeparators(TrimSpace(p.name)) || TrimSpace(p.version) == ""
            || "editable" in p.source || "virtual" in p.source || "workspace" in p.source
  {
    OwnProjectExactly(p.source);
    var t := PyName.TrimSeparators(TrimSpace(p.name));
    TrimsToNothing(TrimSpace(p.name));
    if t != "" {
      PyName.PepEdges(t);
    }
  }

  /** A package with a name, a version and a source of its own is listed exactly if its source is a package index or
      there is none, under its normalized name; from any other source it is reported. */
  lemma ListedExactly(p: Package)
    requires !OnlySeparators(TrimSpace(p.name)) && TrimSpace(p.version) != ""
    requires "editable" !in p.source && "virtual" !in p.source && "workspace" !in p.source
    ensures var name, version := PyName.Normalized(p.name), TrimSpace(p.version);
            OutcomeOf(p) ==
            if p.source == {} || "registry" in p.source || "pypi" in p.source
            then Tool(ToolRef("pypi", name + "@" + version, "", name, version, "", ""))
            else Skipped(UnsupportedRef("pypi", name + " " + version, NOT_INDEXED))
  {
    IgnoredExactly(p);
  }

  function Outcomes(packages: seq<Package>): seq<Outcome> {
    seq(|packages|, i requires 0 <= i < |packages| => OutcomeOf(packages[i]))
  }

  lemma OneMorePackage(packages: seq<Package>, i: nat)
    requires i < |packages|
    ensures var o, front, now := OutcomeOf(packages[i]), Outcomes(packages[..i]), Outcomes(packages[..i + 1]);
            && Kept(now) == (if o.Tool? && o.tool.reference !in RefsOf(Kept(front)) then Kept(front) + [o.tool]
                             else Kept(front))
            && ReportsIn(now) == if o.Skipped? then ReportsIn(front) + [o.ref] else ReportsIn(front)
  {
    assert Outcomes(packages[..i + 1]) == Outcomes(packages[..i]) + [OutcomeOf(packages[i])];
    OneMoreOutcome(Outcomes(packages[..i]), OutcomeOf(packages[i]));
  }

  method Collect(packages: seq<Package>) returns (tools: seq<ToolRef>, unsupported: seq<UnsupportedRef>)
    ensures tools == Kept(Outcomes(packages)) && unsupported == ReportsIn(Outcomes(packages))
  {
    var seen: set<string> := {};
    tools, unsupported := [], [];
    for i := 0 to |packages|
      invariant tools == Kept(Outcomes(packages[..i])) && Recorded(seen, tools)
      invariant unsupported == ReportsIn(Outcomes(packages[..i]))
    {
      var pkg := packages[i];
      OneMorePackage(packages, i);
      var name := PyName.NormalizePyPIName(pkg.name);
      var version := TrimSpace(pkg.version);
      if name == "" {
        continue;
      } else if version == "" {
        continue;
      } else if OwnProject(pkg.source) {
        continue;
      } else if !FromPackageIndex(pkg.source) {
        unsupported := unsupported + [UnsupportedRef("pypi", name + " " + version, NOT_INDEXED)];
        continue;
      }
      var ref := name + "@" + version;
      if ref in seen {
        continue;
      }
      RecordedAppends(seen, tools, ToolRef("pypi", ref, "", name, version, "", ""));
      seen := seen + {ref};
      tools := tools + [ToolRef("pypi", ref, "", name, version, "", "")];
    }
    assert packages[..|packages|] == packages;
  }

  lemma PackagesAreNamed(packages: seq<Package>)
    ensures Named(Outcomes(packages))
  {
  }

  /** Every indexed package is listed exactly if no two share a reference by an at-sign: otherwise the later one
      is lost. */
  lemma AllListedExactly(packages: seq<Package>)
    ensures SeparateTools(Outcomes(packages)) <==>
            forall p :: p in packages && OutcomeOf(p).Tool? ==> OutcomeOf(p).tool in Kept(Outcomes(packages))
  {
    var os := Outcomes(packages);
    PackagesAreNamed(packages);
    AllKeptExactly(os);
    forall t ensures Tool(t) in os <==> exists p :: p in packages && OutcomeOf(p) == Tool(t) {
      if p :| p in packages && OutcomeOf(p) == Tool(t) {
        var i :| 0 <= i < |packages| && packages[i] == p;
        assert os[i] == Tool(t);
      }
    }
  }

  /** A name that normalizing leaves as it is. */
  predicate PlainName(name: string) {
    name != "" && PyName.Collapsed(name) && SpaceFree(name) && name[0] != '-' && name[|name| - 1] != '-'
  }

  lemma PlainOutcome(name: string, version: string)
    requires PlainName(name) && version != "" && SpaceFree(version)
    ensures OutcomeOf(Package(name, version, {})) == Tool(IndexTool(name, version))
  {
    AlreadyTrimmed(name);
    AlreadyTrimmed(version);
    PyName.CollapsedIsFixed(name);
  }

  /** Of name at mid@version and name@mid at version, both from the index, the second is lost: for example of
      a at b@c and a@b at c. */
  lemma AtSignLosesPackage(name: string, mid: string, version: string)
    requires PlainName(name) && PlainName(name + "@" + mid) && SpaceFree(mid) && version != "" && SpaceFree(version)
    ensures var x, y := IndexTool(name, mid + "@" + version), IndexTool(name + "@" + mid, version);
            var os := Outcomes([Package(name, mid + "@" + version, {}), Package(name + "@" + mid, version, {})]);
            os == [Tool(x), Tool(y)] && Kept(os) == [x] && y !in Kept(os)
  {
    PlainOutcome(name, mid + "@" + version);
    PlainOutcome(name + "@" + mid, version);
    SecondIsDropped(IndexTool(name, mid + "@" + version), IndexTool(name + "@" + mid, version));
  }

  lemma SecondIsDropped(x: ToolRef, y: ToolRef)
    requires x.reference == y.reference && |x.name| != |y.name|
    ensures Kept([Tool(x), Tool(y)]) == [x] && y !in [x]
  {
    FirstIsKept(x);
    OneMoreOutcome([Tool(x)], Tool(y));
    assert RefsOf([x])[0] == y.reference;
    assert [Tool(x)] + [Tool(y)] == [Tool(x), Tool(y)];
  }

  lemma FirstIsKept(x: ToolRef)
    ensures Kept([Tool(x)]) == [x]
  {
    assert [Tool(x)][..0] == [] && |RefsOf([])| == 0 && [] + [x] == [x];
  }

  /** What a package becomes before which none becomes a tool with its reference. */
  ghost predicate FirstListed(packages: seq<Package>, tool: ToolRef) {
    exists i :: 0 <= i < |packages| && OutcomeOf(packages[i]) == Tool(tool) &&
                forall j :: 0 <= j < i && OutcomeOf(packages[j]).Tool? ==>
                              OutcomeOf(packages[j]).tool.reference != tool.reference
  }

  lemma KeptAre(packages: seq<Package>)
    ensures forall t :: t in Kept(Outcomes(packages)) <==> FirstListed(packages, t)
  {
    KeptIsFirst(Outcomes(packages));
    forall t ensures IsFirstOf(Outcomes(packages), t) <==> FirstListed(packages, t) {
      assert forall i :: 0 <= i < |packages| ==> Outcomes(packages)[i] == OutcomeOf(packages[i]);
    }
  }

  lemma KeptAreNamed(packages: seq<Package>)
    ensures forall t :: t in Kept(Outcomes(packages)) ==>
              t.ecosystem == "pypi" && t.reference == t.name + "@" + t.version
  {
    KeptFacts(Outcomes(packages));
    PackagesAreNamed(packages);
  }

  lemma ReportsAre(packages: seq<Package>)
    ensures forall u :: u in ReportsIn(Outcomes(packages)) <==> exists p :: p in packages && OutcomeOf(p) == Skipped(u)
  {
    var os := Outcomes(packages);
    ToolsAreOutcomes(os);
    forall u ensures Skipped(u) in os <==> exists p :: p in packages && OutcomeOf(p) == Skipped(u) {
      if p :| p in packages && OutcomeOf(p) == Skipped(u) {
        var i :| 0 <= i < |packages| && packages[i] == p;
        assert os[i] == Skipped(u);
      }
    }
  }

  /** The file lists the first indexed package of each reference, and reports the others of foreign sources. */
  method Parse(path: string, packages: seq<Package>) returns (wf: WorkflowFile)
    ensures StrictlySorted(RefKey, wf.tools)
    ensures multiset(wf.tools) == multiset(LabelAll(Kept(Outcomes(packages)), "pip-install"))
    ensures StepsCover(wf) && wf.unsupported == ReportsIn(Outcomes(packages))
    ensures FileOf(wf, path, "pypi", "pip-install")
    ensures forall t :: t in wf.tools <==>
              exists raw :: FirstListed(packages, raw) &&
                            t == raw.(stepName := "dependencies", jobName := "pip-install")
    ensures forall u :: u in wf.unsupported <==> exists p :: p in packages && OutcomeOf(p) == Skipped(u)
  {
    var tools, unsupported := Collect(packages);
    KeptFacts(Outcomes(packages));
    KeptAre(packages);
    KeptAreNamed(packages);
    ReportsAre(packages);
    wf := FinishFile(path, "pypi", "pip-install", tools, unsupported);
  }

  /** Two spellings of one project, locked at one version, are one dependency. */
  lemma SpellingsAreOne(p: Package, q: Package)
    requires SpaceFree(p.name) && SpaceFree(q.name) && PyName.Alike(p.name, q.name)
    requires TrimSpace(p.version) == TrimSpace(q.version) && p.source == q.source
    ensures OutcomeOf(p) == OutcomeOf(q)
  {
    PyName.PlainNames(p.name);
    PyName.PlainNames(q.name);
    PyName.AlikeIsOneProject(p.name, q.name);
  }
}
