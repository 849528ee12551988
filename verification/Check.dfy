/** The comparison of a lockfile with the resolved answers, the sequential comparison it must agree with,
    and the verdict. */
module Check {
  import opened Wrappers
  import opened Platform
  import opened Manifest
  import opened ResolvePool

  datatype Severity = SevInfo | SevWarning | SevCritical

  datatype DriftResult = DriftResult(ecosystem: string, reference: string, lockedHash: string, liveHash: string,
                                     severity: Severity)

  datatype Warning = Unresolved(reference: string, cause: Failure) | StaleData(reference: string, age: int)

  // ---------------------------------------------------------------- distinct references

  /** The distinct references of the entries, in order of first appearance. */
  function Unique(entries: seq<ToolEntry>): seq<UniqueRef> {
    if entries == [] then []
    else
      var n := |entries| - 1;
      var before := Unique(entries[..n]);
      if RefOf(entries[n]) in before then before else before + [RefOf(entries[n])]
  }

  function Occurrences(entries: seq<ToolEntry>, u: UniqueRef): nat {
    if entries == [] then 0
    else
      var n := |entries| - 1;
      Occurrences(entries[..n], u) + if RefOf(entries[n]) == u then 1 else 0
  }

  function Refs(entries: seq<ToolEntry>): set<UniqueRef> { set t | t in entries :: RefOf(t) }

  lemma {:induction false} UniqueIsDistinct(entries: seq<ToolEntry>)
    ensures Distinct(Unique(entries))
    ensures (set u | u in Unique(entries)) == Refs(entries)
  {
    if entries != [] {
      var n := |entries| - 1;
      UniqueIsDistinct(entries[..n]);
      assert Refs(entries) == Refs(entries[..n]) + {RefOf(entries[n])};
      assert forall u :: u in Unique(entries) <==> u in Unique(entries[..n]) || u == RefOf(entries[n]);
    }
  }

  /** A reference is listed exactly when some entry needs it. */
  lemma {:induction false} CountedIffPresent(entries: seq<ToolEntry>, u: UniqueRef)
    ensures Occurrences(entries, u) > 0 <==> u in Refs(entries)
  {
    if entries != [] {
      var n := |entries| - 1;
      CountedIffPresent(entries[..n], u);
      assert Refs(entries) == Refs(entries[..n]) + {RefOf(entries[n])};
    }
  }

  /** The pairs of the entries, in order. */
  function Pairs(entries: seq<ToolEntry>): seq<UniqueRef> {
    seq(|entries|, i requires 0 <= i < |entries| => UniqueRef(entries[i].ecosystem, entries[i].reference))
  }

  /** Somewhere v stands and u does not, up to there. */
  ghost predicate ComesLater(pairs: seq<UniqueRef>, u: UniqueRef, v: UniqueRef) {
    exists k :: 0 <= k < |pairs| && pairs[k] == v && u !in pairs[..k + 1]
  }

  lemma UniquePairs(entries: seq<ToolEntry>)
    ensures forall u :: u in Unique(entries) <==> u in Pairs(entries)
  {
    UniqueIsDistinct(entries);
    forall u ensures u in Unique(entries) <==> u in Pairs(entries) {
      PairListed(entries, u);
      assert u in Unique(entries) <==> u in set v | v in Unique(entries);
    }
  }

  lemma PairListed(entries: seq<ToolEntry>, u: UniqueRef)
    ensures u in Refs(entries) <==> u in Pairs(entries)
  {
    if u in Refs(entries) {
      var t :| t in entries && RefOf(t) == u;
      var i :| 0 <= i < |entries| && entries[i] == t;
      assert Pairs(entries)[i] == u;
    }
    if u in Pairs(entries) {
      var i :| 0 <= i < |entries| && Pairs(entries)[i] == u;
      assert entries[i] in entries && RefOf(entries[i]) == u;
    }
  }

  lemma LaterStays(pairs: seq<UniqueRef>, more: seq<UniqueRef>, u: UniqueRef, v: UniqueRef)
    requires ComesLater(pairs, u, v)
    ensures ComesLater(pairs + more, u, v)
  {
    var k :| 0 <= k < |pairs| && pairs[k] == v && u !in pairs[..k + 1];
    assert (pairs + more)[k] == v && (pairs + more)[..k + 1] == pairs[..k + 1];
  }

  lemma LaterThanAll(pairs: seq<UniqueRef>, u: UniqueRef, v: UniqueRef)
    requires v in pairs && u !in pairs
    ensures ComesLater(pairs, u, v)
  {
    var k :| 0 <= k < |pairs| && pairs[k] == v;
    assert u !in pairs[..k + 1];
  }

  /** The references are listed in the order in which they first appear. */
  lemma {:induction false} UniqueInOrder(entries: seq<ToolEntry>, i: nat, j: nat)
    requires i < j < |Unique(entries)|
    ensures ComesLater(Pairs(entries), Unique(entries)[j], Unique(entries)[i])
  {
    var n := |entries| - 1;
    var front, last := entries[..n], UniqueRef(entries[n].ecosystem, entries[n].reference);
    assert Pairs(entries) == Pairs(front) + [last];
    if j < |Unique(front)| {
      UniqueInOrder(front, i, j);
    } else {
      UniquePairs(front);
      assert Unique(front)[i] in Unique(front);
      LaterThanAll(Pairs(front), last, Unique(front)[i]);
    }
    LaterStays(Pairs(front), [last], Unique(entries)[j], Unique(entries)[i]);
  }

  lemma {:induction false} OccurrencesCounted(entries: seq<ToolEntry>, u: UniqueRef)
    ensures Occurrences(entries, u) == multiset(Pairs(entries))[u]
  {
    if entries != [] {
      var n := |entries| - 1;
      OccurrencesCounted(entries[..n], u);
      assert Pairs(entries) == Pairs(entries[..n]) + [UniqueRef(entries[n].ecosystem, entries[n].reference)];
    }
  }

  lemma Snoc<T>(s: seq<T>, x: T)
    ensures (s + [x])[..|s|] == s && (s + [x])[|s|] == x && |s + [x]| == |s| + 1
  {
  }

  ghost predicate Tallied(seen: seq<ToolEntry>, order: seq<UniqueRef>, counts: map<UniqueRef, nat>) {
    && order == Unique(seen)
    && counts.Keys == Refs(seen)
    && forall u :: u in counts ==> counts[u] == Occurrences(seen, u)
  }

  lemma TallyOne(seen: seq<ToolEntry>, order: seq<UniqueRef>, counts: map<UniqueRef, nat>, t: ToolEntry)
    requires Tallied(seen, order, counts)
    ensures var u := RefOf(t);
            Tallied(seen + [t], if u in counts then order else order + [u],
                    counts[u := (if u in counts then counts[u] else 0) + 1])
  {
    Snoc(seen, t);
    UniqueIsDistinct(seen);
    CountedIffPresent(seen, RefOf(t));
    assert Refs(seen + [t]) == Refs(seen) + {RefOf(t)};
    assert RefOf(t) in order <==> RefOf(t) in set u | u in Unique(seen);
  }

  /** The innermost loop of collectUniqueRefs: the tools of one step, after the ones in seen. */
  method TallyTools(tools: seq<ToolEntry>, ghost seen: seq<ToolEntry>, before: seq<UniqueRef>,
                    known: map<UniqueRef, nat>)
    returns (order: seq<UniqueRef>, counts: map<UniqueRef, nat>)
    requires Tallied(seen, before, known)
    ensures Tallied(seen + tools, order, counts)
  {
    order, counts := before, known;
    assert seen + tools[..0] == seen;
    for k := 0 to |tools|
      invariant Tallied(seen + tools[..k], order, counts)
    {
      assert seen + tools[..k + 1] == (seen + tools[..k]) + [tools[k]];
      TallyOne(seen + tools[..k], order, counts, tools[k]);
      var u := RefOf(tools[k]);
      if u !in counts {
        order := order + [u];
      }
      counts := counts[u := (if u in counts then counts[u] else 0) + 1];
    }
    assert tools[..|tools|] == tools;
  }

  /** collectUniqueRefs: the distinct pairs, and how many entries each one covers. */
  method CollectUniqueRefs(lf: Lockfile) returns (order: seq<UniqueRef>, counts: map<UniqueRef, nat>)
    ensures order == Unique(Entries(lf)) && Distinct(order)
    ensures forall u :: u in order <==> u in Pairs(Entries(lf))
    ensures forall i, j :: 0 <= i < j < |order| ==> ComesLater(Pairs(Entries(lf)), order[j], order[i])
    ensures forall u :: u in counts <==> u in Pairs(Entries(lf))
    ensures forall u :: u in counts ==> counts[u] == multiset(Pairs(Entries(lf)))[u]
  {
    order, counts := [], map[];
    var ps := lf.pipelines.All();
    for i := 0 to |ps|
      invariant Tallied(PipelineTools(ps, i), order, counts)
    {
      StepEnds(ps, i);
      var steps := ps[i].steps.All();
      for j := 0 to |steps|
        invariant Tallied(AtStep(ps, i, j), order, counts)
      {
        StepNext(ps, i, j);
        order, counts := TallyTools(steps[j].tools.All(), AtStep(ps, i, j), order, counts);
      }
    }
    TallyMeans(Entries(lf), order, counts);
  }

  lemma TallyMeans(entries: seq<ToolEntry>, order: seq<UniqueRef>, counts: map<UniqueRef, nat>)
    requires Tallied(entries, order, counts)
    ensures Distinct(order) && forall u :: u in order <==> u in Pairs(entries)
    ensures forall i, j :: 0 <= i < j < |order| ==> ComesLater(Pairs(entries), order[j], order[i])
    ensures forall u :: u in counts <==> u in Pairs(entries)
    ensures forall u :: u in counts ==> counts[u] == multiset(Pairs(entries))[u]
  {
    UniqueIsDistinct(entries);
    UniquePairs(entries);
    forall u ensures u in Refs(entries) <==> u in Pairs(entries) {
      PairListed(entries, u);
    }
    forall i, j | 0 <= i < j < |order| ensures ComesLater(Pairs(entries), order[j], order[i]) {
      UniqueInOrder(entries, i, j);
    }
    forall u | u in counts ensures counts[u] == multiset(Pairs(entries))[u] {
      OccurrencesCounted(entries, u);
    }
  }

  // ---------------------------------------------------------------- comparison after concurrent resolution

  datatype Finding = Matching | Drifted(drift: DriftResult) | Unverified(warning: Warning)

  /** What an entry amounts to, given the answer for its reference. */
  function Judge(t: ToolEntry, got: RefResult): Finding {
    match got
    case Failed(e) => Unverified(Unresolved(t.reference, e))
    case Answered(live, info) =>
      if info.stale then Unverified(StaleData(t.reference, info.age))
      else if live.hash != t.hash then Drifted(DriftResult(t.ecosystem, t.reference, t.hash, live.hash, SevCritical))
      else Matching
  }

  ghost predicate Covers(entries: seq<ToolEntry>, resolved: map<UniqueRef, RefResult>) {
    Refs(entries) <= resolved.Keys
  }

  /** The finding for every entry, in order. */
  function Findings(entries: seq<ToolEntry>, resolved: map<UniqueRef, RefResult>): (f: seq<Finding>)
    requires Covers(entries, resolved)
    ensures |f| == |entries|
    ensures forall i :: 0 <= i < |f| ==>
              RefOf(entries[i]) in resolved && f[i] == Judge(entries[i], resolved[RefOf(entries[i])])
  {
    if entries == [] then []
    else
      var n := |entries| - 1;
      assert RefOf(entries[n]) in Refs(entries) && Refs(entries[..n]) <= Refs(entries);
      Findings(entries[..n], resolved) + [Judge(entries[n], resolved[RefOf(entries[n])])]
  }

  function DriftsOf(findings: seq<Finding>): seq<DriftResult> {
    if findings == [] then []
    else
      var n := |findings| - 1;
      DriftsOf(findings[..n]) + if findings[n].Drifted? then [findings[n].drift] else []
  }

  function WarningsOf(findings: seq<Finding>): seq<Warning> {
    if findings == [] then []
    else
      var n := |findings| - 1;
      WarningsOf(findings[..n]) + if findings[n].Unverified? then [findings[n].warning] else []
  }

  /** Nothing is added, dropped or reordered: the two lists are the drifts and the warnings of the findings. */
  lemma {:induction false} DriftsAndWarnings(findings: seq<Finding>)
    ensures forall d :: d in DriftsOf(findings) <==> Drifted(d) in findings
    ensures forall w :: w in WarningsOf(findings) <==> Unverified(w) in findings
  {
    if findings != [] {
      var n := |findings| - 1;
      DriftsAndWarnings(findings[..n]);
      assert findings == findings[..n] + [findings[n]];
    }
  }

  /** In the order of the findings. */
  lemma {:induction false} DriftsInOrder(a: seq<Finding>, b: seq<Finding>)
    ensures DriftsOf(a + b) == DriftsOf(a) + DriftsOf(b) && WarningsOf(a + b) == WarningsOf(a) + WarningsOf(b)
  {
    if b == [] {
      assert a + b == a;
    } else {
      var n := |b| - 1;
      DriftsInOrder(a, b[..n]);
      assert (a + b)[..|a| + n] == a + b[..n] && (a + b)[|a| + n] == b[n];
    }
  }

  lemma OneFinding(f: Finding)
    ensures DriftsOf([f]) == (if f.Drifted? then [f.drift] else [])
    ensures WarningsOf([f]) == (if f.Unverified? then [f.warning] else [])
  {
    assert [f][..0] == [];
  }

  function MatchesIn(findings: seq<Finding>): nat {
    if findings == [] then 0
    else
      var n := |findings| - 1;
      MatchesIn(findings[..n]) + if findings[n].Matching? then 1 else 0
  }

  ghost predicate Compared(seen: seq<ToolEntry>, resolved: map<UniqueRef, RefResult>,
                           results: seq<DriftResult>, warnings: seq<Warning>) {
    && Covers(seen, resolved)
    && results == DriftsOf(Findings(seen, resolved))
    && warnings == WarningsOf(Findings(seen, resolved))
  }

  lemma CompareOne(seen: seq<ToolEntry>, resolved: map<UniqueRef, RefResult>,
                   results: seq<DriftResult>, warnings: seq<Warning>, t: ToolEntry)
    requires Compared(seen, resolved, results, warnings) && RefOf(t) in resolved
    ensures var f := Judge(t, resolved[RefOf(t)]);
            Compared(seen + [t], resolved, if f.Drifted? then results + [f.drift] else results,
                                           if f.Unverified? then warnings + [f.warning] else warnings)
  {
  }

  lemma CompareAt(lf: Lockfile, i: nat, j: nat, k: nat, resolved: map<UniqueRef, RefResult>,
                  results: seq<DriftResult>, warnings: seq<Warning>, t: ToolEntry)
    requires var ps := lf.pipelines.All();
             i < |ps| && j < |ps[i].steps.All()| && k < |ps[i].steps.All()[j].tools.All()| &&
             ps[i].steps.All()[j].tools.All()[k] == t &&
             Compared(AtTool(ps, i, j, k), resolved, results, warnings)
    requires Covers(Entries(lf), resolved)
    ensures RefOf(t) in resolved
    ensures var f := Judge(t, resolved[RefOf(t)]);
            Compared(AtTool(lf.pipelines.All(), i, j, k + 1), resolved,
                     if f.Drifted? then results + [f.drift] else results,
                     if f.Unverified? then warnings + [f.warning] else warnings)
  {
    CurrentIsEntry(lf, i, j, k);
    ToolNext(lf.pipelines.All(), i, j, k);
    CompareOne(AtTool(lf.pipelines.All(), i, j, k), resolved, results, warnings, t);
  }

  /** The comparing half of detectDriftWithPartialFailure. */
  method CompareEntries(lf: Lockfile, resolved: map<UniqueRef, RefResult>)
    returns (results: seq<DriftResult>, warnings: seq<Warning>)
    requires Covers(Entries(lf), resolved)
    ensures results == DriftsOf(Findings(Entries(lf), resolved))
    ensures warnings == WarningsOf(Findings(Entries(lf), resolved))
  {
    results, warnings := [], [];
    var ps := lf.pipelines.All();
    for i := 0 to |ps|
      invariant Compared(PipelineTools(ps, i), resolved, results, warnings)
    {
      results, warnings := CompareSteps(lf, i, resolved, results, warnings);
    }
  }

  /** Its two inner loops: the steps of pipeline i. */
  method CompareSteps(lf: Lockfile, i: nat, resolved: map<UniqueRef, RefResult>, drifts: seq<DriftResult>,
                      unverified: seq<Warning>)
    returns (results: seq<DriftResult>, warnings: seq<Warning>)
    requires Covers(Entries(lf), resolved)
    requires i < |lf.pipelines.All()| && Compared(PipelineTools(lf.pipelines.All(), i), resolved, drifts, unverified)
    ensures Compared(PipelineTools(lf.pipelines.All(), i + 1), resolved, results, warnings)
  {
    results, warnings := drifts, unverified;
    ghost var ps := lf.pipelines.All();
    var steps := lf.pipelines.All()[i].steps.All();
    StepEnds(ps, i);
    for j := 0 to |steps|
      invariant Compared(AtStep(ps, i, j), resolved, results, warnings)
    {
      ToolEnds(ps, i, j);
      var tools := steps[j].tools.All();
      for k := 0 to |tools|
        invariant Compared(AtTool(ps, i, j, k), resolved, results, warnings)
      {
        CompareAt(lf, i, j, k, resolved, results, warnings, tools[k]);
        results, warnings := CompareTool(tools[k], resolved[RefOf(tools[k])], results, warnings);
      }
    }
  }

  /** The body of that loop: one entry against the answer for its reference. */
  method CompareTool(tool: ToolEntry, got: RefResult, drifts: seq<DriftResult>, unverified: seq<Warning>)
    returns (results: seq<DriftResult>, warnings: seq<Warning>)
    ensures var f := Judge(tool, got);
            && results == (if f.Drifted? then drifts + [f.drift] else drifts)
            && warnings == (if f.Unverified? then unverified + [f.warning] else unverified)
  {
    results, warnings := drifts, unverified;
    match got {
      case Failed(e) =>
        warnings := warnings + [Unresolved(tool.reference, e)];
      case Answered(live, info) =>
        if info.stale {
          warnings := warnings + [StaleData(tool.reference, info.age)];
        } else if live.hash != tool.hash {
          results := results + [DriftResult(tool.ecosystem, tool.reference, tool.hash, live.hash, SevCritical)];
        }
    }
  }

  // ---------------------------------------------------------------- the sequential comparison

  /** DetectDrift over the first n entries: one resolution per entry, entries of an ecosystem without a
      resolver skipped, the first error ends it. */
  function SequentialDrift(entries: seq<ToolEntry>, n: nat, resolvers: set<string>,
                           resolve: UniqueRef -> Result<Resolution, ClientError>): Result<seq<DriftResult>, ClientError>
    requires n <= |entries|
  {
    if n == 0 then Ok([])
    else
      match SequentialDrift(entries, n - 1, resolvers, resolve)
      case Err(e) => Err(e)
      case Ok(found) =>
        var t := entries[n - 1];
        if t.ecosystem !in resolvers then Ok(found)
        else
          match resolve(RefOf(t))
          case Err(e) => Err(e)
          case Ok(live) =>
            Ok(if live.hash != t.hash
               then found + [DriftResult(t.ecosystem, t.reference, t.hash, live.hash, SevCritical)] else found)
  }

  /** The drift of an entry that has a resolver, against what it resolves to. */
  ghost predicate DriftsTo(t: ToolEntry, resolvers: set<string>,
                           resolve: UniqueRef -> Result<Resolution, ClientError>, d: DriftResult) {
    && t.ecosystem in resolvers && resolve(UniqueRef(t.ecosystem, t.reference)).Ok?
    && var live := resolve(UniqueRef(t.ecosystem, t.reference)).value;
       live.hash != t.hash && d == DriftResult(t.ecosystem, t.reference, t.hash, live.hash, SevCritical)
  }

  ghost predicate Fails(t: ToolEntry, resolvers: set<string>, resolve: UniqueRef -> Result<Resolution, ClientError>) {
    t.ecosystem in resolvers && resolve(UniqueRef(t.ecosystem, t.reference)).Err?
  }

  /** The sequential comparison succeeds exactly if every entry with a resolver resolves, and then finds exactly the
      drifts of those entries; otherwise its error is that of the first that does not. */
  lemma {:induction false} SequentialExactly(entries: seq<ToolEntry>, n: nat, resolvers: set<string>,
                                             resolve: UniqueRef -> Result<Resolution, ClientError>)
    requires n <= |entries|
    ensures var r := SequentialDrift(entries, n, resolvers, resolve);
            && (r.Ok? <==> forall i :: 0 <= i < n ==> !Fails(entries[i], resolvers, resolve))
            && (r.Ok? ==> forall d :: d in r.value <==>
                  exists i :: 0 <= i < n && DriftsTo(entries[i], resolvers, resolve, d))
            && (r.Err? ==> exists i :: 0 <= i < n && FirstFailure(entries, i, resolvers, resolve, r.error))
  {
    if n > 0 {
      SequentialExactly(entries, n - 1, resolvers, resolve);
      assert SequentialDrift(entries, n - 1, resolvers, resolve).Ok? &&
             SequentialDrift(entries, n, resolvers, resolve).Err? ==>
               FirstFailure(entries, n - 1, resolvers, resolve, SequentialDrift(entries, n, resolvers, resolve).error);
    }
  }

  ghost predicate FirstFailure(entries: seq<ToolEntry>, i: nat, resolvers: set<string>,
                               resolve: UniqueRef -> Result<Resolution, ClientError>, e: ClientError) {
    && i < |entries| && Fails(entries[i], resolvers, resolve)
    && resolve(UniqueRef(entries[i].ecosystem, entries[i].reference)) == Err(e)
    && forall j :: 0 <= j < i ==> !Fails(entries[j], resolvers, resolve)
  }

  lemma {:induction false} SequentialErrorStays(entries: seq<ToolEntry>, m: nat, n: nat, resolvers: set<string>,
                                                resolve: UniqueRef -> Result<Resolution, ClientError>)
    requires m <= n <= |entries| && SequentialDrift(entries, m, resolvers, resolve).Err?
    ensures SequentialDrift(entries, n, resolvers, resolve) == SequentialDrift(entries, m, resolvers, resolve)
  {
    if m < n {
      SequentialErrorStays(entries, m, n - 1, resolvers, resolve);
    }
  }

  lemma SequentialNext(all: seq<ToolEntry>, n: nat, resolvers: set<string>,
                       resolve: UniqueRef -> Result<Resolution, ClientError>, results: seq<DriftResult>)
    requires n < |all| && SequentialDrift(all, n, resolvers, resolve) == Ok(results)
    ensures var t := all[n];
            SequentialDrift(all, n + 1, resolvers, resolve) ==
            if t.ecosystem !in resolvers then Ok(results)
            else if resolve(RefOf(t)).Err? then Err(resolve(RefOf(t)).error)
            else if resolve(RefOf(t)).value.hash == t.hash then Ok(results)
            else
              var hash := resolve(RefOf(t)).value.hash;
              Ok(results + [DriftResult(t.ecosystem, t.reference, t.hash, hash, SevCritical)])
  {
  }

  ghost predicate Standing(all: seq<ToolEntry>, seen: seq<ToolEntry>, resolvers: set<string>,
                           resolve: UniqueRef -> Result<Resolution, ClientError>, results: seq<DriftResult>) {
    |seen| <= |all| && SequentialDrift(all, |seen|, resolvers, resolve) == Ok(results)
  }

  lemma PassedStep(lf: Lockfile, i: nat, j: nat)
    requires var ps := lf.pipelines.All(); i < |ps| && j < |ps[i].steps.All()|
    ensures var ps := lf.pipelines.All();
            Prefix(AtStep(ps, i, j) + ps[i].steps.All()[j].tools.All(), Entries(lf))
  {
    var ps := lf.pipelines.All();
    var tools := ps[i].steps.All()[j].tools.All();
    PassedIsPrefix(lf, i, j, |tools|);
    assert tools[..|tools|] == tools;
  }

  /** The innermost loop of DetectDrift: the tools of one step, after the ones in seen. */
  method DriftOfTools(tools: seq<ToolEntry>, ghost all: seq<ToolEntry>, ghost seen: seq<ToolEntry>,
                      resolvers: set<string>,
                      resolve: UniqueRef -> Result<Resolution, ClientError>, before: seq<DriftResult>)
    returns (r: Result<seq<DriftResult>, ClientError>)
    requires Prefix(seen + tools, all) && Standing(all, seen, resolvers, resolve, before)
    ensures r.Ok? ==> Standing(all, seen + tools, resolvers, resolve, r.value)
    ensures r.Err? ==> r == SequentialDrift(all, |all|, resolvers, resolve)
  {
    var results := before;
    for k := 0 to |tools|
      invariant SequentialDrift(all, |seen| + k, resolvers, resolve) == Ok(results)
    {
      var tool := tools[k];
      ghost var n := |seen| + k;
      assert all[n] == (seen + tools)[n] == tool;
      SequentialNext(all, n, resolvers, resolve, results);
      if tool.ecosystem in resolvers {
        var live := resolve(RefOf(tool));
        if live.Err? {
          SequentialErrorStays(all, n + 1, |all|, resolvers, resolve);
          return Err(live.error);
        }
        if live.value.hash != tool.hash {
          results := results + [DriftResult(tool.ecosystem, tool.reference, tool.hash, live.value.hash, SevCritical)];
        }
      }
    }
    return Ok(results);
  }

  /** manifest.DetectDrift over deterministic resolvers. */
  method DetectDrift(lf: Lockfile, resolvers: set<string>, resolve: UniqueRef -> Result<Resolution, ClientError>)
    returns (r: Result<seq<DriftResult>, ClientError>)
    ensures r == SequentialDrift(Entries(lf), |Entries(lf)|, resolvers, resolve)
  {
    var results: seq<DriftResult> := [];
    ghost var all := Entries(lf);
    var ps := lf.pipelines.All();
    for i := 0 to |ps|
      invariant Standing(all, PipelineTools(ps, i), resolvers, resolve, results)
    {
      StepEnds(ps, i);
      var steps := ps[i].steps.All();
      for j := 0 to |steps|
        invariant Standing(all, AtStep(ps, i, j), resolvers, resolve, results)
      {
        PassedStep(lf, i, j);
        StepNext(ps, i, j);
        r := DriftOfTools(steps[j].tools.All(), all, AtStep(ps, i, j), resolvers, resolve, results);
        if r.Err? {
          return;
        }
        results := r.value;
      }
    }
    return Ok(results);
  }
}
