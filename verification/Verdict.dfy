/** The counting and verdict part of doCheckDetailed, and the exit codes. */
module Verdict {
  import opened Wrappers
  import opened Platform
  import opened Manifest
  import opened ResolvePool
  import opened Check

  const EXIT_CLEAN := 0
  const EXIT_FINDING := 1
  const EXIT_OPERATIONAL := 2

  /** An error: a plain one, or one that wraps another, or several. */
  datatype Error =
    | Plain(message: string)
    | Wrapped(message: string, inner: Error)
    | Joined(message: string, inners: seq<Error>)
    | OperationalError(inner: Error)
    | ReportedError(code: int, inner: Error)

  /** errors.As for *reportedError: the first one met, depth first. */
  function FirstReported(e: Error): Option<int>
    decreases e
  {
    match e
    case Plain(_) => None
    case Wrapped(_, inner) => FirstReported(inner)
    case Joined(_, inners) => FirstReportedAmong(inners)
    case OperationalError(inner) => FirstReported(inner)
    case ReportedError(code, _) => Some(code)
  }

  function FirstReportedAmong(es: seq<Error>): Option<int>
    decreases es
  {
    if es == [] then None
    else
      match FirstReported(es[0])
      case Some(code) => Some(code)
      case None => FirstReportedAmong(es[1..])
  }

  /** errors.As for *OperationalError. */
  predicate HasOperational(e: Error)
    decreases e
  {
    match e
    case Plain(_) => false
    case Wrapped(_, inner) => HasOperational(inner)
    case Joined(_, inners) => exists i :: 0 <= i < |inners| && HasOperational(inners[i])
    case OperationalError(_) => true
    case ReportedError(_, inner) => HasOperational(inner)
  }

  function ExitCodeFor(err: Option<Error>): int {
    match err
    case None => EXIT_CLEAN
    case Some(e) =>
      match FirstReported(e)
      case Some(code) => code
      case None => if HasOperational(e) then EXIT_OPERATIONAL else EXIT_FINDING
  }

  /** What an error carries that decides the exit code, in the order in which wrapping lists it. */
  datatype Mark = Operational | Code(code: int)

  function Marks(e: Error): seq<Mark>
    decreases e
  {
    match e
    case Plain(_) => []
    case Wrapped(_, inner) => Marks(inner)
    case Joined(_, inners) => MarksAmong(inners)
    case OperationalError(inner) => [Operational] + Marks(inner)
    case ReportedError(code, inner) => [Code(code)] + Marks(inner)
  }

  function MarksAmong(es: seq<Error>): seq<Mark>
    decreases es
  {
    if es == [] then [] else Marks(es[0]) + MarksAmong(es[1..])
  }

  /** The first code of the list is this one. */
  ghost predicate LeadsWith(ms: seq<Mark>, code: int) {
    exists k :: 0 <= k < |ms| && ms[k] == Code(code) && forall i :: 0 <= i < k ==> !ms[i].Code?
  }

  ghost predicate NoCode(ms: seq<Mark>) { forall i :: 0 <= i < |ms| ==> !ms[i].Code? }

  lemma LeadsInJoined(a: seq<Mark>, b: seq<Mark>, code: int)
    ensures NoCode(a + b) <==> NoCode(a) && NoCode(b)
    ensures LeadsWith(a, code) ==> LeadsWith(a + b, code)
    ensures NoCode(a) && LeadsWith(b, code) ==> LeadsWith(a + b, code)
  {
    var ms := a + b;
    assert forall i :: 0 <= i < |b| ==> ms[|a| + i] == b[i];
    assert forall i :: 0 <= i < |a| ==> ms[i] == a[i];
    if LeadsWith(a, code) {
      var k :| 0 <= k < |a| && a[k] == Code(code) && forall i :: 0 <= i < k ==> !a[i].Code?;
      assert ms[k] == Code(code);
    }
    if NoCode(a) && LeadsWith(b, code) {
      var k :| 0 <= k < |b| && b[k] == Code(code) && forall i :: 0 <= i < k ==> !b[i].Code?;
      assert ms[|a| + k] == Code(code) && forall i :: |a| <= i < |a| + k ==> ms[i] == b[i - |a|];
    }
  }

  lemma {:induction false} ReportedLeads(e: Error)
    ensures match FirstReported(e) case Some(code) => LeadsWith(Marks(e), code) case None => NoCode(Marks(e))
    ensures HasOperational(e) ==> Operational in Marks(e)
    ensures Operational in Marks(e) && FirstReported(e).None? ==> HasOperational(e)
    decreases e
  {
    match e
    case Plain(_) =>
    case Wrapped(_, inner) => ReportedLeads(inner);
    case Joined(_, inners) => ReportedLeadsAmong(inners);
    case OperationalError(inner) =>
      ReportedLeads(inner);
      LeadsInJoined([Operational], Marks(inner), if FirstReported(inner).Some? then FirstReported(inner).value else 0);
    case ReportedError(code, inner) =>
      ReportedLeads(inner);
      assert Marks(e)[0] == Code(code);
  }

  lemma {:induction false} ReportedLeadsAmong(es: seq<Error>)
    ensures match FirstReportedAmong(es)
            case Some(code) => LeadsWith(MarksAmong(es), code)
            case None => NoCode(MarksAmong(es))
    ensures (exists i :: 0 <= i < |es| && HasOperational(es[i])) ==> Operational in MarksAmong(es)
    ensures Operational in MarksAmong(es) && FirstReportedAmong(es).None? ==>
            exists i :: 0 <= i < |es| && HasOperational(es[i])
    decreases es
  {
    if es != [] {
      var head, tail := es[0], es[1..];
      ReportedLeads(head);
      ReportedLeadsAmong(tail);
      var first := if FirstReported(head).Some? then FirstReported(head) else FirstReportedAmong(tail);
      LeadsInJoined(Marks(head), MarksAmong(tail), if first.Some? then first.value else 0);
      assert forall i :: 0 < i < |es| ==> es[i] == tail[i - 1];
      if i :| 0 <= i < |tail| && HasOperational(tail[i]) {
        assert HasOperational(es[i + 1]);
      }
    }
  }

  /** The exit code of an error depends on its marks alone, listed depth first through all that it wraps: the
      first reported code decides, wherever it stands; failing that, an operational mark anywhere; failing that
      it is a finding. */
  lemma ExitCodeByMarks(e: Error)
    ensures NoCode(Marks(e)) ==>
              ExitCodeFor(Some(e)) == if Operational in Marks(e) then 2 else 1
    ensures forall code :: LeadsWith(Marks(e), code) ==> ExitCodeFor(Some(e)) == code
  {
    ReportedLeads(e);
    forall code | LeadsWith(Marks(e), code) ensures ExitCodeFor(Some(e)) == code {
      var k :| 0 <= k < |Marks(e)| && Marks(e)[k] == Code(code) && forall i :: 0 <= i < k ==> !Marks(e)[i].Code?;
    }
  }

  // ---------------------------------------------------------------- the verdict

  method CountTools(lf: Lockfile) returns (total: nat)
    ensures total == |Entries(lf)|
  {
    total := 0;
    var ps := lf.pipelines.All();
    for i := 0 to |ps|
      invariant total == |PipelineTools(ps, i)|
    {
      var steps := ps[i].steps.All();
      StepEnds(ps, i);
      for j := 0 to |steps|
        invariant total == |AtStep(ps, i, j)|
      {
        total := total + |steps[j].tools.All()|;
      }
    }
  }

  /** Steps 8 and 9 of doCheckDetailed: what is returned once the entries have been compared. */
  method Conclude(lf: Lockfile, results: seq<DriftResult>, warnings: seq<Warning>, selectionChanges: nat)
    returns (verified: int, err: Option<Error>)
    ensures verified == |Entries(lf)| - |warnings|
    ensures ExitCodeFor(err) ==
            if verified <= 0 && Entries(lf) != [] then 2
            else if results != [] then 1
            else if warnings != [] then 2
            else if selectionChanges > 0 then 1
            else 0
  {
    var total := CountTools(lf);
    verified := total - |warnings|;
    if verified <= 0 && total > 0 {
      return verified, Some(OperationalError(Plain("verification failed")));
    }
    if |results| == 0 {
      if |warnings| > 0 {
        return verified, Some(OperationalError(Plain("incomplete verification")));
      }
      if selectionChanges > 0 {
        return verified, Some(Plain("dependency change(s) outside the reviewed baseline"));
      }
      return verified, None;
    }
    return verified, Some(Plain("drift detected"));
  }

  // ---------------------------------------------------------------- partition

  /** Drifted, unverified and matching entries partition the entries. */
  lemma {:induction false} Partition(findings: seq<Finding>)
    ensures |DriftsOf(findings)| + |WarningsOf(findings)| + MatchesIn(findings) == |findings|
  {
    if findings != [] {
      Partition(findings[..|findings| - 1]);
    }
  }

  lemma {:induction false} EmptyMeansNone(findings: seq<Finding>)
    ensures DriftsOf(findings) == [] <==> forall i :: 0 <= i < |findings| ==> !findings[i].Drifted?
    ensures WarningsOf(findings) == [] <==> forall i :: 0 <= i < |findings| ==> !findings[i].Unverified?
  {
    if findings != [] {
      var n := |findings| - 1;
      EmptyMeansNone(findings[..n]);
      assert forall i :: 0 <= i < n ==> findings[i] == findings[..n][i];
    }
  }

  /** What the exit code should be, read off the findings and the selection. */
  function ExpectedExit(findings: seq<Finding>, selectionChanges: nat): int {
    if exists i :: 0 <= i < |findings| && findings[i].Drifted? then 1
    else if exists i :: 0 <= i < |findings| && findings[i].Unverified? then 2
    else if selectionChanges > 0 then 1
    else 0
  }

  /** Drift is never masked: any drifted entry leaves the verified count positive, so the branch for
      "nothing verified" is not taken. */
  lemma DriftIsCountedVerified(findings: seq<Finding>)
    requires DriftsOf(findings) != []
    ensures |findings| - |WarningsOf(findings)| > 0
  {
    Partition(findings);
  }

  /** The comparison and the verdict together: 1 for any drift, else 2 for any unverified entry, else 1 for
      a changed selection, else 0. */
  method CheckResolved(lf: Lockfile, resolved: map<UniqueRef, RefResult>, selectionChanges: nat)
    returns (verified: int, err: Option<Error>)
    requires Check.Covers(Entries(lf), resolved)
    ensures verified == |Entries(lf)| - |WarningsOf(Findings(Entries(lf), resolved))|
    ensures ExitCodeFor(err) == ExpectedExit(Findings(Entries(lf), resolved), selectionChanges)
  {
    var results, warnings := CompareEntries(lf, resolved);
    verified, err := Conclude(lf, results, warnings, selectionChanges);
    ghost var findings := Findings(Entries(lf), resolved);
    EmptyMeansNone(findings);
    Partition(findings);
  }
}
