/** Safety, progress and termination of every run of the worker pool, cancelled at any point or not. */
module PoolRuns {
  import opened Wrappers
  import opened Platform
  import opened ResolvePool

  lemma StartSafe(c: Config, s: State)
    requires Start(c, s)
    ensures Safe(c, s)
  {
    NoneTaken(s.pcs);
    assert WrittenBy(c, s.pcs) == {};
  }

  lemma {:induction false} RunSafe(c: Config, s: State, acts: seq<Action>)
    requires Distinct(c.refs) && Safe(c, s) && Schedule(c, s, acts)
    ensures Safe(c, Run(c, s, acts))
    decreases |acts|
  {
    if acts != [] {
      StepSafe(c, s, acts[0]);
      RunSafe(c, Apply(c, s, acts[0]), acts[1..]);
    }
  }

  function SlotOwners(pcs: seq<PC>): set<nat> {
    set w: nat | w < |pcs| && HoldsSlot(pcs[w])
  }

  lemma {:induction false} OwnersAreCounted(pcs: seq<PC>)
    ensures |SlotOwners(pcs)| == SlotsTaken(pcs)
  {
    if pcs != [] {
      var n := |pcs| - 1;
      OwnersAreCounted(pcs[..n]);
      assert SlotOwners(pcs) == SlotOwners(pcs[..n]) + if HoldsSlot(pcs[n]) then {n} else {};
    } else {
      assert SlotOwners(pcs) == {};
    }
  }

  function Asked(requests: seq<Request>, u: UniqueRef): nat { multiset(requests)[Single(u)] }

  lemma {:induction false} DistinctOnce<T>(s: seq<T>, x: T)
    requires Distinct(s)
    ensures multiset(s)[x] <= 1
  {
    if s != [] {
      var n := |s| - 1;
      DistinctOnce(s[..n], x);
      assert s == s[..n] + [s[n]];
      assert s[n] !in s[..n];
    }
  }

  /** In every run at most eight workers are between acquiring and releasing a slot, and each distinct
      reference costs one single request at most. */
  lemma PoolSafety(c: Config, s: State, acts: seq<Action>, u: UniqueRef)
    requires Distinct(c.refs) && Start(c, s) && Schedule(c, s, acts)
    ensures |SlotOwners(Run(c, s, acts).pcs)| <= 8
    ensures Asked(Run(c, s, acts).requests, u) <= 1
  {
    StartSafe(c, s);
    RunSafe(c, s, acts);
    OwnersAreCounted(Run(c, s, acts).pcs);
    DistinctOnce(Run(c, s, acts).requests, Single(u));
  }

  /** No deadlock: until every worker is done, some step other than a cancellation is enabled. */
  lemma Progress(c: Config, s: State, acts: seq<Action>)
    requires Distinct(c.refs) && Start(c, s) && Schedule(c, s, acts)
    requires !Finished(Run(c, s, acts))
    ensures exists a: Action :: !a.Cancel? && Enabled(c, Run(c, s, acts), a)
  {
    StartSafe(c, s);
    RunSafe(c, s, acts);
    var t := Run(c, s, acts);
    if t.pending != {} {
      var e :| e in t.pending;
      assert Enabled(c, t, AskBatch(e, 0, Err(Unavailable)));
    } else if w :| 0 <= w < |t.pcs| && !t.pcs[w].Done? && !t.pcs[w].Ready? {
      assert Enabled(c, t, Go(w, 0, false, Err(Unavailable)));
    } else {
      NoneTaken(t.pcs);
      var w :| 0 <= w < |t.pcs| && !t.pcs[w].Done?;
      assert Enabled(c, t, Go(w, 0, false, Err(Unavailable)));
    }
  }

  // ---------------------------------------------------------------- every run ends

  function StepsLeft(pc: PC): nat {
    match pc
    case Ready => 9
    case Holding => 8
    case Asking => 7
    case Fetching => 6
    case Storing(_) => 5
    case Noting(_) => 4
    case Reporting(_) => 3
    case Writing(_) => 2
    case Releasing => 1
    case GivingUp => 1
    case Done => 0
  }

  function TotalLeft(pcs: seq<PC>): nat {
    if pcs == [] then 0 else TotalLeft(pcs[..|pcs| - 1]) + StepsLeft(pcs[|pcs| - 1])
  }

  function Measure(s: State): nat {
    |s.pending| + TotalLeft(s.pcs) + if s.cancelled then 0 else 1
  }

  lemma {:induction false} TotalLeftAfter(pcs: seq<PC>, w: nat, pc: PC)
    requires w < |pcs|
    ensures TotalLeft(pcs[w := pc]) == TotalLeft(pcs) - StepsLeft(pcs[w]) + StepsLeft(pc)
  {
    var n := |pcs| - 1;
    if w == n {
      assert pcs[w := pc][..n] == pcs[..n];
    } else {
      assert pcs[w := pc][..n] == pcs[..n][w := pc];
      TotalLeftAfter(pcs[..n], w, pc);
    }
  }

  lemma {:induction false} TotalLeftBound(pcs: seq<PC>)
    ensures TotalLeft(pcs) <= 9 * |pcs|
  {
    if pcs != [] {
      TotalLeftBound(pcs[..|pcs| - 1]);
    }
  }

  lemma StepDecreases(c: Config, s: State, a: Action)
    requires Enabled(c, s, a)
    ensures Measure(Apply(c, s, a)) < Measure(s)
  {
    match a
    case Cancel =>
    case AskBatch(e, _, _) =>
      assert |s.pending - {e}| < |s.pending|;
    case Go(w, took, giveUp, reply) =>
      var s1 := s.(now := s.now + took);
      NextIsNearer(c, s1, w, giveUp, reply);
      TotalLeftAfter(s.pcs, w, NextPC(c, s1, w, giveUp, reply));
      ApplyGo(c, s, a);
  }

  lemma NextIsNearer(c: Config, s: State, w: nat, giveUp: bool, reply: Result<Response, ClientError>)
    requires w < |s.pcs| && w < |c.refs| && !s.pcs[w].Done?
    ensures StepsLeft(NextPC(c, s, w, giveUp, reply)) < StepsLeft(s.pcs[w])
  {
  }

  /** A run takes at most one step per batch, nine per reference and one for the cancellation. */
  lemma {:induction false} RunIsBounded(c: Config, s: State, acts: seq<Action>)
    requires Schedule(c, s, acts)
    ensures |acts| <= Measure(s) <= |s.pending| + 9 * |s.pcs| + 1
    decreases |acts|
  {
    TotalLeftBound(s.pcs);
    if acts != [] {
      StepDecreases(c, s, acts[0]);
      RunIsBounded(c, Apply(c, s, acts[0]), acts[1..]);
    }
  }

  /** When wg.Wait returns, the result map has exactly the references as its keys and every slot is free. */
  lemma FinishedIsComplete(c: Config, s: State, acts: seq<Action>)
    requires Distinct(c.refs) && Start(c, s) && Schedule(c, s, acts) && Finished(Run(c, s, acts))
    ensures Run(c, s, acts).results.Keys == set u | u in c.refs
    ensures Run(c, s, acts).slots == 0
  {
    StartSafe(c, s);
    RunSafe(c, s, acts);
    var t := Run(c, s, acts);
    NoneTaken(t.pcs);
    forall u | u in c.refs ensures u in WrittenBy(c, t.pcs) {
      var w :| 0 <= w < |c.refs| && c.refs[w] == u;
      assert HasWritten(t.pcs[w]);
    }
  }
}
