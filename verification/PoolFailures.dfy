/** What becomes of failed requests: each is recorded as it failed, for the reference it was about. */
module PoolFailures {
  import opened Wrappers
  import opened Platform
  import opened ResolvePool
  import opened PoolRuns
  import opened PoolAnswers

  // ---------------------------------------------------------------- the records for the proofs are the replies

  /** Action i is a step of the worker for this reference. */
  ghost predicate StepFor(c: Config, acts: seq<Action>, i: nat, u: UniqueRef) {
    i < |acts| && acts[i].Go? && acts[i].worker < |c.refs| && c.refs[acts[i].worker] == u
  }

  /** Action i brought a usable batch item that answers this reference. */
  ghost predicate BatchBrought(acts: seq<Action>, i: nat, u: UniqueRef, r: Response) {
    i < |acts| && acts[i].AskBatch? && acts[i].items.Ok? &&
    BatchItem(u.ecosystem, u.reference, r, "") in acts[i].items.value && r.hash != ""
  }

  lemma {:induction false} RefusedByReply(c: Config, s: State, acts: seq<Action>, u: UniqueRef, e: ClientError)
    requires Schedule(c, s, acts) && (u, e) in Run(c, s, acts).refused && (u, e) !in s.refused
    ensures exists i: nat :: StepFor(c, acts, i, u) && acts[i].reply == Err(e)
    decreases |acts|
  {
    if acts != [] {
      var s', rest := Apply(c, s, acts[0]), acts[1..];
      if (u, e) in s'.refused {
        RefusedNow(c, s, acts[0], u, e);
        assert StepFor(c, acts, 0, u);
      } else {
        RefusedByReply(c, s', rest, u, e);
        var i: nat :| StepFor(c, rest, i, u) && rest[i].reply == Err(e);
        assert StepFor(c, acts, i + 1, u) && acts[i + 1] == rest[i];
      }
    }
  }

  lemma RefusedNow(c: Config, s: State, a: Action, u: UniqueRef, e: ClientError)
    requires Enabled(c, s, a) && (u, e) in Apply(c, s, a).refused && (u, e) !in s.refused
    ensures a.Go? && a.worker < |c.refs| && c.refs[a.worker] == u && a.reply == Err(e)
  {
  }

  lemma SentNow(c: Config, s: State, a: Action, u: UniqueRef, r: Response)
    requires Enabled(c, s, a) && (u, r) in Apply(c, s, a).sent && (u, r) !in s.sent
    ensures || (a.Go? && a.worker < |c.refs| && c.refs[a.worker] == u && a.reply == Ok(r))
            || BatchBrought([a], 0, u, r)
  {
  }

  /** Every answer on record came in some reply of the run, for exactly that reference. */
  lemma {:induction false} SentByReply(c: Config, s: State, acts: seq<Action>, u: UniqueRef, r: Response)
    requires Schedule(c, s, acts) && (u, r) in Run(c, s, acts).sent && (u, r) !in s.sent
    ensures exists i: nat :: (StepFor(c, acts, i, u) && acts[i].reply == Ok(r)) || BatchBrought(acts, i, u, r)
    decreases |acts|
  {
    if acts != [] {
      var s', rest := Apply(c, s, acts[0]), acts[1..];
      if (u, r) in s'.sent {
        SentNow(c, s, acts[0], u, r);
        assert StepFor(c, acts, 0, u) || BatchBrought(acts, 0, u, r);
      } else {
        SentByReply(c, s', rest, u, r);
        var i: nat :| (StepFor(c, rest, i, u) && rest[i].reply == Ok(r)) || BatchBrought(rest, i, u, r);
        assert acts[i + 1] == rest[i];
        assert StepFor(c, acts, i + 1, u) || BatchBrought(acts, i + 1, u, r);
      }
    }
  }

  // ---------------------------------------------------------------- no failure is lost or exchanged

  /** Worker w is about to record this failure, or has. */
  ghost predicate Carries(c: Config, s: State, w: nat, e: ClientError) {
    && w < |c.refs| && w < |s.pcs|
    && (|| s.pcs[w] == Writing(Failed(Client(e)))
        || (HasWritten(s.pcs[w]) && c.refs[w] in s.results && s.results[c.refs[w]] == Failed(Client(e))))
  }

  ghost predicate RefusalsKept(c: Config, s: State) {
    forall u, e :: (u, e) in s.refused ==> exists w: nat :: Carries(c, s, w, e) && c.refs[w] == u
  }

  lemma CarriesOn(c: Config, s: State, a: Action, w: nat, e: ClientError)
    requires Distinct(c.refs) && |s.pcs| == |c.refs| && Enabled(c, s, a) && Carries(c, s, w, e)
    ensures Carries(c, Apply(c, s, a), w, e)
  {
  }

  lemma NewlyRefused(c: Config, s: State, a: Action, u: UniqueRef, e: ClientError)
    requires |s.pcs| == |c.refs| && Enabled(c, s, a) && (u, e) in Apply(c, s, a).refused && (u, e) !in s.refused
    ensures Carries(c, Apply(c, s, a), a.worker, e) && c.refs[a.worker] == u
  {
  }

  lemma StepKeepsRefusals(c: Config, s: State, a: Action)
    requires Distinct(c.refs) && |s.pcs| == |c.refs| && RefusalsKept(c, s) && Enabled(c, s, a)
    ensures RefusalsKept(c, Apply(c, s, a)) && |Apply(c, s, a).pcs| == |c.refs|
  {
    var s' := Apply(c, s, a);
    forall u, e | (u, e) in s'.refused ensures exists w: nat :: Carries(c, s', w, e) && c.refs[w] == u {
      if (u, e) in s.refused {
        var w: nat :| Carries(c, s, w, e) && c.refs[w] == u;
        CarriesOn(c, s, a, w, e);
      } else {
        NewlyRefused(c, s, a, u, e);
      }
    }
  }

  lemma {:induction false} RunKeepsRefusals(c: Config, s: State, acts: seq<Action>)
    requires Distinct(c.refs) && |s.pcs| == |c.refs| && RefusalsKept(c, s) && Schedule(c, s, acts)
    ensures RefusalsKept(c, Run(c, s, acts))
    decreases |acts|
  {
    if acts != [] {
      StepKeepsRefusals(c, s, acts[0]);
      RunKeepsRefusals(c, Apply(c, s, acts[0]), acts[1..]);
    }
  }

  /** When the wait returns, a reference whose request failed has that failure as its result; and a failure of the
      client is the one its request failed with, or the end of the context in a cancelled run. */
  lemma FailuresAreRecorded(c: Config, s: State, acts: seq<Action>, u: UniqueRef, e: ClientError)
    requires Valid(c) && Start(c, s) && Schedule(c, s, acts) && WellLabelled(acts) && Finished(Run(c, s, acts))
    ensures var t := Run(c, s, acts);
            && ((u, e) in t.refused ==> u in t.results && t.results[u] == Failed(Client(e)))
            && (u in t.results && t.results[u] == Failed(Client(e)) ==>
                  (u, e) in t.refused || (e == ContextDone && t.cancelled))
  {
    RunKeepsRefusals(c, s, acts);
    var t := Run(c, s, acts);
    if u in t.results {
      ResultsAreGenuine(c, s, acts, u);
    }
  }
}
