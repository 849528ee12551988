/** The whole life of a baseline: built, signed, written, read, verified and checked. */
module Lifecycle {
  import opened Wrappers
  import opened Platform
  import opened Manifest
  import opened Json
  import opened Codec
  import opened Signing
  import opened Parser
  import opened Init
  import opened ResolvePool
  import opened PoolAnswers
  import opened Check
  import opened CheckTheorems
  import opened InitCheck
  import opened Selection
  import opened Verdict
  import AtomicWrite

  /** A lone call of WriteLockfile with this text, among whatever failures and crashes, has returned success. */
  ghost predicate Written(disk: AtomicWrite.Config, d: AtomicWrite.State, effects: seq<AtomicWrite.Action>,
                          text: string) {
    && disk.data == [text] && AtomicWrite.Start(disk, d) && AtomicWrite.Schedule(disk, d, effects)
    && var pcs := AtomicWrite.Run(disk, d, effects).pcs; |pcs| == 1 && pcs[0].Returned? && pcs[0].ok
  }

  /** The text of the target. */
  ghost predicate Holds(disk: AtomicWrite.Config, t: AtomicWrite.State, text: string) {
    disk.target in t.dir && t.dir[disk.target] in t.files && t.files[t.dir[disk.target]].content == text
  }

  /** A built lockfile holds no empty slices, so it is its own normal form. */
  lemma BuiltIsNormal(ws: seq<WorkflowFile>, resolved: map<string, Resolution>, at: string)
    ensures Normal(LockfileOf(ws, resolved, at)) == LockfileOf(ws, resolved, at)
  {
    var ps := LockfileOf(ws, resolved, at).pipelines;
    if ps.Of? {
      var items := ps.items;
      forall i | 0 <= i < |items| ensures NormalPipeline(items[i]) == items[i] {
        PipelineIsNormal(ws[i], resolved);
      }
      assert NormalPipelines(ps).items == items;
    }
  }

  lemma PipelineIsNormal(wf: WorkflowFile, resolved: map<string, Resolution>)
    ensures NormalPipeline(PipelineOf(wf, resolved)) == PipelineOf(wf, resolved)
  {
  }

  /** Such a call can be made wherever the target is free of other writers, whatever it holds. */
  lemma CanBeWritten(disk: AtomicWrite.Config, d: AtomicWrite.State, text: string, name: string)
    returns (effects: seq<AtomicWrite.Action>)
    requires disk.data == [text] && AtomicWrite.Start(disk, d) && name !in d.dir && name != disk.target
    ensures Written(disk, d, effects, text)
  {
    effects := AtomicWrite.Undisturbed(0, name, |text|);
    AtomicWrite.CanSucceed(disk, d, 0, name);
  }

  /** Only the signature tells a signed lockfile from the one before. */
  lemma SignedIsNormal(built: Lockfile, sign: seq<Token> -> Option<Reply>)
    requires Normal(built) == built && SignLockfile(built, sign).Some?
    ensures var lf := SignLockfile(built, sign).value; Normal(lf) == lf && Entries(lf) == Entries(built)
    ensures forall declared, ch ::
              IsChange(declared, SignLockfile(built, sign).value, ch) <==> IsChange(declared, built, ch)
  {
  }

  /** What was signed and written is at the target, reads back as itself, and verifies. */
  lemma WrittenReadsBack(built: Lockfile, crypto: Crypto, keys: seq<string>, sign: seq<Token> -> Option<Reply>,
                         render: seq<Token> -> string, lex: string -> seq<Token>,
                         disk: AtomicWrite.Config, d: AtomicWrite.State, effects: seq<AtomicWrite.Action>)
    requires Normal(built) == built && WellFormed(built)
    requires Signing.Genuine(crypto, keys, sign) && forall ts :: lex(render(ts)) == ts
    requires SignLockfile(built, sign).Some?
    requires var text := render(Encode(SignLockfile(built, sign).value));
             Written(disk, d, effects, text) && |text| <= MAX_LOCKFILE_BYTES
    ensures var lf := SignLockfile(built, sign).value;
            var text := render(Encode(lf));
            && Holds(disk, AtomicWrite.Run(disk, d, effects), text)
            && Readable(File(|text|, lex(text))) && Decode(lex(text)) == Some(lf)
            && VerifyLockfile(crypto, keys, lf) == Ok(())
  {
    var lf := SignLockfile(built, sign).value;
    SignedIsNormal(built, sign);
    SignedWrittenReadVerifies(crypto, keys, sign, built, |render(Encode(lf))|, []);
    AtomicWrite.LoneSuccessInstalls(disk, d, effects);
    assert Encode(lf) + [] == Encode(lf);
  }

  /** Init writes a baseline, rendered as text that lexes back to its tokens; later check reads the file at the
      target, with the same project and the same platform. It reads back as the very lockfile that was signed,
      its signature verifies against the pinned keys, the selection has not changed, and every clean run of the
      pool over it ends with exit code 0. */
  lemma BaselineLifecycle(ws: seq<WorkflowFile>, declared: seq<WorkflowFile>, truth: UniqueRef -> Response, at: string,
                          crypto: Crypto, keys: seq<string>, sign: seq<Token> -> Option<Reply>,
                          render: seq<Token> -> string, lex: string -> seq<Token>, disk: AtomicWrite.Config,
                          d: AtomicWrite.State, effects: seq<AtomicWrite.Action>, c: Config, s: State,
                          acts: seq<Action>)
    requires StepsCoverTools(ws) && ReferenceDeterminesEcosystem(ws) && SamePairs(ws, declared) && AlwaysFresh(truth)
    requires forall t :: t in AllTools(ws) ==> t.reference != "" && truth(AskedAs(ws, t.reference)).hash != ""
    requires Signing.Genuine(crypto, keys, sign) && forall ts :: lex(render(ts)) == ts
    requires SignLockfile(LockfileOf(ws, ResolutionsOf(ws, truth), at), sign).Some?
    requires var lf := SignLockfile(LockfileOf(ws, ResolutionsOf(ws, truth), at), sign).value;
             Written(disk, d, effects, render(Encode(lf))) && |render(Encode(lf))| <= MAX_LOCKFILE_BYTES
    requires PoolFor(LockfileOf(ws, ResolutionsOf(ws, truth), at), c) && CleanRun(c, s, acts, truth)
    ensures var lf := SignLockfile(LockfileOf(ws, ResolutionsOf(ws, truth), at), sign).value;
            var text := render(Encode(lf));
            && Holds(disk, AtomicWrite.Run(disk, d, effects), text)
            && Readable(File(|text|, lex(text))) && Decode(lex(text)) == Some(lf)
            && VerifyLockfile(crypto, keys, lf) == Ok(())
            && (forall ch :: !IsChange(declared, lf, ch))
            && Check.Covers(Entries(lf), Run(c, s, acts).results)
            && ExpectedExit(Findings(Entries(lf), Run(c, s, acts).results), 0) == 0
  {
    var resolved := ResolutionsOf(ws, truth);
    var built := LockfileOf(ws, resolved, at);
    ResolutionsResolve(ws, truth);
    InitThenCheckIsClean(ws, declared, resolved, at, c, s, acts, truth);
    BuiltIsNormal(ws, resolved, at);
    SignedIsNormal(built, sign);
    WrittenReadsBack(built, crypto, keys, sign, render, lex, disk, d, effects);
  }
}
