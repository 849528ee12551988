/** The records the parsers produce. */
module Parser {
  import opened Wrappers
  import opened Platform

  datatype ToolRef = ToolRef(ecosystem: string, reference: string, owner: string, name: string, version: string,
                             stepName: string, jobName: string)

  /** What the platform is asked about for a tool. */
  function PairOf(t: ToolRef): UniqueRef { UniqueRef(t.ecosystem, t.reference) }

  datatype SecretRef = SecretRef(name: string, source: string, stepName: string, jobName: string)

  datatype StepDef = StepDef(name: string, job: string, order: GoInt)

  datatype UnsupportedRef = UnsupportedRef(ecosystem: string, raw: string, reason: string)

  datatype WorkflowFile = WorkflowFile(path: string, kind: string, tools: seq<ToolRef>, secrets: seq<SecretRef>,
                                       steps: seq<StepDef>, unsupported: seq<UnsupportedRef>)

  /** What every parser promises init: each tool's job and step are listed among the file's steps. */
  ghost predicate StepsCover(wf: WorkflowFile) {
    forall t :: t in wf.tools ==> exists s :: s in wf.steps && s.job == t.jobName && s.name == t.stepName
  }

  /** The same for secrets. */
  ghost predicate StepsCoverSecrets(wf: WorkflowFile) {
    forall r :: r in wf.secrets ==> exists s :: s in wf.steps && s.job == r.jobName && s.name == r.stepName
  }
}
