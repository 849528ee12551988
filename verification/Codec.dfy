/** The lockfile's JSON form, from the struct tags: field order, omitempty, nil as null, and a decoder that
    refuses unknown fields. */
module Codec {
  import opened Wrappers
  import opened Manifest
  import opened Json

  // ---------------------------------------------------------------- encoding

  function Str(key: string, text: string): Member { Member(key, JStr(text)) }

  /** A string field with omitempty. */
  function Optional(key: string, text: string): seq<Member> { if text == "" then [] else [Str(key, text)] }

  function EncTool(t: ToolEntry): seq<Member> {
    [Str("ecosystem", t.ecosystem), Str("reference", t.reference), Str("hash", t.hash), Str("algorithm", t.algorithm)]
    + Optional("source", t.source)
  }

  function EncSecret(s: SecretEntry): seq<Member> { [Str("name", s.name), Str("source", s.source)] }

  function EncTools(ts: seq<ToolEntry>): seq<Json> { seq(|ts|, i requires 0 <= i < |ts| => JObj(EncTool(ts[i]))) }

  function EncSecrets(ss: seq<SecretEntry>): seq<Json> { seq(|ss|, i requires 0 <= i < |ss| => JObj(EncSecret(ss[i]))) }

  /** A slice without omitempty: nil is null, empty is an empty array. */
  function EncSlice(isNil: bool, items: seq<Json>): Json { if isNil then JNull else JArr(items) }

  function EncStep(s: StepEntry): seq<Member> {
    [Str("name", s.name), Str("job", s.job), Member("order", JNum(s.order)),
     Member("tools", EncSlice(s.tools.Nil?, EncTools(s.tools.All())))]
    + if s.secrets.All() == [] then [] else [Member("secrets", JArr(EncSecrets(s.secrets.All())))]
  }

  function EncSteps(ss: seq<StepEntry>): seq<Json> { seq(|ss|, i requires 0 <= i < |ss| => JObj(EncStep(ss[i]))) }

  function EncPipeline(p: PipelineEntry): seq<Member> {
    [Str("path", p.path), Str("type", p.kind)] + Optional("repo", p.repo)
    + [Member("steps", EncSlice(p.steps.Nil?, EncSteps(p.steps.All())))]
  }

  function EncPipelines(ps: seq<PipelineEntry>): seq<Json> {
    seq(|ps|, i requires 0 <= i < |ps| => JObj(EncPipeline(ps[i])))
  }

  function EncSignature(g: Signature): seq<Member> {
    [Str("algorithm", g.algorithm), Str("value", g.value)]
    + Optional("public_key", g.publicKey) + Optional("issuer", g.issuer) + Optional("subject", g.subject)
  }

  function EncLockfile(lf: Lockfile): seq<Member> {
    [Member("version", JNum(lf.version)), Str("generated_at", lf.generatedAt),
     Member("pipelines", EncSlice(lf.pipelines.Nil?, EncPipelines(lf.pipelines.All())))]
    + if lf.signature.None? then [] else [Member("signature", JObj(EncSignature(lf.signature.value)))]
  }

  /** json.Marshal, up to whitespace. */
  function Encode(lf: Lockfile): seq<Token> { Print(JObj(EncLockfile(lf))) }

  /** CanonicalJSON: everything but the signature block. */
  function Canonical(lf: Lockfile): seq<Token> { Encode(lf.(signature := None)) }

  // ---------------------------------------------------------------- decoding

  /** A string field: null leaves it as it is, another type is an error. */
  function IntoString(was: string, v: Json): Option<string> {
    match v
    case JStr(s) => Some(s)
    case JNull => Some(was)
    case _ => None
  }

  function IntoInt(was: GoInt, v: Json): Option<GoInt> {
    match v
    case JNum(n) => if -0x8000_0000_0000_0000 <= n < 0x8000_0000_0000_0000 then Some(n) else None
    case JNull => Some(was)
    case _ => None
  }

  /** One member into a struct: its field is set, an unknown name is refused. */
  function SetTool(t: ToolEntry, m: Member): Option<ToolEntry> {
    if m.key == "ecosystem" then Map(IntoString(t.ecosystem, m.value), s => t.(ecosystem := s))
    else if m.key == "reference" then Map(IntoString(t.reference, m.value), s => t.(reference := s))
    else if m.key == "hash" then Map(IntoString(t.hash, m.value), s => t.(hash := s))
    else if m.key == "algorithm" then Map(IntoString(t.algorithm, m.value), s => t.(algorithm := s))
    else if m.key == "source" then Map(IntoString(t.source, m.value), s => t.(source := s))
    else None
  }

  function Map<A, B>(o: Option<A>, f: A -> B): Option<B> { if o.None? then None else Some(f(o.value)) }

  function SetSecret(e: SecretEntry, m: Member): Option<SecretEntry> {
    if m.key == "name" then Map(IntoString(e.name, m.value), s => e.(name := s))
    else if m.key == "source" then Map(IntoString(e.source, m.value), s => e.(source := s))
    else None
  }

  function SetSignature(g: Signature, m: Member): Option<Signature> {
    if m.key == "algorithm" then Map(IntoString(g.algorithm, m.value), s => g.(algorithm := s))
    else if m.key == "value" then Map(IntoString(g.value, m.value), s => g.(value := s))
    else if m.key == "public_key" then Map(IntoString(g.publicKey, m.value), s => g.(publicKey := s))
    else if m.key == "issuer" then Map(IntoString(g.issuer, m.value), s => g.(issuer := s))
    else if m.key == "subject" then Map(IntoString(g.subject, m.value), s => g.(subject := s))
    else None
  }

  function SetStep(e: StepEntry, m: Member): Option<StepEntry> {
    if m.key == "name" then Map(IntoString(e.name, m.value), s => e.(name := s))
    else if m.key == "job" then Map(IntoString(e.job, m.value), s => e.(job := s))
    else if m.key == "order" then Map(IntoInt(e.order, m.value), n => e.(order := n))
    else if m.key == "tools" then Map(DecSlice(m.value, DecTool), ts => e.(tools := ts))
    else if m.key == "secrets" then Map(DecSlice(m.value, DecSecret), ss => e.(secrets := ss))
    else None
  }

  function SetPipeline(p: PipelineEntry, m: Member): Option<PipelineEntry> {
    if m.key == "path" then Map(IntoString(p.path, m.value), s => p.(path := s))
    else if m.key == "type" then Map(IntoString(p.kind, m.value), s => p.(kind := s))
    else if m.key == "repo" then Map(IntoString(p.repo, m.value), s => p.(repo := s))
    else if m.key == "steps" then Map(DecSlice(m.value, DecStep), ss => p.(steps := ss))
    else None
  }

  function SetLockfile(lf: Lockfile, m: Member): Option<Lockfile> {
    if m.key == "version" then Map(IntoInt(lf.version, m.value), n => lf.(version := n))
    else if m.key == "generated_at" then Map(IntoString(lf.generatedAt, m.value), s => lf.(generatedAt := s))
    else if m.key == "pipelines" then Map(DecSlice(m.value, DecPipeline), ps => lf.(pipelines := ps))
    else if m.key == "signature" then
      if m.value.JNull? then Some(lf.(signature := None))
      else Map(DecStruct(if lf.signature.Some? then lf.signature.value else NO_SIGNATURE, m.value, SetSignature),
               g => lf.(signature := Some(g)))
    else None
  }

  /** The first n members into a struct that starts as was. */
  function Fill<T>(was: T, members: seq<Member>, n: nat, set1: (T, Member) -> Option<T>): Option<T>
    requires n <= |members|
  {
    if n == 0 then Some(was)
    else
      match Fill(was, members, n - 1, set1)
      case None => None
      case Some(t) => set1(t, members[n - 1])
  }

  function DecStruct<T>(was: T, v: Json, set1: (T, Member) -> Option<T>): Option<T> {
    match v
    case JObj(members) => Fill(was, members, |members|, set1)
    case JNull => Some(was)
    case _ => None
  }

  function DecItems<T>(items: seq<Json>, n: nat, dec: Json -> Option<T>): Option<seq<T>>
    requires n <= |items|
  {
    if n == 0 then Some([])
    else
      match (DecItems(items, n - 1, dec), dec(items[n - 1]))
      case (Some(ts), Some(t)) => Some(ts + [t])
      case _ => None
  }

  function DecSlice<T>(v: Json, dec: Json -> Option<T>): Option<Slice<T>> {
    match v
    case JNull => Some(Nil)
    case JArr(items) => Map(DecItems(items, |items|, dec), ts => Of(ts))
    case _ => None
  }

  const NO_TOOL := ToolEntry("", "", "", "", "")
  const NO_SECRET := SecretEntry("", "")
  const NO_STEP := StepEntry("", "", 0, Nil, Nil)
  const NO_PIPELINE := PipelineEntry("", "", "", Nil)
  const NO_SIGNATURE := Signature("", "", "", "", "")
  const NO_LOCKFILE := Lockfile(0, "", Nil, None)

  function DecTool(v: Json): Option<ToolEntry> { DecStruct(NO_TOOL, v, SetTool) }
  function DecSecret(v: Json): Option<SecretEntry> { DecStruct(NO_SECRET, v, SetSecret) }
  function DecStep(v: Json): Option<StepEntry> { DecStruct(NO_STEP, v, SetStep) }
  function DecPipeline(v: Json): Option<PipelineEntry> { DecStruct(NO_PIPELINE, v, SetPipeline) }

  /** json.Decoder.Decode: one value is read, whatever follows it is not looked at. */
  function Decode(ts: seq<Token>): Option<Lockfile> {
    match Parse(ts)
    case Fail => None
    case Got(v, _) => DecStruct(NO_LOCKFILE, v, SetLockfile)
  }

  // ---------------------------------------------------------------- what survives

  /** omitempty drops empty secrets, which come back as nil. */
  function NormalSecrets(s: Slice<SecretEntry>): Slice<SecretEntry> { if s.All() == [] then Nil else s }

  function NormalStep(s: StepEntry): StepEntry { s.(secrets := NormalSecrets(s.secrets)) }

  function NormalSteps(s: Slice<StepEntry>): Slice<StepEntry> {
    if s.Nil? then Nil else Of(seq(|s.items|, i requires 0 <= i < |s.items| => NormalStep(s.items[i])))
  }

  function NormalPipeline(p: PipelineEntry): PipelineEntry { p.(steps := NormalSteps(p.steps)) }

  function NormalPipelines(s: Slice<PipelineEntry>): Slice<PipelineEntry> {
    if s.Nil? then Nil else Of(seq(|s.items|, i requires 0 <= i < |s.items| => NormalPipeline(s.items[i])))
  }

  /** The lockfile up to empty-versus-nil secrets. */
  function Normal(lf: Lockfile): Lockfile { lf.(pipelines := NormalPipelines(lf.pipelines)) }

  lemma FillNext<T>(was: T, ms: seq<Member>, n: nat, set1: (T, Member) -> Option<T>, t: T, t': T)
    requires n < |ms| && Fill(was, ms, n, set1) == Some(t) && set1(t, ms[n]) == Some(t')
    ensures Fill(was, ms, n + 1, set1) == Some(t')
  {
  }

  lemma ToolRoundTrip(t: ToolEntry)
    ensures DecTool(JObj(EncTool(t))) == Some(t)
  {
    var ms := EncTool(t);
    var t1 := NO_TOOL.(ecosystem := t.ecosystem);
    var t2 := t1.(reference := t.reference);
    var t3 := t2.(hash := t.hash);
    var t4 := t3.(algorithm := t.algorithm);
    FillNext(NO_TOOL, ms, 0, SetTool, NO_TOOL, t1);
    FillNext(NO_TOOL, ms, 1, SetTool, t1, t2);
    FillNext(NO_TOOL, ms, 2, SetTool, t2, t3);
    FillNext(NO_TOOL, ms, 3, SetTool, t3, t4);
    if t.source != "" {
      FillNext(NO_TOOL, ms, 4, SetTool, t4, t);
    }
  }

  lemma SecretRoundTrip(e: SecretEntry)
    ensures DecSecret(JObj(EncSecret(e))) == Some(e)
  {
    var ms := EncSecret(e);
    var e1 := NO_SECRET.(name := e.name);
    FillNext(NO_SECRET, ms, 0, SetSecret, NO_SECRET, e1);
    FillNext(NO_SECRET, ms, 1, SetSecret, e1, e);
  }

  lemma SignatureRoundTrip(g: Signature)
    ensures DecStruct(NO_SIGNATURE, JObj(EncSignature(g)), SetSignature) == Some(g)
  {
    var ms := EncSignature(g);
    var g1 := NO_SIGNATURE.(algorithm := g.algorithm);
    var g2 := g1.(value := g.value);
    var g3 := g2.(publicKey := g.publicKey);
    var g4 := g3.(issuer := g.issuer);
    FillNext(NO_SIGNATURE, ms, 0, SetSignature, NO_SIGNATURE, g1);
    FillNext(NO_SIGNATURE, ms, 1, SetSignature, g1, g2);
    var n := 2;
    if g.publicKey != "" {
      FillNext(NO_SIGNATURE, ms, n, SetSignature, g2, g3);
      n := n + 1;
    }
    if g.issuer != "" {
      assert ms[n] == Str("issuer", g.issuer);
      FillNext(NO_SIGNATURE, ms, n, SetSignature, g3, g4);
      n := n + 1;
    }
    if g.subject != "" {
      assert ms[n] == Str("subject", g.subject);
      FillNext(NO_SIGNATURE, ms, n, SetSignature, g4, g);
    }
  }

  /** An array whose elements decode one by one decodes as a whole. */
  lemma {:induction false} ItemsRoundTrip<T>(items: seq<Json>, n: nat, dec: Json -> Option<T>, ts: seq<T>)
    requires n <= |items| == |ts|
    requires forall i :: 0 <= i < |items| ==> dec(items[i]) == Some(ts[i])
    ensures DecItems(items, n, dec) == Some(ts[..n])
  {
    if n > 0 {
      ItemsRoundTrip(items, n - 1, dec, ts);
      assert ts[..n] == ts[..n - 1] + [ts[n - 1]];
    }
  }

  lemma SliceRoundTrip<T>(isNil: bool, items: seq<Json>, dec: Json -> Option<T>, ts: seq<T>)
    requires |items| == |ts| && forall i :: 0 <= i < |items| ==> dec(items[i]) == Some(ts[i])
    ensures DecSlice(EncSlice(isNil, items), dec) == Some(if isNil then Nil else Of(ts))
  {
    ItemsRoundTrip(items, |items|, dec, ts);
    assert ts[..|ts|] == ts;
  }

  lemma ToolsRoundTrip(s: Slice<ToolEntry>)
    ensures DecSlice(EncSlice(s.Nil?, EncTools(s.All())), DecTool) == Some(s)
  {
    forall i | 0 <= i < |s.All()| ensures DecTool(EncTools(s.All())[i]) == Some(s.All()[i]) {
      ToolRoundTrip(s.All()[i]);
    }
    SliceRoundTrip(s.Nil?, EncTools(s.All()), DecTool, s.All());
  }

  lemma SecretsRoundTrip(all: seq<SecretEntry>)
    ensures DecSlice(EncSlice(false, EncSecrets(all)), DecSecret) == Some(Of(all))
  {
    forall i | 0 <= i < |all| ensures DecSecret(EncSecrets(all)[i]) == Some(all[i]) {
      SecretRoundTrip(all[i]);
    }
    SliceRoundTrip(false, EncSecrets(all), DecSecret, all);
  }

  lemma StepHead(e: StepEntry)
    ensures Fill(NO_STEP, EncStep(e), 3, SetStep) == Some(StepEntry(e.name, e.job, e.order, Nil, Nil))
  {
    var ms := EncStep(e);
    var e1 := NO_STEP.(name := e.name);
    var e2 := e1.(job := e.job);
    FillNext(NO_STEP, ms, 0, SetStep, NO_STEP, e1);
    FillNext(NO_STEP, ms, 1, SetStep, e1, e2);
    FillNext(NO_STEP, ms, 2, SetStep, e2, e2.(order := e.order));
  }

  lemma StepAllButSecrets(e: StepEntry)
    ensures Fill(NO_STEP, EncStep(e), 4, SetStep) == Some(e.(secrets := Nil))
  {
    StepHead(e);
    ToolsRoundTrip(e.tools);
    FillNext(NO_STEP, EncStep(e), 3, SetStep, StepEntry(e.name, e.job, e.order, Nil, Nil), e.(secrets := Nil));
  }

  lemma StepRoundTrip(e: StepEntry)
    ensures DecStep(JObj(EncStep(e))) == Some(NormalStep(e))
  {
    StepAllButSecrets(e);
    if e.secrets.All() != [] {
      SecretsRoundTrip(e.secrets.All());
      FillNext(NO_STEP, EncStep(e), 4, SetStep, e.(secrets := Nil), NormalStep(e));
    }
  }

  lemma StepsRoundTrip(s: Slice<StepEntry>)
    ensures DecSlice(EncSlice(s.Nil?, EncSteps(s.All())), DecStep) == Some(NormalSteps(s))
  {
    var all := s.All();
    var normal := seq(|all|, i requires 0 <= i < |all| => NormalStep(all[i]));
    forall i | 0 <= i < |all| ensures DecStep(EncSteps(all)[i]) == Some(normal[i]) {
      StepRoundTrip(all[i]);
    }
    SliceRoundTrip(s.Nil?, EncSteps(all), DecStep, normal);
  }

  lemma PipelineRoundTrip(p: PipelineEntry)
    ensures DecPipeline(JObj(EncPipeline(p))) == Some(NormalPipeline(p))
  {
    var ms := EncPipeline(p);
    var p1 := NO_PIPELINE.(path := p.path);
    var p2 := p1.(kind := p.kind);
    var p3 := p2.(repo := p.repo);
    FillNext(NO_PIPELINE, ms, 0, SetPipeline, NO_PIPELINE, p1);
    FillNext(NO_PIPELINE, ms, 1, SetPipeline, p1, p2);
    var n := 2;
    if p.repo != "" {
      FillNext(NO_PIPELINE, ms, n, SetPipeline, p2, p3);
      n := n + 1;
    }
    var last := Member("steps", EncSlice(p.steps.Nil?, EncSteps(p.steps.All())));
    assert ms[n] == last;
    StepsRoundTrip(p.steps);
    assert SetPipeline(p3, last) == Some(p3.(steps := NormalSteps(p.steps)));
    FillNext(NO_PIPELINE, ms, n, SetPipeline, p3, NormalPipeline(p));
  }

  lemma PipelinesRoundTrip(s: Slice<PipelineEntry>)
    ensures DecSlice(EncSlice(s.Nil?, EncPipelines(s.All())), DecPipeline) == Some(NormalPipelines(s))
  {
    var all := s.All();
    var normal := seq(|all|, i requires 0 <= i < |all| => NormalPipeline(all[i]));
    forall i | 0 <= i < |all| ensures DecPipeline(EncPipelines(all)[i]) == Some(normal[i]) {
      PipelineRoundTrip(all[i]);
    }
    SliceRoundTrip(s.Nil?, EncPipelines(all), DecPipeline, normal);
  }

  lemma FirstFields(lf: Lockfile)
    ensures Fill(NO_LOCKFILE, EncLockfile(lf), 3, SetLockfile) ==
            Some(Lockfile(lf.version, lf.generatedAt, NormalPipelines(lf.pipelines), None))
  {
    var ms := EncLockfile(lf);
    var l1 := NO_LOCKFILE.(version := lf.version);
    var l2 := l1.(generatedAt := lf.generatedAt);
    PipelinesRoundTrip(lf.pipelines);
    FillNext(NO_LOCKFILE, ms, 0, SetLockfile, NO_LOCKFILE, l1);
    FillNext(NO_LOCKFILE, ms, 1, SetLockfile, l1, l2);
    FillNext(NO_LOCKFILE, ms, 2, SetLockfile, l2, l2.(pipelines := NormalPipelines(lf.pipelines)));
  }

  lemma LockfileRoundTrip(lf: Lockfile)
    ensures DecStruct(NO_LOCKFILE, JObj(EncLockfile(lf)), SetLockfile) == Some(Normal(lf))
  {
    FirstFields(lf);
    if lf.signature.Some? {
      SignatureRoundTrip(lf.signature.value);
      FillNext(NO_LOCKFILE, EncLockfile(lf), 3, SetLockfile,
               Lockfile(lf.version, lf.generatedAt, NormalPipelines(lf.pipelines), None), Normal(lf));
    }
  }

  /** The codec round trip: strict decoding of an encoding gives the lockfile back, up to empty-versus-nil
      secrets, whatever follows the value in the file. */
  lemma RoundTrip(lf: Lockfile, rest: seq<Token>)
    ensures Decode(Encode(lf) + rest) == Some(Normal(lf))
  {
    ParsePrint(JObj(EncLockfile(lf)), rest);
    LockfileRoundTrip(lf);
  }

  lemma NormalStepEncoding(s: StepEntry)
    ensures EncStep(NormalStep(s)) == EncStep(s)
  {
  }

  lemma NormalPipelineEncoding(p: PipelineEntry)
    ensures EncPipeline(NormalPipeline(p)) == EncPipeline(p)
  {
    var all, normal := p.steps.All(), NormalPipeline(p).steps.All();
    forall i | 0 <= i < |all| ensures EncSteps(normal)[i] == EncSteps(all)[i] {
      NormalStepEncoding(all[i]);
    }
    assert EncSteps(normal) == EncSteps(all);
  }

  /** Normalising changes no encoding. */
  lemma NormalEncoding(lf: Lockfile)
    ensures Encode(Normal(lf)) == Encode(lf) && Canonical(Normal(lf)) == Canonical(lf)
  {
    var all, normal := lf.pipelines.All(), Normal(lf).pipelines.All();
    forall i | 0 <= i < |all| ensures EncPipelines(normal)[i] == EncPipelines(all)[i] {
      NormalPipelineEncoding(all[i]);
    }
    assert EncPipelines(normal) == EncPipelines(all);
    assert EncLockfile(Normal(lf)) == EncLockfile(lf);
    var a, b := Normal(lf).(signature := None), lf.(signature := None);
    assert EncLockfile(a) == EncLockfile(b);
  }

  /** Two lockfiles have the same encoding exactly when they agree up to empty-versus-nil secrets: in every other
      slice nil and empty show. */
  lemma EncodingIsFaithful(a: Lockfile, b: Lockfile)
    ensures Encode(a) == Encode(b) <==> Normal(a) == Normal(b)
  {
    RoundTrip(a, []);
    RoundTrip(b, []);
    assert Encode(a) + [] == Encode(a) && Encode(b) + [] == Encode(b);
    NormalEncoding(a);
    NormalEncoding(b);
  }

  /** Two lockfiles have the same canonical form exactly when they agree on everything but the signature and
      empty-versus-nil secrets. */
  lemma CanonicalIsFaithful(a: Lockfile, b: Lockfile)
    ensures Canonical(a) == Canonical(b) <==> Normal(a.(signature := None)) == Normal(b.(signature := None))
  {
    EncodingIsFaithful(a.(signature := None), b.(signature := None));
  }
}
