/** Which documents the strict decoder accepts, what it reads from them, and the text the encoder writes. */
module CodecShape {
  import opened Wrappers
  import opened Manifest
  import opened Json
  import opened Codec

  // ---------------------------------------------------------------- the documents that are accepted

  predicate TextOrNull(v: Json) { v.JStr? || v.JNull? }

  predicate IntOrNull(v: Json) { v.JNull? || (v.JNum? && -0x8000_0000_0000_0000 <= v.n < 0x8000_0000_0000_0000) }

  /** null, or an object with no members but such ones. */
  predicate IsStruct(v: Json, ok: Member -> bool) {
    v.JNull? || (v.JObj? && forall i :: 0 <= i < |v.members| ==> ok(v.members[i]))
  }

  predicate IsSlice(v: Json, ok: Json -> bool) {
    v.JNull? || (v.JArr? && forall i :: 0 <= i < |v.items| ==> ok(v.items[i]))
  }

  predicate ToolMember(m: Member) {
    m.key in ["ecosystem", "reference", "hash", "algorithm", "source"] && TextOrNull(m.value)
  }

  predicate SecretMember(m: Member) { m.key in ["name", "source"] && TextOrNull(m.value) }

  predicate SignatureMember(m: Member) {
    m.key in ["algorithm", "value", "public_key", "issuer", "subject"] && TextOrNull(m.value)
  }

  predicate ToolShape(v: Json) { IsStruct(v, ToolMember) }

  predicate SecretShape(v: Json) { IsStruct(v, SecretMember) }

  predicate StepMember(m: Member) {
    || (m.key in ["name", "job"] && TextOrNull(m.value))
    || (m.key == "order" && IntOrNull(m.value))
    || (m.key == "tools" && IsSlice(m.value, ToolShape))
    || (m.key == "secrets" && IsSlice(m.value, SecretShape))
  }

  predicate StepShape(v: Json) { IsStruct(v, StepMember) }

  predicate PipelineMember(m: Member) {
    || (m.key in ["path", "type", "repo"] && TextOrNull(m.value))
    || (m.key == "steps" && IsSlice(m.value, StepShape))
  }

  predicate PipelineShape(v: Json) { IsStruct(v, PipelineMember) }

  predicate LockfileMember(m: Member) {
    || (m.key == "version" && IntOrNull(m.value))
    || (m.key == "generated_at" && TextOrNull(m.value))
    || (m.key == "pipelines" && IsSlice(m.value, PipelineShape))
    || (m.key == "signature" && IsStruct(m.value, SignatureMember))
  }

  predicate LockfileShape(v: Json) { IsStruct(v, LockfileMember) }

  /** Setting succeeds or fails by the member alone. */
  ghost predicate Decides<T(!new)>(set1: (T, Member) -> Option<T>, ok: Member -> bool) {
    forall t, m :: set1(t, m).Some? <==> ok(m)
  }

  lemma {:induction false} FillsExactly<T(!new)>(was: T, ms: seq<Member>, n: nat, set1: (T, Member) -> Option<T>,
                                                 ok: Member -> bool)
    requires n <= |ms| && Decides(set1, ok)
    ensures Fill(was, ms, n, set1).Some? <==> forall i :: 0 <= i < n ==> ok(ms[i])
  {
    if n > 0 {
      FillsExactly(was, ms, n - 1, set1, ok);
    }
  }

  lemma StructsExactly<T(!new)>(was: T, set1: (T, Member) -> Option<T>, ok: Member -> bool)
    requires Decides(set1, ok)
    ensures forall v :: DecStruct(was, v, set1).Some? <==> IsStruct(v, ok)
  {
    forall v ensures DecStruct(was, v, set1).Some? <==> IsStruct(v, ok) {
      if v.JObj? {
        FillsExactly(was, v.members, |v.members|, set1, ok);
      }
    }
  }

  lemma {:induction false} ItemsExactly<T>(items: seq<Json>, n: nat, dec: Json -> Option<T>, ok: Json -> bool)
    requires n <= |items| && forall v :: dec(v).Some? <==> ok(v)
    ensures DecItems(items, n, dec).Some? <==> forall i :: 0 <= i < n ==> ok(items[i])
  {
    if n > 0 {
      ItemsExactly(items, n - 1, dec, ok);
    }
  }

  lemma SlicesExactly<T>(dec: Json -> Option<T>, ok: Json -> bool)
    requires forall v :: dec(v).Some? <==> ok(v)
    ensures forall v :: DecSlice(v, dec).Some? <==> IsSlice(v, ok)
  {
    forall v ensures DecSlice(v, dec).Some? <==> IsSlice(v, ok) {
      if v.JArr? {
        ItemsExactly(v.items, |v.items|, dec, ok);
      }
    }
  }

  lemma ToolsExactly()
    ensures forall v :: DecTool(v).Some? <==> ToolShape(v)
  {
    assert Decides(SetTool, ToolMember);
    StructsExactly(NO_TOOL, SetTool, ToolMember);
  }

  lemma SecretsExactly()
    ensures forall v :: DecSecret(v).Some? <==> SecretShape(v)
  {
    assert Decides(SetSecret, SecretMember);
    StructsExactly(NO_SECRET, SetSecret, SecretMember);
  }

  lemma StepsExactly()
    ensures forall v :: DecStep(v).Some? <==> StepShape(v)
  {
    ToolsExactly();
    SlicesExactly(DecTool, ToolShape);
    SecretsExactly();
    SlicesExactly(DecSecret, SecretShape);
    assert Decides(SetStep, StepMember);
    StructsExactly(NO_STEP, SetStep, StepMember);
  }

  lemma PipelinesExactly()
    ensures forall v :: DecPipeline(v).Some? <==> PipelineShape(v)
  {
    StepsExactly();
    SlicesExactly(DecStep, StepShape);
    assert Decides(SetPipeline, PipelineMember);
    StructsExactly(NO_PIPELINE, SetPipeline, PipelineMember);
  }

  lemma SignaturesExactly()
    ensures forall was, v :: DecStruct(was, v, SetSignature).Some? <==> IsStruct(v, SignatureMember)
  {
    assert Decides(SetSignature, SignatureMember);
    forall was, v ensures DecStruct(was, v, SetSignature).Some? <==> IsStruct(v, SignatureMember) {
      StructsExactly(was, SetSignature, SignatureMember);
    }
  }

  /** A text is decoded exactly if it begins with a JSON value all of whose members, at every level, are known ones
      of the right type: an unknown field anywhere is refused. */
  lemma DecodesExactly(ts: seq<Token>)
    ensures Decode(ts).Some? <==> Parse(ts).Got? && LockfileShape(Parse(ts).value)
  {
    PipelinesExactly();
    SlicesExactly(DecPipeline, PipelineShape);
    SignaturesExactly();
    assert Decides(SetLockfile, LockfileMember);
    StructsExactly(NO_LOCKFILE, SetLockfile, LockfileMember);
  }

  // ---------------------------------------------------------------- what is read from them

  /** The last text under a key, or what was there before. */
  function LastText(ms: seq<Member>, key: string, was: string): string {
    if ms == [] then was
    else
      var m := ms[|ms| - 1];
      if m.key == key && m.value.JStr? then m.value.text else LastText(ms[..|ms| - 1], key, was)
  }

  ghost predicate Reads<T(!new)>(set1: (T, Member) -> Option<T>, get: T -> string, key: string) {
    forall t, m :: set1(t, m).Some? ==>
      get(set1(t, m).value) == if m.key == key && m.value.JStr? then m.value.text else get(t)
  }

  lemma {:induction false} FillReads<T(!new)>(was: T, ms: seq<Member>, n: nat, set1: (T, Member) -> Option<T>,
                                              get: T -> string, key: string)
    requires n <= |ms| && Reads(set1, get, key) && Fill(was, ms, n, set1).Some?
    ensures get(Fill(was, ms, n, set1).value) == LastText(ms[..n], key, get(was))
  {
    if n > 0 {
      FillReads(was, ms, n - 1, set1, get, key);
      assert ms[..n][..n - 1] == ms[..n - 1] && ms[..n][n - 1] == ms[n - 1];
    }
  }

  lemma TextIsRead(ms: seq<Member>, get: ToolEntry -> string, key: string)
    requires DecTool(JObj(ms)).Some? && Reads(SetTool, get, key) && get(NO_TOOL) == ""
    ensures get(DecTool(JObj(ms)).value) == LastText(ms, key, "")
  {
    assert ms[..|ms|] == ms;
    FillReads(NO_TOOL, ms, |ms|, SetTool, get, key);
  }

  /** A tool entry is read field by field: each is the last text under its own name, and blank if there is none. */
  lemma ToolIsRead(ms: seq<Member>)
    requires DecTool(JObj(ms)).Some?
    ensures DecTool(JObj(ms)).value ==
            ToolEntry(LastText(ms, "ecosystem", ""), LastText(ms, "reference", ""), LastText(ms, "hash", ""),
                      LastText(ms, "algorithm", ""), LastText(ms, "source", ""))
  {
    EcosystemIsRead(ms);
    ReferenceIsRead(ms);
    HashIsRead(ms);
    AlgorithmIsRead(ms);
    SourceIsRead(ms);
  }

  lemma EcosystemIsRead(ms: seq<Member>)
    requires DecTool(JObj(ms)).Some?
    ensures DecTool(JObj(ms)).value.ecosystem == LastText(ms, "ecosystem", "")
  {
    TextIsRead(ms, (t: ToolEntry) => t.ecosystem, "ecosystem");
  }

  lemma ReferenceIsRead(ms: seq<Member>)
    requires DecTool(JObj(ms)).Some?
    ensures DecTool(JObj(ms)).value.reference == LastText(ms, "reference", "")
  {
    TextIsRead(ms, (t: ToolEntry) => t.reference, "reference");
  }

  lemma HashIsRead(ms: seq<Member>)
    requires DecTool(JObj(ms)).Some?
    ensures DecTool(JObj(ms)).value.hash == LastText(ms, "hash", "")
  {
    TextIsRead(ms, (t: ToolEntry) => t.hash, "hash");
  }

  lemma AlgorithmIsRead(ms: seq<Member>)
    requires DecTool(JObj(ms)).Some?
    ensures DecTool(JObj(ms)).value.algorithm == LastText(ms, "algorithm", "")
  {
    TextIsRead(ms, (t: ToolEntry) => t.algorithm, "algorithm");
  }

  lemma SourceIsRead(ms: seq<Member>)
    requires DecTool(JObj(ms)).Some?
    ensures DecTool(JObj(ms)).value.source == LastText(ms, "source", "")
  {
    TextIsRead(ms, (t: ToolEntry) => t.source, "source");
  }

  // ---------------------------------------------------------------- the text that is written

  function Commas(parts: seq<seq<Token>>): seq<Token> {
    if parts == [] then [] else parts[0] + (if |parts| == 1 then [] else [Comma] + Commas(parts[1..]))
  }

  function Object(parts: seq<seq<Token>>): seq<Token> { [LBrace] + Commas(parts) + [RBrace] }

  function Array(parts: seq<seq<Token>>): seq<Token> { [LBracket] + Commas(parts) + [RBracket] }

  function Field(key: string, value: seq<Token>): seq<Token> { [TStr(key), Colon] + value }

  function Text(key: string, value: string): seq<Token> { Field(key, [TStr(value)]) }

  /** omitempty. */
  function TextIfAny(key: string, value: string): seq<seq<Token>> { if value == "" then [] else [Text(key, value)] }

  function ToolText(t: ToolEntry): seq<Token> {
    Object([Text("ecosystem", t.ecosystem), Text("reference", t.reference), Text("hash", t.hash),
            Text("algorithm", t.algorithm)] + TextIfAny("source", t.source))
  }

  function SecretText(s: SecretEntry): seq<Token> { Object([Text("name", s.name), Text("source", s.source)]) }

  /** A slice: null if it is nil. */
  function SliceText<T>(s: Slice<T>, text: T -> seq<Token>): seq<Token> {
    if s.Nil? then [TNull] else Array(seq(|s.items|, i requires 0 <= i < |s.items| => text(s.items[i])))
  }

  function StepText(s: StepEntry): seq<Token> {
    Object([Text("name", s.name), Text("job", s.job), Field("order", [TNum(s.order)]),
            Field("tools", SliceText(s.tools, ToolText))]
           + if s.secrets.All() == [] then [] else [Field("secrets", SliceText(s.secrets, SecretText))])
  }

  function PipelineText(p: PipelineEntry): seq<Token> {
    Object([Text("path", p.path), Text("type", p.kind)] + TextIfAny("repo", p.repo)
           + [Field("steps", SliceText(p.steps, StepText))])
  }

  function SignatureText(g: Signature): seq<Token> {
    Object([Text("algorithm", g.algorithm), Text("value", g.value)] + TextIfAny("public_key", g.publicKey)
           + TextIfAny("issuer", g.issuer) + TextIfAny("subject", g.subject))
  }

  /** The file: its fields in this order, the signature only if there is one. */
  function LockfileText(lf: Lockfile): seq<Token> {
    Object([Field("version", [TNum(lf.version)]), Text("generated_at", lf.generatedAt),
            Field("pipelines", SliceText(lf.pipelines, PipelineText))]
           + if lf.signature.None? then [] else [Field("signature", SignatureText(lf.signature.value))])
  }

  ghost predicate PrintsAs(ms: seq<Member>, parts: seq<seq<Token>>) {
    |ms| == |parts| && forall i :: 0 <= i < |ms| ==> parts[i] == Field(ms[i].key, Print(ms[i].value))
  }

  lemma {:induction false} MembersPrint(ms: seq<Member>, parts: seq<seq<Token>>, first: bool)
    requires PrintsAs(ms, parts)
    ensures PrintMembers(ms, first) == (if ms == [] then [] else Separator(first)) + Commas(parts) + [RBrace]
  {
    if ms != [] {
      MembersPrint(ms[1..], parts[1..], false);
      Regroup([TStr(ms[0].key), Colon], Print(ms[0].value), PrintMembers(ms[1..], false));
      CommasOf(parts);
      JoinHead(Separator(first), parts[0], if |ms| == 1 then [] else [Comma], Commas(parts[1..]), [RBrace]);
    }
  }

  lemma CommasOf(parts: seq<seq<Token>>)
    requires parts != []
    ensures Commas(parts) == parts[0] + ((if |parts| == 1 then [] else [Comma]) + Commas(parts[1..]))
  {
    if |parts| == 1 {
      assert parts[1..] == [] && Commas([]) == [];
    }
  }

  lemma Regroup(a: seq<Token>, b: seq<Token>, c: seq<Token>)
    ensures a + (b + c) == a + b + c
  {
  }

  lemma JoinHead(front: seq<Token>, head: seq<Token>, mid: seq<Token>, tail: seq<Token>, end: seq<Token>)
    ensures front + (head + (mid + tail + end)) == front + (head + (mid + tail)) + end
  {
  }

  lemma ObjectPrints(ms: seq<Member>, parts: seq<seq<Token>>)
    requires PrintsAs(ms, parts)
    ensures Print(JObj(ms)) == Object(parts)
  {
    MembersPrint(ms, parts, true);
    Regroup([LBrace], Commas(parts), [RBrace]);
  }

  lemma {:induction false} ItemsPrint(items: seq<Json>, parts: seq<seq<Token>>, first: bool)
    requires |items| == |parts| && forall i :: 0 <= i < |items| ==> parts[i] == Print(items[i])
    ensures PrintItems(items, first) == (if items == [] then [] else Separator(first)) + Commas(parts) + [RBracket]
  {
    if items != [] {
      ItemsPrint(items[1..], parts[1..], false);
      CommasOf(parts);
      JoinHead(Separator(first), parts[0], if |items| == 1 then [] else [Comma], Commas(parts[1..]), [RBracket]);
    }
  }

  lemma SlicePrints<T>(s: Slice<T>, items: seq<Json>, text: T -> seq<Token>)
    requires |items| == |s.All()| && forall i :: 0 <= i < |items| ==> Print(items[i]) == text(s.All()[i])
    ensures Print(EncSlice(s.Nil?, items)) == SliceText(s, text)
  {
    if s.Of? {
      var parts := seq(|s.items|, i requires 0 <= i < |s.items| => text(s.items[i]));
      ItemsPrint(items, parts, true);
      Regroup([LBracket], Commas(parts), [RBracket]);
    }
  }

  lemma ToolPrints(t: ToolEntry)
    ensures Print(JObj(EncTool(t))) == ToolText(t)
  {
    ObjectPrints(EncTool(t), [Text("ecosystem", t.ecosystem), Text("reference", t.reference), Text("hash", t.hash),
                              Text("algorithm", t.algorithm)] + TextIfAny("source", t.source));
  }

  lemma SecretPrints(s: SecretEntry)
    ensures Print(JObj(EncSecret(s))) == SecretText(s)
  {
    ObjectPrints(EncSecret(s), [Text("name", s.name), Text("source", s.source)]);
  }

  lemma ToolsPrint(s: Slice<ToolEntry>)
    ensures Print(EncSlice(s.Nil?, EncTools(s.All()))) == SliceText(s, ToolText)
  {
    forall i | 0 <= i < |s.All()| ensures Print(EncTools(s.All())[i]) == ToolText(s.All()[i]) {
      ToolPrints(s.All()[i]);
    }
    SlicePrints(s, EncTools(s.All()), ToolText);
  }

  lemma SecretsPrint(s: Slice<SecretEntry>)
    requires s.Of?
    ensures Print(JArr(EncSecrets(s.All()))) == SliceText(s, SecretText)
  {
    forall i | 0 <= i < |s.All()| ensures Print(EncSecrets(s.All())[i]) == SecretText(s.All()[i]) {
      SecretPrints(s.All()[i]);
    }
    SlicePrints(s, EncSecrets(s.All()), SecretText);
  }

  lemma StepPrints(s: StepEntry)
    ensures Print(JObj(EncStep(s))) == StepText(s)
  {
    ToolsPrint(s.tools);
    if s.secrets.All() != [] {
      SecretsPrint(s.secrets);
    }
    ObjectPrints(EncStep(s), [Text("name", s.name), Text("job", s.job), Field("order", [TNum(s.order)]),
                              Field("tools", SliceText(s.tools, ToolText))]
                 + if s.secrets.All() == [] then [] else [Field("secrets", SliceText(s.secrets, SecretText))]);
  }

  lemma StepsPrint(s: Slice<StepEntry>)
    ensures Print(EncSlice(s.Nil?, EncSteps(s.All()))) == SliceText(s, StepText)
  {
    forall i | 0 <= i < |s.All()| ensures Print(EncSteps(s.All())[i]) == StepText(s.All()[i]) {
      StepPrints(s.All()[i]);
    }
    SlicePrints(s, EncSteps(s.All()), StepText);
  }

  lemma PipelinePrints(p: PipelineEntry)
    ensures Print(JObj(EncPipeline(p))) == PipelineText(p)
  {
    StepsPrint(p.steps);
    ObjectPrints(EncPipeline(p), [Text("path", p.path), Text("type", p.kind)] + TextIfAny("repo", p.repo)
                 + [Field("steps", SliceText(p.steps, StepText))]);
  }

  lemma PipelinesPrint(s: Slice<PipelineEntry>)
    ensures Print(EncSlice(s.Nil?, EncPipelines(s.All()))) == SliceText(s, PipelineText)
  {
    forall i | 0 <= i < |s.All()| ensures Print(EncPipelines(s.All())[i]) == PipelineText(s.All()[i]) {
      PipelinePrints(s.All()[i]);
    }
    SlicePrints(s, EncPipelines(s.All()), PipelineText);
  }

  lemma SignaturePrints(g: Signature)
    ensures Print(JObj(EncSignature(g))) == SignatureText(g)
  {
    ObjectPrints(EncSignature(g), [Text("algorithm", g.algorithm), Text("value", g.value)]
                 + TextIfAny("public_key", g.publicKey) + TextIfAny("issuer", g.issuer)
                 + TextIfAny("subject", g.subject));
  }

  /** The encoding of every lockfile, token by token: the fields in the order of the structs, source, repo, key,
      issuer, subject and secrets only if they are not empty, the signature only if there is one, and null for
      every other nil slice. */
  lemma EncodesAs(lf: Lockfile)
    ensures Encode(lf) == LockfileText(lf)
    ensures Canonical(lf) == LockfileText(lf.(signature := None))
  {
    TopPrints(lf);
    TopPrints(lf.(signature := None));
  }

  lemma TopPrints(lf: Lockfile)
    ensures Print(JObj(EncLockfile(lf))) == LockfileText(lf)
  {
    PipelinesPrint(lf.pipelines);
    if lf.signature.Some? {
      SignaturePrints(lf.signature.value);
    }
    ObjectPrints(EncLockfile(lf), [Field("version", [TNum(lf.version)]), Text("generated_at", lf.generatedAt),
                                   Field("pipelines", SliceText(lf.pipelines, PipelineText))]
                 + if lf.signature.None? then [] else [Field("signature", SignatureText(lf.signature.value))]);
  }
}
