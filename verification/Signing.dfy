/** Signing and verifying lockfiles, reading them back, and the pinned trust anchor. The cryptography is
    abstract: a decoder for base64 text and a predicate for valid ed25519 signatures. */
module Signing {
  import opened Wrappers
  import opened Manifest
  import opened Json
  import opened Codec

  const ALGORITHM_PLATFORM := "ed25519-platform"
  const PUBLIC_KEY_SIZE := 32
  const MAX_LOCKFILE_BYTES := 8 * 1024 * 1024

  type Bytes = seq<int>

  datatype Crypto = Crypto(decode: string -> Option<Bytes>, valid: (Bytes, seq<Token>, Bytes) -> bool)

  datatype VerifyError = NotSigned | WrongAlgorithm | UntrustedKey | BadKey | BadSignatureText | Mismatch

  /** The part both verifiers share: the key and the value decode and fit the data. */
  predicate Fits(crypto: Crypto, data: seq<Token>, sig: Signature) {
    && crypto.decode(sig.publicKey).Some? && |crypto.decode(sig.publicKey).value| == PUBLIC_KEY_SIZE
    && crypto.decode(sig.value).Some?
    && crypto.valid(crypto.decode(sig.publicKey).value, data, crypto.decode(sig.value).value)
  }

  /** Ed25519Verifier: against the key the signature carries. */
  function VerifyEmbedded(crypto: Crypto, data: seq<Token>, sig: Signature): Result<(), VerifyError> {
    if sig.algorithm != "ed25519" && sig.algorithm != ALGORITHM_PLATFORM then Err(WrongAlgorithm)
    else
      match (crypto.decode(sig.publicKey), crypto.decode(sig.value))
      case (None, _) => Err(BadKey)
      case (Some(_), None) => Err(BadSignatureText)
      case (Some(key), Some(value)) =>
        if |key| != PUBLIC_KEY_SIZE then Err(BadKey)
        else if !crypto.valid(key, data, value) then Err(Mismatch)
        else Ok(())
  }

  /** trusted: the loop looks at every pinned key and keeps what it found. */
  method Trusted(keys: seq<string>, candidate: string) returns (ok: bool)
    ensures ok <==> candidate in keys
  {
    ok := false;
    for i := 0 to |keys|
      invariant ok <==> candidate in keys[..i]
    {
      if keys[i] == candidate {
        ok := true;
      }
    }
  }

  /** PlatformVerifier: only the platform's algorithm, only a pinned key. */
  function VerifyPinned(crypto: Crypto, keys: seq<string>, data: seq<Token>, sig: Option<Signature>)
    : Result<(), VerifyError>
  {
    match sig
    case None => Err(NotSigned)
    case Some(g) =>
      if g.algorithm != ALGORITHM_PLATFORM then Err(WrongAlgorithm)
      else if g.publicKey !in keys then Err(UntrustedKey)
      else
        match crypto.decode(g.publicKey)
        case None => Err(BadKey)
        case Some(key) =>
          if |key| != PUBLIC_KEY_SIZE then Err(BadKey)
          else
            match crypto.decode(g.value)
            case None => Err(BadSignatureText)
            case Some(value) => if crypto.valid(key, data, value) then Ok(()) else Err(Mismatch)
  }

  /** Pinning is exactly what the platform verifier adds: it accepts what the embedded-key verifier accepts,
      if the algorithm is the platform's and the key is one of the pinned ones. */
  lemma PinningRefinesEmbedded(crypto: Crypto, keys: seq<string>, data: seq<Token>, sig: Signature)
    ensures VerifyPinned(crypto, keys, data, Some(sig)).Ok? <==>
            VerifyEmbedded(crypto, data, sig).Ok? && sig.algorithm == ALGORITHM_PLATFORM && sig.publicKey in keys
  {
  }

  /** The platform verifier accepts exactly a signature by the platform's algorithm, with a pinned key of 32 bytes,
      that is valid for the data. */
  lemma AcceptsExactly(crypto: Crypto, keys: seq<string>, data: seq<Token>, sig: Signature)
    ensures VerifyPinned(crypto, keys, data, Some(sig)).Ok? <==>
            && sig.algorithm == "ed25519-platform" && sig.publicKey in keys
            && crypto.decode(sig.publicKey).Some? && |crypto.decode(sig.publicKey).value| == 32
            && crypto.decode(sig.value).Some?
            && crypto.valid(crypto.decode(sig.publicKey).value, data, crypto.decode(sig.value).value)
  {
  }

  /** And the embedded-key verifier exactly one by either algorithm, with whatever key it carries. */
  lemma EmbeddedAcceptsExactly(crypto: Crypto, data: seq<Token>, sig: Signature)
    ensures VerifyEmbedded(crypto, data, sig).Ok? <==>
            && (sig.algorithm == "ed25519" || sig.algorithm == "ed25519-platform")
            && crypto.decode(sig.publicKey).Some? && |crypto.decode(sig.publicKey).value| == 32
            && crypto.decode(sig.value).Some?
            && crypto.valid(crypto.decode(sig.publicKey).value, data, crypto.decode(sig.value).value)
  {
  }

  /** Each refusal names the first condition that fails: the algorithm, the pinned key, the key, the signature's text,
      its validity. */
  lemma RefusesExactly(crypto: Crypto, keys: seq<string>, data: seq<Token>, sig: Signature)
    ensures var r := VerifyPinned(crypto, keys, data, Some(sig));
            var named := sig.algorithm == "ed25519-platform";
            var pinned := named && sig.publicKey in keys;
            var keyed := pinned && crypto.decode(sig.publicKey).Some? && |crypto.decode(sig.publicKey).value| == 32;
            && (r == Err(WrongAlgorithm) <==> !named)
            && (r == Err(UntrustedKey) <==> named && !pinned)
            && (r == Err(BadKey) <==> pinned && !keyed)
            && (r == Err(BadSignatureText) <==> keyed && crypto.decode(sig.value).None?)
            && (r == Err(Mismatch) <==> keyed && crypto.decode(sig.value).Some? && r.Err?)
            && r != Err(NotSigned) && VerifyPinned(crypto, keys, data, None) == Err(NotSigned)
  {
  }

  function VerifyLockfile(crypto: Crypto, keys: seq<string>, lf: Lockfile): Result<(), VerifyError> {
    if lf.signature.None? then Err(NotSigned) else VerifyPinned(crypto, keys, Canonical(lf), lf.signature)
  }

  datatype Reply = Reply(algorithm: string, value: string, publicKey: string)

  /** signViaPlat: the platform signs the canonical form; another algorithm than its own is refused. */
  function SignLockfile(lf: Lockfile, sign: seq<Token> -> Option<Reply>): Option<Lockfile> {
    match sign(Canonical(lf))
    case None => None
    case Some(r) =>
      if r.algorithm != ALGORITHM_PLATFORM then None
      else Some(lf.(signature := Some(Signature(r.algorithm, r.value, r.publicKey, "", ""))))
  }

  /** The lockfile init holds while it is signed in place. */
  class Draft {
    var lf: Lockfile

    constructor (lf: Lockfile)
      ensures this.lf == lf
    {
      this.lf := lf;
    }

    /** Signing assigns the signature and nothing else; a refusal leaves the lockfile as it was. */
    method Sign(sign: seq<Token> -> Option<Reply>) returns (ok: bool)
      modifies this
      ensures var reply := sign(Canonical(old(lf)));
              && (ok <==> reply.Some? && reply.value.algorithm == "ed25519-platform")
              && (ok ==> lf == old(lf).(signature :=
                    Some(Signature("ed25519-platform", reply.value.value, reply.value.publicKey, "", ""))))
              && (!ok ==> lf == old(lf))
      ensures ok <==> SignLockfile(old(lf), sign).Some?
      ensures lf == if ok then SignLockfile(old(lf), sign).value else old(lf)
      ensures Canonical(lf) == Canonical(old(lf))
    {
      var reply := sign(Canonical(lf));
      if reply.None? || reply.value.algorithm != ALGORITHM_PLATFORM {
        return false;
      }
      assert lf.(signature := None) == lf.(signature := Some(Signature("", "", "", "", ""))).(signature := None);
      lf := lf.(signature := Some(Signature(reply.value.algorithm, reply.value.value, reply.value.publicKey, "", "")));
      return true;
    }
  }

  /** A platform that holds one of the pinned keys and signs what it is given. */
  ghost predicate Genuine(crypto: Crypto, keys: seq<string>, sign: seq<Token> -> Option<Reply>) {
    forall data :: sign(data).Some? ==>
      var r := sign(data).value;
      r.publicKey in keys && Fits(crypto, data, Signature(r.algorithm, r.value, r.publicKey, "", ""))
  }

  // ---------------------------------------------------------------- reading

  /** A file: how many bytes it has, and its tokens. */
  datatype File = File(size: nat, tokens: seq<Token>)

  datatype ReadError = TooLarge | Unparsable | Malformed(fault: Invalid)

  method ReadLockfile(file: File) returns (r: Result<Lockfile, ReadError>)
    ensures r.Ok? <==> Readable(file)
    ensures r.Ok? ==> Decode(file.tokens) == Some(r.value)
    ensures r == Err(TooLarge) <==> file.size > 8_388_608
    ensures r == Err(Unparsable) <==> file.size <= 8_388_608 && Decode(file.tokens).None?
    ensures r.Err? && r.error.Malformed? ==>
              Decode(file.tokens).Some? && Explains(Decode(file.tokens).value, r.error.fault)
  {
    if file.size > MAX_LOCKFILE_BYTES {
      return Err(TooLarge);
    }
    var lf := Decode(file.tokens);
    if lf.None? {
      return Err(Unparsable);
    }
    var fault := ValidateLockfile(lf.value);
    if fault.Some? {
      return Err(Malformed(fault.value));
    }
    return Ok(lf.value);
  }

  ghost predicate Readable(file: File) {
    file.size <= MAX_LOCKFILE_BYTES && Decode(file.tokens).Some? && WellFormed(Decode(file.tokens).value)
  }

  /** What a reader gets does not depend on anything after the first JSON value, whoever wrote it. */
  lemma TrailingTokensIgnored(ts: seq<Token>, extra: seq<Token>)
    requires Decode(ts).Some?
    ensures Decode(ts + extra) == Decode(ts)
  {
    ParseMore(ts, extra);
  }

  lemma NormalStepEntries(s: Slice<StepEntry>, n: nat)
    requires n <= |s.All()|
    ensures StepTools(NormalSteps(s).All(), n) == StepTools(s.All(), n)
  {
  }

  lemma {:induction false} NormalPipelineTools(s: Slice<PipelineEntry>, n: nat)
    requires n <= |s.All()|
    ensures PipelineTools(NormalPipelines(s).All(), n) == PipelineTools(s.All(), n)
  {
    if n > 0 {
      var p := s.All()[n - 1];
      assert NormalPipelines(s).All()[n - 1] == NormalPipeline(p) && NormalPipeline(p).steps == NormalSteps(p.steps);
      NormalPipelineTools(s, n - 1);
      NormalStepEntries(p.steps, |p.steps.All()|);
    }
  }

  /** Normalising changes no tool entry. */
  lemma NormalEntries(lf: Lockfile)
    ensures Entries(Normal(lf)) == Entries(lf)
  {
    NormalPipelineTools(lf.pipelines, |lf.pipelines.All()|);
  }

  /** A lockfile that was signed by the platform, written and read back still verifies, and is the same
      lockfile up to empty-versus-nil secrets. It can be read if the file is not too large and it was valid. */
  lemma SignedWrittenReadVerifies(crypto: Crypto, keys: seq<string>, sign: seq<Token> -> Option<Reply>,
                                  lf: Lockfile, size: nat, rest: seq<Token>)
    requires Genuine(crypto, keys, sign) && SignLockfile(lf, sign).Some?
    ensures var signed := SignLockfile(lf, sign).value;
            var file := File(size, Encode(signed) + rest);
            && Decode(file.tokens) == Some(Normal(signed))
            && VerifyLockfile(crypto, keys, Normal(signed)) == Ok(())
            && (Readable(file) <==> size <= MAX_LOCKFILE_BYTES && WellFormed(lf))
  {
    var signed := SignLockfile(lf, sign).value;
    RoundTrip(signed, rest);
    NormalEncoding(signed);
    NormalEntries(signed);
    assert Canonical(signed) == Canonical(lf);
    assert Entries(signed) == Entries(lf);
  }

  /** One key and value that are valid for two different texts, which a signature scheme makes infeasible to find. */
  ghost predicate FitsBoth(crypto: Crypto, a: seq<Token>, b: seq<Token>, sig: Signature) {
    a != b && Fits(crypto, a, sig) && Fits(crypto, b, sig)
  }

  /** The signature covers the whole document: two lockfiles that verify under the same one agree on everything
      else, up to empty-versus-nil secrets, or their canonical forms are two texts that one signature fits. */
  lemma SignatureCoversAll(crypto: Crypto, keys: seq<string>, a: Lockfile, b: Lockfile)
    requires a.signature == b.signature
    requires VerifyLockfile(crypto, keys, a).Ok? && VerifyLockfile(crypto, keys, b).Ok?
    ensures Normal(a) == Normal(b) || FitsBoth(crypto, Canonical(a), Canonical(b), a.signature.value)
  {
    CanonicalIsFaithful(a, b);
    assert Normal(a) == Normal(a.(signature := None)).(signature := a.signature);
    assert Normal(b) == Normal(b.(signature := None)).(signature := b.signature);
  }
}
