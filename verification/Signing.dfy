/** internal/client/sign_bundle.go, sealedbundle_v4.go and authz_sig.go: signing every section of a
    bundle, and the fail-closed check of one section's signature. */
module Signing {
  import opened Wrappers
  import opened Text
  import opened Framing
  import opened Crypto
  import opened Bundles

  /** The message a section is signed over, numeric or keyed. */
  ghost function SectionMessage(p: Project, env: string, entries: map<string, string>): Message {
    SectionBytes(match p
                 case ById(id) => SectionDigest(id, env, entries)
                 case ByKey(key) => SectionDigestV4(key, env, entries))
  }

  ghost function SignatureBy(signer: Signer, p: Project, env: string, entries: map<string, string>): SectionSig {
    SectionSig(signer.fingerprint, signer.Sign(SectionMessage(p, env, entries)))
  }

  ghost function SignSection(signer: Signer, p: Project, env: string, sec: EnvSection): EnvSection {
    sec.(sig := Some(SignatureBy(signer, p, env, sec.entries)))
  }

  ghost function SignEnvs(signer: Signer, p: Project, envs: Envs): Envs {
    map env | env in envs :: SignSection(signer, p, env, envs[env])
  }

  method CanonicalMessage(p: Project, env: string, entries: map<string, string>) returns (m: Message)
    ensures m == SectionMessage(p, env, entries)
  {
    var d;
    match p {
      case ById(id) => d := CanonicalSectionBytes(id, env, entries);
      case ByKey(key) => d := CanonicalSectionBytesV4(key, env, entries);
    }
    m := SectionBytes(d);
  }

  method SignOne(signer: Signer, p: Project, env: string, entries: map<string, string>) returns (sig: SectionSig)
    ensures sig == SignatureBy(signer, p, env, entries)
  {
    var msg := CanonicalMessage(p, env, entries);
    sig := SectionSig(signer.fingerprint, signer.Sign(msg));
  }

  /** The loop of both signing commands, over the sections in map order. */
  method SignSections(signer: Signer, p: Project, envs: Envs) returns (signed: Envs)
    ensures signed == SignEnvs(signer, p, envs)
  {
    hide SectionMessage;
    signed := envs;
    var left := envs.Keys;
    while left != {}
      invariant left <= envs.Keys == signed.Keys
      invariant forall env :: env in envs ==>
        signed[env] == if env in left then envs[env] else SignSection(signer, p, env, envs[env])
      decreases left
    {
      var env :| env in left;
      var sig := SignOne(signer, p, env, signed[env].entries);
      signed := signed[env := signed[env].(sig := Some(sig))];
      left := left - {env};
    }
  }

  /** The version a signing command insists on: v3 by id, v4 by key. */
  function SignedVersion(p: Project): string {
    if p.ById? then V3 else V4
  }

  /** The file after SignBundleFile (ById) or SignBundleFileV4 (ByKey); unchanged when it fails. */
  ghost function SignFile(f: File, p: Project, signer: Signer): File {
    match LoadBundle(f)
    case Err => f
    case Ok(b) =>
      if b.version != SignedVersion(p) then f else WriteBundle(b.(envs := Some(SignEnvs(signer, p, Sections(b)))))
  }

  method SignBundleFile(file: BundleFile, p: Project, signer: Signer) returns (r: Result<string>)
    modifies file
    ensures file.content == SignFile(old(file.content), p, signer)
    ensures r.Err? ==> file.content == old(file.content)
    ensures var b := LoadBundle(old(file.content));
      r == if b.Ok? && b.value.version == (if p.ById? then "v3" else "v4") then Ok(signer.fingerprint) else Err
  {
    var b := LoadBundle(file.content);
    if b.Err? || b.value.version != SignedVersion(p) {
      return Err;
    }
    var signed := SignSections(signer, p, Sections(b.value));
    file.Write(b.value.(envs := Some(signed)));
    return Ok(signer.fingerprint);
  }

  // ---------------------------------------------------------------- the signature gate

  /** The broker's answers about a fingerprint: its registered key, and its live level if known. */
  datatype Resolver = Resolver(pubKeyFor: string -> Option<string>, liveLevelFor: string -> Option<int>)

  predicate VerifySignature(msg: Message, sec: EnvSection, minLevel: int, r: Resolver) {
    match sec.sig
    case None => false
    case Some(s) =>
      if s.sig.Missing? || s.signedBy == "" then false
      else
        match r.pubKeyFor(s.signedBy)
        case None => false
        case Some(key) =>
          if !Verifies(key, msg, s.sig) then false
          else
            match r.liveLevelFor(s.signedBy)
            case None => false
            case Some(level) => level >= minLevel
  }

  /** VerifySectionAuthz (ById) and VerifySectionAuthzV4 (ByKey) return nil. */
  ghost predicate VerifySectionAuthz(p: Project, env: string, sec: EnvSection, minLevel: int, r: Resolver) {
    VerifySignature(SectionMessage(p, env, sec.entries), sec, minLevel, r)
  }

  /** The fingerprint resolves to this key, and its holder's live level reaches the minimum. */
  predicate Authorized(signer: Signer, minLevel: int, r: Resolver) {
    && signer.fingerprint != ""
    && r.pubKeyFor(signer.fingerprint) == Some(signer.key)
    && r.liveLevelFor(signer.fingerprint).Some?
    && r.liveLevelFor(signer.fingerprint).value >= minLevel
  }

  /** Every Go string and map is shorter than 2^63, the range of its int length. */
  ghost predicate SectionFits(p: Project, env: string, entries: map<string, string>) {
    AllFit(env, entries) && (p.ByKey? ==> Fits(p.key))
  }

  lemma MessageInjective(p1: Project, env1: string, e1: map<string, string>,
                         p2: Project, env2: string, e2: map<string, string>)
    requires SectionFits(p1, env1, e1) && SectionFits(p2, env2, e2)
    ensures SectionMessage(p1, env1, e1) == SectionMessage(p2, env2, e2)
       <==> p1 == p2 && env1 == env2 && e1 == e2
  {
    match (p1, p2) {
      case (ById(a), ById(b)) => FrameV3Injective(a, env1, e1, b, env2, e2);
      case (ByKey(a), ByKey(b)) => FrameV4Injective(a, env1, e1, b, env2, e2);
      case (ById(a), ByKey(b)) => FramesDisjoint(a, env1, e1, b, env2, e2);
      case (ByKey(a), ById(b)) => FramesDisjoint(b, env2, e2, a, env1, e1);
    }
  }

  /** A section carrying what `signer` signed for (p0, env0, entries0) passes the gate for
      (p, env) exactly when the signer is authorized and nothing at all has changed. */
  lemma SignatureBinds(signer: Signer, p0: Project, env0: string, entries0: map<string, string>,
                       p: Project, env: string, sec: EnvSection, minLevel: int, r: Resolver)
    requires SectionFits(p0, env0, entries0) && SectionFits(p, env, sec.entries)
    requires sec.sig == Some(SignatureBy(signer, p0, env0, entries0))
    ensures VerifySectionAuthz(p, env, sec, minLevel, r)
       <==> p == p0 && env == env0 && sec.entries == entries0 && Authorized(signer, minLevel, r)
  {
    MessageInjective(p0, env0, entries0, p, env, sec.entries);
  }

  /** Signing a file and gating its sections agree: every section of the written bundle passes its own
      verifier iff the signer is registered at or above the level, and no other project's verifier. */
  lemma SignedFilePasses(f: File, p: Project, signer: Signer, env: string, q: Project, minLevel: int, r: Resolver)
    requires LoadBundle(f).Ok? && LoadBundle(f).value.version == (if p.ById? then "v3" else "v4")
    requires env in Sections(LoadBundle(f).value)
    requires SectionFits(p, env, Sections(LoadBundle(f).value)[env].entries) && (q.ByKey? ==> Fits(q.key))
    ensures var after := LoadBundle(SignFile(f, p, signer));
      && after.Ok? && env in Sections(after.value)
      && Sections(after.value)[env].(sig := None) == Sections(LoadBundle(f).value)[env].(sig := None)
      && Sections(after.value).Keys == Sections(LoadBundle(f).value).Keys
      && after.value.(envs := None, recipients := None) == LoadBundle(f).value.(envs := None, recipients := None)
      && (VerifySectionAuthz(q, env, Sections(after.value)[env], minLevel, r)
          <==> q == p && Authorized(signer, minLevel, r))
  {
    var b := LoadBundle(f).value;
    var signed := SignEnvs(signer, p, Sections(b));
    assert signed[env].entries == Sections(b)[env].entries;
    SignatureBinds(signer, p, env, signed[env].entries, q, env, signed[env], minLevel, r);
  }
}
