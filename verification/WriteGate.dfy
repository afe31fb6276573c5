/** cmd/sealdctl/authz.go: the whole write gate of `verify --authz` - scan, author verdict, then the
    signature of every changed section - and the authoring commands against it. */
module WriteGate {
  import opened Wrappers
  import opened Text
  import opened SortedKeys
  import opened Crypto
  import opened Bundles
  import opened Sealing
  import opened Signing
  import opened Authz
  import opened MinimalDiff

  /** The resolved CI inputs: the author's level (None when the lookup fails), the repo's policy and
      public key, and the broker's answers about signers. */
  datatype Inputs = Inputs(projectID: int64, recipient: string, rc: RepoConfig, authorLevel: Option<int>,
                           sigCheck: bool, resolver: Resolver)

  /** What a bundle's section signatures must be bound to. */
  function BoundTo(ci: Inputs, b: Bundle): Project {
    if b.version == V4 then ByKey(ci.recipient) else ById(ci.projectID)
  }

  ghost predicate SectionOk(ci: Inputs, b: Bundle, env: string) {
    env in Sections(b) ==>
      VerifySectionAuthz(BoundTo(ci, b), env, Sections(b)[env], MinLevelForEnv(ci.rc, env), ci.resolver)
  }

  /** The signature check of one changed env of one file at head; a file or a section that is gone has
      nothing to attribute. */
  ghost predicate SignatureOk(ci: Inputs, head: Tree, path: string, env: string) {
    match head(path)
    case Content(f) => LoadBundle(f).Ok? && SectionOk(ci, LoadBundle(f).value, env)
    case _ => true
  }

  ghost predicate SignaturesOk(ci: Inputs, head: Tree, changes: set<EntryChange>) {
    forall path, env :: Hits(changes, path, env) ==> SignatureOk(ci, head, path, env)
  }

  ghost predicate Passes(ci: Inputs, paths: set<string>, base: Tree, head: Tree) {
    && ScanOk(paths, base, head)
    && var changes := AllChanges(paths, base, head);
       || (changes == {} && REPO_YAML !in paths)
       || (&& ci.authorLevel.Some?
           && Violations(EnvsOf(changes), REPO_YAML in paths, ci.authorLevel.value, ci.rc) == {}
           && (ci.sigCheck ==> SignaturesOk(ci, head, changes)))
  }

  // ---------------------------------------------------------------- the command

  type Touches = map<string, set<string>>

  ghost predicate Groups(m: Touches, changes: set<EntryChange>) {
    && (forall path, env :: Hits(changes, path, env) <==> path in m && env in m[path])
    && forall path :: path in m ==> m[path] != {}
  }

  function Joined(m: Touches, c: EntryChange): Touches {
    m[c.file := (if c.file in m then m[c.file] else {}) + {c.env}]
  }

  lemma GroupsStep(m: Touches, changes: set<EntryChange>, c: EntryChange)
    requires Groups(m, changes)
    ensures Groups(Joined(m, c), changes + {c})
  {
    hide Hits;
    var after := Joined(m, c);
    forall path, env ensures Hits(changes + {c}, path, env) <==> path in after && env in after[path] {
      HitsOneMore(changes, c, path, env);
      assert Hits(changes, path, env) <==> path in m && env in m[path];
    }
  }

  /** The changed envs of each file. */
  method EnvsByFile(changes: seq<EntryChange>) returns (m: Touches)
    ensures Groups(m, AsSet(changes))
  {
    m := map[];
    for i := 0 to |changes|
      invariant Groups(m, AsSet(changes[..i]))
    {
      var c := changes[i];
      assert changes[..i + 1] == changes[..i] + [c];
      assert AsSet(changes[..i + 1]) == AsSet(changes[..i]) + {c};
      GroupsStep(m, AsSet(changes[..i]), c);
      m := Joined(m, c);
    }
    assert changes[..|changes|] == changes;
  }

  lemma HitsOneMore(changes: set<EntryChange>, c: EntryChange, path: string, env: string)
    ensures Hits(changes + {c}, path, env) <==> Hits(changes, path, env) || (path == c.file && env == c.env)
  {
    if path == c.file && env == c.env { assert c in changes + {c}; }
    if Hits(changes, path, env) {
      var d :| d in changes && d.file == path && d.env == env;
      assert d in changes + {c};
    }
  }

  method CheckSection(p: Project, env: string, sec: EnvSection, minLevel: int, r: Resolver) returns (ok: bool)
    ensures ok <==> VerifySectionAuthz(p, env, sec, minLevel, r)
  {
    var msg := CanonicalMessage(p, env, sec.entries);
    ok := VerifySignature(msg, sec, minLevel, r);
  }

  /** The sections of one file, counting those that fail. */
  method CountBad(ci: Inputs, b: Bundle, envs: set<string>) returns (bad: nat)
    ensures bad == 0 <==> forall env :: env in envs ==> SectionOk(ci, b, env)
  {
    bad := 0;
    var left := envs;
    while left != {}
      invariant left <= envs
      invariant bad == 0 <==> forall env :: env in envs && env !in left ==> SectionOk(ci, b, env)
      decreases left
    {
      var env :| env in left;
      if env in Sections(b) {
        var ok := CheckSection(BoundTo(ci, b), env, Sections(b)[env], MinLevelForEnv(ci.rc, env), ci.resolver);
        if !ok {
          bad := bad + 1;
        }
      }
      left := left - {env};
    }
  }

  ghost predicate FileOk(ci: Inputs, head: Tree, path: string, envs: set<string>) {
    forall env :: env in envs ==> SignatureOk(ci, head, path, env)
  }

  method CheckSignatures(ci: Inputs, head: Tree, changes: seq<EntryChange>) returns (violations: nat)
    ensures violations == 0 <==> SignaturesOk(ci, head, AsSet(changes))
  {
    var byFile := EnvsByFile(changes);
    var files := CollectAndSort(byFile.Keys);
    assert forall path :: path in files <==> path in Elements(files);
    violations := 0;
    for i := 0 to |files|
      invariant violations == 0 <==> forall j :: 0 <= j < i ==> FileOk(ci, head, files[j], byFile[files[j]])
    {
      match head(files[i])
      case Content(f) =>
        var b := LoadBundle(f);
        if b.Err? {
          violations := violations + 1;
        } else {
          var bad := CountBad(ci, b.value, byFile[files[i]]);
          violations := violations + bad;
        }
      case _ =>
    }
    forall path, env | Hits(AsSet(changes), path, env) && violations == 0 ensures SignatureOk(ci, head, path, env) {
      assert path in Elements(files);
    }
    forall j, env | 0 <= j < |files| && SignaturesOk(ci, head, AsSet(changes)) && env in byFile[files[j]]
      ensures SignatureOk(ci, head, files[j], env)
    {
      assert Hits(AsSet(changes), files[j], env);
    }
  }

  /** cmdVerifyAuthz, from the changed-file list on. */
  method CmdVerifyAuthz(ci: Inputs, changedFiles: seq<string>, base: Tree, head: Tree) returns (ok: bool)
    ensures ok <==> Passes(ci, Touched(changedFiles), base, head)
    ensures ok ==> forall f, p :: f in changedFiles && Gated(f, p) ==> Readable(base(p)) && Readable(head(p))
  {
    hide Gated, Readable, ScanOk, AllChanges, Violations, SignaturesOk;
    var scan := AuthzScan(changedFiles, base, head);
    if scan.Err? {
      return false;
    }
    var (changes, repoYAMLTouched) := scan.value;
    assert AsSet(changes) == {} <==> changes == [] by { if changes != [] { assert changes[0] in AsSet(changes); } }
    if |changes| == 0 && !repoYAMLTouched {
      return true;
    }
    if ci.authorLevel.None? {
      return false;
    }
    var violations := AuthzVerdict(changes, repoYAMLTouched, ci.authorLevel.value, ci.rc);
    if |violations| > 0 {
      assert violations[0] in Told(violations);
      return false;
    }
    if ci.sigCheck {
      var bad := CheckSignatures(ci, head, changes);
      return bad == 0;
    }
    return true;
  }

  // ---------------------------------------------------------------- exactly which merge requests pass

  /** The author may write the env, and what head holds of it is attributed. */
  ghost predicate Allowed(ci: Inputs, head: Tree, path: string, env: string) {
    && ci.authorLevel.Some? && MayWrite(ci.rc, ci.authorLevel.value, env)
    && (ci.sigCheck ==> SignatureOk(ci, head, path, env))
  }

  ghost predicate EachAllowed(ci: Inputs, base: Tree, head: Tree) {
    forall path, env :: Differs(base, head, path, env) ==> Allowed(ci, head, path, env)
  }

  /** The gate is exact over whole trees: with a file list that covers every difference and bundles it can
      read, it passes iff every position whose stored ciphertext differs lies in an env the author may
      write and head's section is attributed, and a policy edit comes from an Owner. */
  lemma PassesExact(ci: Inputs, paths: set<string>, base: Tree, head: Tree)
    requires ScanOk(paths, base, head)
    requires forall p :: base(p) != head(p) ==> p in paths
    ensures Passes(ci, paths, base, head)
       <==> && EachAllowed(ci, base, head)
            && (".seald/repo.yaml" in paths ==> ci.authorLevel.Some? && ci.authorLevel.value >= 50)
  {
    hide SignatureOk, StoredIn, AllChanges, Violations;
    var changes := AllChanges(paths, base, head);
    forall p, env ensures Hits(changes, p, env) <==> Differs(base, head, p, env) {
      ChangesAreDifferences(paths, base, head, p, env);
      if base(p) == head(p) { SameFileSame(base, head, p, env); }
    }
    NoneIffNoHits(changes);
    if ci.authorLevel.Some? {
      NoViolationsIff(EnvsOf(changes), REPO_YAML in paths, ci.authorLevel.value, ci.rc);
      EnvsAreHit(changes);
    }
  }

  /** A section passes its signature check exactly when an authorized signer signed those very entries,
      for that env, of the project the gate is run for. */
  lemma VerifiesIffSigned(p: Project, env: string, sec: EnvSection, minLevel: int, r: Resolver)
    ensures VerifySectionAuthz(p, env, sec, minLevel, r)
       <==> exists signer :: Authorized(signer, minLevel, r) && sec.sig == Some(SignatureBy(signer, p, env, sec.entries))
  {
    hide SectionMessage;
    if VerifySectionAuthz(p, env, sec, minLevel, r) {
      var fp := sec.sig.value.signedBy;
      var signer := Signer(r.pubKeyFor(fp).value, fp);
      assert sec.sig == Some(SignatureBy(signer, p, env, sec.entries));
    }
  }

  /** Whatever lands is attributed: after a pass, every head section that differs from base in some entry
      carries an authorized signer's signature over exactly its entries. */
  lemma LandedIsAttested(ci: Inputs, paths: set<string>, base: Tree, head: Tree, p: string, env: string)
    requires Passes(ci, paths, base, head) && ci.sigCheck
    requires forall q :: base(q) != head(q) ==> q in paths
    requires Differs(base, head, p, env)
    requires head(p).Content? && LoadBundle(head(p).file).Ok? && env in Sections(LoadBundle(head(p).file).value)
    ensures var b := LoadBundle(head(p).file).value;
      var project := if b.version == "v4" then ByKey(ci.recipient) else ById(ci.projectID);
      exists signer :: Authorized(signer, MinLevelForEnv(ci.rc, env), ci.resolver)
        && Sections(b)[env].sig == Some(SignatureBy(signer, project, env, Sections(b)[env].entries))
  {
    PassesExact(ci, paths, base, head);
    assert Allowed(ci, head, p, env);
    var b := LoadBundle(head(p).file).value;
    VerifiesIffSigned(BoundTo(ci, b), env, Sections(b)[env], MinLevelForEnv(ci.rc, env), ci.resolver);
  }

  /** Every section of a head file that a signing command wrote, v3 under the project's id or v4 under its
      key, is attributed iff the signer is authorized for the env. */
  lemma SignedFileAttributed(ci: Inputs, head: Tree, path: string, f: File, p: Project, signer: Signer, env: string)
    requires head(path) == Content(SignFile(f, p, signer)) && LoadBundle(f).Ok?
    requires var version := LoadBundle(f).value.version;
      (version == "v3" && p == ById(ci.projectID)) || (version == "v4" && p == ByKey(ci.recipient))
    requires env in Sections(LoadBundle(f).value)
    requires SectionFits(p, env, Sections(LoadBundle(f).value)[env].entries)
    ensures SignatureOk(ci, head, path, env) <==> Authorized(signer, MinLevelForEnv(ci.rc, env), ci.resolver)
  {
    hide SectionMessage;
    var b := LoadBundle(f).value;
    var signed := SignEnvs(signer, p, Sections(b));
    assert env in signed;
    SignatureBinds(signer, p, env, signed[env].entries, p, env, signed[env], MinLevelForEnv(ci.rc, env), ci.resolver);
  }

  // ---------------------------------------------------------------- seal, sign, merge

  /** The envs a seal adds a key to or drops one from. */
  function Rewritten(s: SealRun, prior: Envs): set<string> {
    EnvsOf(AddedBy(s, prior) + DroppedBy(s, prior))
  }

  /** A merge request that seals into one v4 bundle, or a new one, and signs it. */
  datatype SealedMerge = SealedMerge(path: string, before: File, s: SealRun, signer: Signer) {
    ghost predicate Made(age: Age, base: Tree, head: Tree) {
      && SealedPath(path) && s.project.ByKey?
      && (if before == Absent then base(path) == NoSuchPath
          else base(path) == Content(before) && LoadBundle(before).Ok? && LoadBundle(before).value.version == V4)
      && SealV4(age, before, s).Some? && LoadBundle(SealV4(age, before, s).value).Ok?
      && head(path) == Content(SignFile(SealV4(age, before, s).value, s.project, signer))
      && forall p :: p != path ==> base(p) == head(p)
    }
  }

  lemma MadeSections(age: Age, w: SealedMerge, base: Tree, head: Tree)
    requires w.Made(age, base, head)
    ensures CanSeal(age, w.s, AllEntries(PriorV4(w.before)))
    ensures var sealed := SealedEnvs(age, w.s, AllEntries(PriorV4(w.before)), PriorV4(w.before));
      && SectionsAt(base, w.path) == Ok(PriorV4(w.before))
      && SectionsAt(head, w.path) == Ok(SignEnvs(w.signer, w.s.project, sealed))
      && head(w.path).Content? && LoadBundle(head(w.path).file).Ok? && LoadBundle(head(w.path).file).value.version == V4
  {
    hide SectionMessage;
    var sealed := SealedEnvs(age, w.s, AllEntries(PriorV4(w.before)), PriorV4(w.before));
    LoadOfWrite(V4, sealed);
    assert SignEnvs(w.signer, w.s.project, sealed).Keys == sealed.Keys;
  }

  lemma SignedAt(signer: Signer, p: Project, envs: Envs, slot: Slot)
    ensures At(SignEnvs(signer, p, envs), slot) == At(envs, slot)
  {
    hide SectionMessage;
  }

  /** The gate sees the keys the seal added or dropped, and nothing else. */
  lemma MadeDiffers(age: Age, w: SealedMerge, base: Tree, head: Tree, path: string, env: string)
    requires w.Made(age, base, head)
    ensures Differs(base, head, path, env) <==> path == w.path && env in Rewritten(w.s, PriorV4(w.before))
  {
    hide SealV4, SealedEnvs, SignFile, SignEnvs;
    if path == w.path {
      var prior := PriorV4(w.before);
      MadeSections(age, w, base, head);
      var sealed := SealedEnvs(age, w.s, AllEntries(prior), prior);
      ResealV4Minimal(age, w.before, w.s);
      forall key
        ensures StoredIn(base, path, env, key) == At(prior, (env, key)) && StoredIn(head, path, env, key) == At(sealed, (env, key))
        ensures (exists c :: c in SealDiff(age, w.s, AllEntries(prior), prior) && c.env == env && c.key == key)
           <==> StoredIn(base, path, env, key) != StoredIn(head, path, env, key)
      {
        SignedAt(w.signer, w.s.project, sealed, (env, key));
        ReplayGivesCurrent(prior, sealed, (env, key));
      }
    } else {
      SameFileSame(base, head, path, env);
    }
  }

  /** The sealing author's own signature attributes every section of the file, iff they are authorized. */
  lemma MadeAttributed(age: Age, ci: Inputs, w: SealedMerge, base: Tree, head: Tree, env: string)
    requires w.Made(age, base, head) && w.s.project == ByKey(ci.recipient)
    requires var sealed := SealedEnvs(age, w.s, AllEntries(PriorV4(w.before)), PriorV4(w.before));
      env in sealed && SectionFits(w.s.project, env, sealed[env].entries)
    ensures SignatureOk(ci, head, w.path, env) <==> Authorized(w.signer, MinLevelForEnv(ci.rc, env), ci.resolver)
  {
    hide SectionMessage;
    MadeSections(age, w, base, head);
    var sealed := SealedEnvs(age, w.s, AllEntries(PriorV4(w.before)), PriorV4(w.before));
    var sec := SignEnvs(w.signer, w.s.project, sealed)[env];
    SignatureBinds(w.signer, w.s.project, env, sec.entries, w.s.project, env, sec, MinLevelForEnv(ci.rc, env), ci.resolver);
  }

  /** The author may write the env, and the signer is authorized for it. */
  ghost predicate MayLand(ci: Inputs, signer: Signer, env: string) {
    && ci.authorLevel.Some? && MayWrite(ci.rc, ci.authorLevel.value, env)
    && Authorized(signer, MinLevelForEnv(ci.rc, env), ci.resolver)
  }

  lemma RewrittenSealed(age: Age, s: SealRun, carried: map<string, Entries>, prior: Envs, env: string)
    requires CanSeal(age, s, carried) && env in Rewritten(s, prior)
    ensures env in SealedEnvs(age, s, carried, prior)
  {
    assert env in s.resolved;
  }

  lemma AllowedAtOnePath(ci: Inputs, base: Tree, head: Tree, path: string, envs: set<string>, signer: Signer)
    requires forall p, env :: Differs(base, head, p, env) <==> p == path && env in envs
    requires forall env :: env in envs ==> (Allowed(ci, head, path, env) <==> MayLand(ci, signer, env))
    ensures EachAllowed(ci, base, head) <==> forall env :: env in envs ==> MayLand(ci, signer, env)
  {
    hide Differs, Allowed, MayLand;
    if EachAllowed(ci, base, head) {
      forall env | env in envs ensures MayLand(ci, signer, env) { assert Differs(base, head, path, env); }
    }
  }

  /** Seal, sign, merge: the gate passes a merge request made that way iff its author may write, and its
      signer is authorized for, each env the seal added a key to or dropped one from - however many other
      envs the bundle holds, and whoever signed them before. */
  lemma SealedMergePasses(age: Age, ci: Inputs, w: SealedMerge, base: Tree, head: Tree)
    requires w.Made(age, base, head) && ci.sigCheck && w.s.project == ByKey(ci.recipient)
    requires var sealed := SealedEnvs(age, w.s, AllEntries(PriorV4(w.before)), PriorV4(w.before));
      forall env :: env in sealed ==> SectionFits(w.s.project, env, sealed[env].entries)
    ensures Passes(ci, {w.path}, base, head)
       <==> forall env :: env in Rewritten(w.s, PriorV4(w.before)) ==> MayLand(ci, w.signer, env)
  {
    hide SealV4, SignFile, SignatureOk, Differs, Passes, Authorized, SectionFits, EachAllowed, SealedEnvs, Rewritten;
    MadeSections(age, w, base, head);
    assert REPO_YAML != w.path by { assert REPO_YAML[5] != SEALED_PREFIX[5] == w.path[5]; }
    PassesExact(ci, {w.path}, base, head);
    var envs := Rewritten(w.s, PriorV4(w.before));
    forall p, env ensures Differs(base, head, p, env) <==> p == w.path && env in envs {
      MadeDiffers(age, w, base, head, p, env);
    }
    forall env | env in envs ensures Allowed(ci, head, w.path, env) <==> MayLand(ci, w.signer, env) {
      RewrittenSealed(age, w.s, AllEntries(PriorV4(w.before)), PriorV4(w.before), env);
      MadeAttributed(age, ci, w, base, head, env);
    }
    AllowedAtOnePath(ci, base, head, w.path, envs, w.signer);
  }
}
