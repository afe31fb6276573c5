/** internal/client/migrate_v3.go, migrate_v4.go and migrate_envrecip.go: moving a committed bundle
    from numeric to keyed envelopes, and from cluster to per-env recipients. */
module Migration {
  import opened Wrappers
  import opened Text
  import opened SortedKeys
  import opened Framing
  import opened Envelope
  import opened Crypto
  import opened Bundles
  import opened Sealing
  import opened Signing

  // ---------------------------------------------------------------- v2 -> v3

  /** The sections a v3 migration writes: ciphertexts as they were, label dropped, freshly signed. */
  ghost function RelabelledEnvs(signer: Signer, projectID: int64, envs: Envs): Envs {
    map env | env in envs :: SignSection(signer, ById(projectID), env, envs[env].(cluster := ""))
  }

  predicate CanMigrateV3(b: Bundle, projectID: int64) {
    && (b.version == V2 || b.version == V3)
    && Sections(b) != map[]
    && !(b.version == V2 && b.projectID != 0 && b.projectID != projectID)
  }

  /** The file after MigrateBundleToV3, or None when it fails and leaves the file alone. */
  ghost function MigrateV3(f: File, projectID: int64, signer: Signer): Option<File> {
    match LoadBundle(f)
    case Err => None
    case Ok(b) =>
      if CanMigrateV3(b, projectID)
      then Some(WriteBundle(Normalized(V3, RelabelledEnvs(signer, projectID, Sections(b)))))
      else None
  }

  method MigrateBundleToV3(file: BundleFile, projectID: int64, signer: Signer) returns (r: Result<seq<string>>)
    modifies file
    ensures var after := MigrateV3(old(file.content), projectID, signer);
      && (r.Ok? <==> after.Some?)
      && file.content == (if after.Some? then after.value else old(file.content))
      && (r.Ok? ==> r.value == Sorted(Sections(LoadBundle(old(file.content)).value).Keys))
  {
    var loaded := LoadBundle(file.content);
    if loaded.Err? || !CanMigrateV3(loaded.value, projectID) {
      return Err;
    }
    var before := Sections(loaded.value);
    var envs := map env | env in before :: before[env].(cluster := "");
    var signed := SignSections(signer, ById(projectID), envs);
    assert signed == RelabelledEnvs(signer, projectID, before);
    file.Write(Normalized(V3, signed));
    var envsSigned := CollectAndSort(before.Keys);
    return Ok(envsSigned);
  }

  // ---------------------------------------------------------------- re-encryption

  /** How an entry is read before it is sealed again: by numeric id (the bundle's own, or when that is
      absent the one embedded in the ciphertext), or by the project key. */
  datatype Reading = AsNumeric(bundleID: int64) | AsKeyed(owner: string)

  /** decryptForMigrate for a numeric bundle; UnsealVerifiedByKey for a keyed one. */
  function Reread(age: Age, stored: string, humanIdentity: string, how: Reading): (r: Result<(string, int)>)
    ensures r.Ok? ==> DEFAULT_LEVEL <= r.value.1 <= INT64_MAX
  {
    match age.blob(stored)
    case None => Err
    case Some(ct) =>
      match how
      case AsKeyed(owner) => Unseal(age, ct, humanIdentity, ByKey(owner))
      case AsNumeric(id) =>
        if id != 0 then Unseal(age, ct, humanIdentity, ById(id))
        else
          match EmbeddedProjectID(age, ct, humanIdentity)
          case Err => Err
          case Ok(embedded) => Unseal(age, ct, humanIdentity, ById(embedded))
  }

  datatype Reseal = Reseal(how: Reading, humanIdentity: string, owner: string, recipient: map<string, string>,
                           signer: Signer, rand: (string, string) -> nat)

  function ResealEntry(age: Age, m: Reseal, env: string, name: string, stored: string): Result<string>
    requires env in m.recipient
  {
    match Reread(age, stored, m.humanIdentity, m.how)
    case Err => Err
    case Ok((plaintext, level)) =>
      match Seal(age, ByKey(m.owner), plaintext, [m.owner, m.recipient[env]], name, level, m.rand(env, name))
      case Err => Err
      case Ok(ct) => Ok(age.armor(ct))
  }

  predicate CanResealEnv(age: Age, m: Reseal, env: string, entries: Entries) {
    && env in m.recipient
    && forall name :: name in entries ==> ResealEntry(age, m, env, name, entries[name]).Ok?
  }

  function ResealedEntries(age: Age, m: Reseal, env: string, entries: Entries): Entries
    requires CanResealEnv(age, m, env, entries)
  {
    map name | name in entries :: ResealEntry(age, m, env, name, entries[name]).value
  }

  ghost function ResealedSection(age: Age, m: Reseal, env: string, entries: Entries): EnvSection
    requires CanResealEnv(age, m, env, entries)
  {
    var resealed := ResealedEntries(age, m, env, entries);
    EnvSection("", resealed, Some(SignatureBy(m.signer, ByKey(m.owner), env, resealed)))
  }

  predicate CanReseal(age: Age, m: Reseal, envs: Envs) {
    forall env :: env in envs ==> CanResealEnv(age, m, env, envs[env].entries)
  }

  ghost function ResealedEnvs(age: Age, m: Reseal, envs: Envs): Envs
    requires CanReseal(age, m, envs)
  {
    map env | env in envs :: ResealedSection(age, m, env, envs[env].entries)
  }

  method ResealEntries(age: Age, m: Reseal, env: string, entries: Entries) returns (r: Result<Entries>)
    requires env in m.recipient
    ensures r.Ok? <==> CanResealEnv(age, m, env, entries)
    ensures r.Ok? ==> r.value == ResealedEntries(age, m, env, entries)
  {
    var resealed: Entries := map[];
    var left := entries.Keys;
    while left != {}
      invariant left <= entries.Keys && resealed.Keys == entries.Keys - left
      invariant forall name :: name in resealed ==> Ok(resealed[name]) == ResealEntry(age, m, env, name, entries[name])
      decreases left
    {
      var name :| name in left;
      var e := ResealEntry(age, m, env, name, entries[name]);
      if e.Err? {
        return Err;
      }
      resealed := resealed[name := e.value];
      left := left - {name};
    }
    return Ok(resealed);
  }

  method ResealSection(age: Age, m: Reseal, env: string, entries: Entries) returns (r: Result<EnvSection>)
    ensures r.Ok? <==> CanResealEnv(age, m, env, entries)
    ensures r.Ok? ==> r.value == ResealedSection(age, m, env, entries)
  {
    if env !in m.recipient {
      return Err;
    }
    var resealed := ResealEntries(age, m, env, entries);
    if resealed.Err? {
      return Err;
    }
    var sig := SignOne(m.signer, ByKey(m.owner), env, resealed.value);
    return Ok(EnvSection("", resealed.value, Some(sig)));
  }

  /** The nested loops of both re-encrypting migrations, overwriting one section after another. */
  method ResealSections(age: Age, m: Reseal, before: Envs) returns (r: Result<Envs>)
    ensures r.Ok? <==> CanReseal(age, m, before)
    ensures r.Ok? ==> r.value == ResealedEnvs(age, m, before)
  {
    hide SectionMessage;
    var envs := before;
    var left := before.Keys;
    while left != {}
      invariant left <= before.Keys == envs.Keys
      invariant forall env :: env in before && env in left ==> envs[env] == before[env]
      invariant forall env :: env in before && env !in left ==>
        && CanResealEnv(age, m, env, before[env].entries)
        && envs[env] == ResealedSection(age, m, env, before[env].entries)
      decreases left
    {
      var env :| env in left;
      var sec := ResealSection(age, m, env, before[env].entries);
      if sec.Err? {
        return Err;
      }
      envs := envs[env := sec.value];
      left := left - {env};
    }
    return Ok(envs);
  }

  // ---------------------------------------------------------------- v2/v3 -> v4

  function ToV4(b: Bundle, humanIdentity: string, owner: string, clusters: map<string, string>,
                envCluster: map<string, string>, signer: Signer, rand: (string, string) -> nat): Reseal {
    Reseal(AsNumeric(b.projectID), humanIdentity, owner, ClusterRecipients(clusters, envCluster), signer, rand)
  }

  predicate CanMigrateV4(age: Age, b: Bundle, m: Reseal) {
    && IsPerEnvVersion(b.version) && Sections(b) != map[] && m.owner != "" && m.humanIdentity != ""
    && CanReseal(age, m, Sections(b))
  }

  /** The file after MigrateBundleToV4, or None when it fails and leaves the file alone. */
  ghost function MigrateV4(age: Age, f: File, humanIdentity: string, owner: string, clusters: map<string, string>,
                           envCluster: map<string, string>, signer: Signer, rand: (string, string) -> nat): Option<File> {
    match LoadBundle(f)
    case Err => None
    case Ok(b) =>
      var m := ToV4(b, humanIdentity, owner, clusters, envCluster, signer, rand);
      if CanMigrateV4(age, b, m) then Some(WriteBundle(Normalized(V4, ResealedEnvs(age, m, Sections(b))))) else None
  }

  method MigrateBundleToV4(age: Age, file: BundleFile, humanIdentity: string, owner: string,
                           clusters: map<string, string>, envCluster: map<string, string>,
                           signer: Signer, rand: (string, string) -> nat)
    returns (r: Result<seq<string>>)
    modifies file
    ensures var after := MigrateV4(age, old(file.content), humanIdentity, owner, clusters, envCluster, signer, rand);
      && (r.Ok? <==> after.Some?)
      && file.content == (if after.Some? then after.value else old(file.content))
      && (r.Ok? ==> r.value == Sorted(Sections(LoadBundle(old(file.content)).value).Keys))
  {
    var b := LoadBundle(file.content);
    if b.Err? || !IsPerEnvVersion(b.value.version) || Sections(b.value) == map[] {
      return Err;
    }
    if owner == "" || humanIdentity == "" {
      return Err;
    }
    var m := ToV4(b.value, humanIdentity, owner, clusters, envCluster, signer, rand);
    var resealed := ResealSections(age, m, Sections(b.value));
    if resealed.Err? {
      return Err;
    }
    file.Write(Normalized(V4, resealed.value));
    var envsSigned := CollectAndSort(Sections(b.value).Keys);
    return Ok(envsSigned);
  }

  // ---------------------------------------------------------------- v4 -> per-env recipients

  function ToEnvRecipients(humanIdentity: string, owner: string, envRecipients: map<string, string>,
                           signer: Signer, rand: (string, string) -> nat): Reseal {
    Reseal(AsKeyed(owner), humanIdentity, owner, map e | e in envRecipients && envRecipients[e] != "" :: envRecipients[e],
           signer, rand)
  }

  predicate CanReSealFile(age: Age, b: Bundle, m: Reseal) {
    b.version == V4 && m.owner != "" && m.humanIdentity != "" && CanReseal(age, m, Sections(b))
  }

  /** The file after ReSealToEnvRecipients, or None when it fails and leaves the file alone. */
  ghost function ReSealFile(age: Age, f: File, humanIdentity: string, owner: string, envRecipients: map<string, string>,
                            signer: Signer, rand: (string, string) -> nat): Option<File> {
    match LoadBundle(f)
    case Err => None
    case Ok(b) =>
      var m := ToEnvRecipients(humanIdentity, owner, envRecipients, signer, rand);
      if CanReSealFile(age, b, m) then Some(WriteBundle(b.(envs := Some(ResealedEnvs(age, m, Sections(b)))))) else None
  }

  method ReSealToEnvRecipients(age: Age, file: BundleFile, humanIdentity: string, owner: string,
                               envRecipients: map<string, string>, signer: Signer, rand: (string, string) -> nat)
    returns (r: Result<seq<string>>)
    modifies file
    ensures var after := ReSealFile(age, old(file.content), humanIdentity, owner, envRecipients, signer, rand);
      && (r.Ok? <==> after.Some?)
      && file.content == (if after.Some? then after.value else old(file.content))
      && (r.Ok? ==> r.value == Sorted(Sections(LoadBundle(old(file.content)).value).Keys))
  {
    var b := LoadBundle(file.content);
    if b.Err? || b.value.version != V4 || owner == "" || humanIdentity == "" {
      return Err;
    }
    var m := ToEnvRecipients(humanIdentity, owner, envRecipients, signer, rand);
    var resealed := ResealSections(age, m, Sections(b.value));
    if resealed.Err? {
      return Err;
    }
    file.Write(b.value.(envs := Some(resealed.value)));
    var envsSigned := CollectAndSort(Sections(b.value).Keys);
    return Ok(envsSigned);
  }

  // ---------------------------------------------------------------- what the migrations accept

  /** A v3 migration accepts exactly: a v2 file, complete, of this project or of none, or a v3 file; with at
      least one env. Nothing is decrypted, so nothing else is asked. */
  lemma MigrateV3Accepts(f: File, projectID: int64, signer: Signer)
    ensures MigrateV3(f, projectID, signer).Some?
       <==> && f.Json? && f.bundle.kind == "SealedBundle" && f.bundle.envs.Some? && f.bundle.envs.value != map[]
            && (|| f.bundle.version == "v3"
                || (&& f.bundle.version == "v2" && f.bundle.recipients.Some?
                    && (f.bundle.projectID == 0 || f.bundle.projectID == projectID)))
  {
  }

  /** A per-env bundle with at least one env. */
  predicate HasEnvs(f: File) {
    && f.Json? && f.bundle.kind == "SealedBundle" && f.bundle.envs.Some? && f.bundle.envs.value != map[]
    && (f.bundle.version == "v3" || f.bundle.version == "v4" || (f.bundle.version == "v2" && f.bundle.recipients.Some?))
  }

  /** The identity opens the stored entry for some numeric project. */
  ghost predicate OpensNumeric(age: Age, stored: string, identity: string) {
    age.blob(stored).Some? && exists id: int64 :: id > 0 && Unseal(age, age.blob(stored).value, identity, ById(id)).Ok?
  }

  lemma EntryReseals(age: Age, m: Reseal, env: string, name: string, stored: string)
    requires env in m.recipient
    ensures ResealEntry(age, m, env, name, stored).Ok?
       <==> && Reread(age, stored, m.humanIdentity, m.how).Ok?
            && age.validRecipient(m.owner) && age.validRecipient(m.recipient[env])
  {
    assert [m.owner, m.recipient[env]][0] == m.owner && [m.owner, m.recipient[env]][1] == m.recipient[env];
  }

  /** An entry is re-read iff the identity opens it: for the bundle's own id when it has one, for any numeric
      project when it has none, for the owner's key when the bundle is keyed. */
  lemma RereadsIff(age: Age, stored: string, humanIdentity: string, how: Reading)
    ensures Reread(age, stored, humanIdentity, how).Ok?
       <==> match how
            case AsKeyed(owner) => age.blob(stored).Some? && Unseal(age, age.blob(stored).value, humanIdentity, ByKey(owner)).Ok?
            case AsNumeric(id) =>
              if id != 0 then age.blob(stored).Some? && Unseal(age, age.blob(stored).value, humanIdentity, ById(id)).Ok?
              else OpensNumeric(age, stored, humanIdentity)
  {
    if how == AsNumeric(0) && age.blob(stored).Some? {
      var ct := age.blob(stored).value;
      if EmbeddedProjectID(age, ct, humanIdentity).Ok? {
        var id: int64 := EmbeddedProjectID(age, ct, humanIdentity).value;
        OpensForEmbedded(ct.payload, id);
        assert Unseal(age, ct, humanIdentity, ById(id)).Ok?;
      }
      if id: int64 :| id > 0 && Unseal(age, ct, humanIdentity, ById(id)).Ok? {
        OpensForEmbedded(ct.payload, id);
      }
    }
  }

  /** What every entry of an env must be for a re-encryption to go through. */
  ghost predicate EnvReseals(age: Age, m: Reseal, env: string, entries: Entries) {
    && env in m.recipient
    && forall name :: name in entries ==>
         && Reread(age, entries[name], m.humanIdentity, m.how).Ok?
         && age.validRecipient(m.owner) && age.validRecipient(m.recipient[env])
  }

  lemma CanResealIff(age: Age, m: Reseal, envs: Envs)
    ensures CanReseal(age, m, envs) <==> forall env :: env in envs ==> EnvReseals(age, m, env, envs[env].entries)
  {
    hide ResealEntry, Reread;
    forall env, name | env in envs && name in envs[env].entries && env in m.recipient
      ensures ResealEntry(age, m, env, name, envs[env].entries[name]).Ok?
         <==> && Reread(age, envs[env].entries[name], m.humanIdentity, m.how).Ok?
              && age.validRecipient(m.owner) && age.validRecipient(m.recipient[env])
    {
      EntryReseals(age, m, env, name, envs[env].entries[name]);
    }
  }

  /** A v4 migration accepts exactly: a per-env file with at least one env, an owner key and an identity, a
      cluster recipient for each env, and entries that identity opens - for the file's own id if it carries
      one - under valid keys. */
  lemma MigrateV4Accepts(age: Age, f: File, humanIdentity: string, owner: string, clusters: map<string, string>,
                         envCluster: map<string, string>, signer: Signer, rand: (string, string) -> nat)
    ensures MigrateV4(age, f, humanIdentity, owner, clusters, envCluster, signer, rand).Some?
       <==> && HasEnvs(f) && owner != "" && humanIdentity != ""
            && forall env :: env in f.bundle.envs.value ==>
                 && env in envCluster && envCluster[env] in clusters
                 && forall name :: name in f.bundle.envs.value[env].entries ==>
                      var stored := f.bundle.envs.value[env].entries[name];
                      && age.validRecipient(owner) && age.validRecipient(clusters[envCluster[env]])
                      && (if f.bundle.projectID == 0 then OpensNumeric(age, stored, humanIdentity)
                          else && age.blob(stored).Some?
                               && Unseal(age, age.blob(stored).value, humanIdentity, ById(f.bundle.projectID)).Ok?)
  {
    hide Reread, OpensNumeric, Unseal, CanReseal;
    if HasEnvs(f) {
      var b := f.bundle;
      var m := ToV4(b, humanIdentity, owner, clusters, envCluster, signer, rand);
      CanResealIff(age, m, Sections(b));
      forall env, name | env in b.envs.value && name in b.envs.value[env].entries
        ensures Reread(age, b.envs.value[env].entries[name], humanIdentity, m.how).Ok?
           <==> if b.projectID == 0 then OpensNumeric(age, b.envs.value[env].entries[name], humanIdentity)
                else && age.blob(b.envs.value[env].entries[name]).Some?
                     && Unseal(age, age.blob(b.envs.value[env].entries[name]).value, humanIdentity, ById(b.projectID)).Ok?
      {
        RereadsIff(age, b.envs.value[env].entries[name], humanIdentity, m.how);
      }
    }
  }

  /** A re-seal accepts exactly: a v4 file, an owner key and an identity, a recipient of its own for each env,
      and entries that identity opens for the owner's key, under valid keys. */
  lemma ReSealAccepts(age: Age, f: File, humanIdentity: string, owner: string, envRecipients: map<string, string>,
                      signer: Signer, rand: (string, string) -> nat)
    ensures ReSealFile(age, f, humanIdentity, owner, envRecipients, signer, rand).Some?
       <==> && f.Json? && f.bundle.kind == "SealedBundle" && f.bundle.version == "v4" && f.bundle.envs.Some?
            && owner != "" && humanIdentity != ""
            && forall env :: env in f.bundle.envs.value ==>
                 && env in envRecipients && envRecipients[env] != ""
                 && forall name :: name in f.bundle.envs.value[env].entries ==>
                      var stored := f.bundle.envs.value[env].entries[name];
                      && age.validRecipient(owner) && age.validRecipient(envRecipients[env])
                      && age.blob(stored).Some? && Unseal(age, age.blob(stored).value, humanIdentity, ByKey(owner)).Ok?
  {
    hide Reread, Unseal, CanReseal;
    if f.Json? && f.bundle.envs.Some? {
      var b := f.bundle;
      var m := ToEnvRecipients(humanIdentity, owner, envRecipients, signer, rand);
      CanResealIff(age, m, Sections(b));
      forall env, name | env in b.envs.value && name in b.envs.value[env].entries
        ensures Reread(age, b.envs.value[env].entries[name], humanIdentity, m.how).Ok?
           <==> && age.blob(b.envs.value[env].entries[name]).Some?
                && Unseal(age, age.blob(b.envs.value[env].entries[name]).value, humanIdentity, ByKey(owner)).Ok?
      {
        RereadsIff(age, b.envs.value[env].entries[name], humanIdentity, m.how);
      }
    }
  }

  // ---------------------------------------------------------------- the signatures migrations leave

  /** Each section a v3 migration writes passes the numeric verifier of its project, and no other, iff
      the signer is registered at or above the level. */
  lemma MigratedV3Passes(f: File, projectID: int64, signer: Signer, env: string, q: Project, minLevel: int, r: Resolver)
    requires MigrateV3(f, projectID, signer).Some? && env in Sections(LoadBundle(f).value)
    requires SectionFits(ById(projectID), env, Sections(LoadBundle(f).value)[env].entries) && (q.ByKey? ==> Fits(q.key))
    ensures var after := LoadBundle(MigrateV3(f, projectID, signer).value);
      && after.Ok? && env in Sections(after.value)
      && (VerifySectionAuthz(q, env, Sections(after.value)[env], minLevel, r)
          <==> q == ById(projectID) && Authorized(signer, minLevel, r))
  {
    hide SectionMessage;
    var envs := RelabelledEnvs(signer, projectID, Sections(LoadBundle(f).value));
    LoadOfWrite(V3, envs);
    assert env in envs;
    SignatureBinds(signer, ById(projectID), env, envs[env].entries, q, env, envs[env], minLevel, r);
  }

  /** The same for both re-encrypting migrations and the keyed verifier. */
  lemma ResealedPasses(age: Age, m: Reseal, envs: Envs, env: string, q: Project, minLevel: int, r: Resolver)
    requires CanReseal(age, m, envs) && env in envs
    requires SectionFits(ByKey(m.owner), env, ResealedEnvs(age, m, envs)[env].entries) && (q.ByKey? ==> Fits(q.key))
    ensures VerifySectionAuthz(q, env, ResealedEnvs(age, m, envs)[env], minLevel, r)
       <==> q == ByKey(m.owner) && Authorized(m.signer, minLevel, r)
  {
    hide SectionMessage;
    var sec := ResealedEnvs(age, m, envs)[env];
    SignatureBinds(m.signer, ByKey(m.owner), env, sec.entries, q, env, sec, minLevel, r);
  }

  // ---------------------------------------------------------------- a bundle that is v4 already

  /** The positive project id that what a name shows in the header spells on a header line, if any. */
  function SpelledID(name: string): Option<int> {
    var p := ProjectOf(Lines(NAME_PREFIX + Shown(name)));
    if p.Ok? && p.value > 0 then Some(p.value) else None
  }

  lemma PlainSpellsNone(name: string)
    requires NoNewline(name)
    ensures SpelledID(name) == None
  {
    NewlineFreeNameOk(name);
    PlainNameTail(name, ID_PREFIX);
  }

  lemma EmbeddedSpelled(age: Age, key: string, level: nat, name: string, plaintext: string)
    requires age.Lawful() && age.validRecipient(key) && level <= INT64_MAX
    ensures var embedded := EmbeddedID(Payload(ByKey(key), level, name, plaintext));
      if level >= DEFAULT_LEVEL && SpelledID(name).Some? then embedded == Ok(SpelledID(name).value) else embedded == Err
  {
    var payload := Payload(ByKey(key), level, name, plaintext);
    if SpelledID(name).Some? {
      KeyedByNumber(age.validRecipient, key, level, name, plaintext, SpelledID(name).value);
      OpensForEmbedded(payload, SpelledID(name).value);
    }
    if EmbeddedID(payload).Ok? {
      KeyedByNumber(age.validRecipient, key, level, name, plaintext, EmbeddedID(payload).value);
      OpensForEmbedded(payload, EmbeddedID(payload).value);
    }
  }

  /** A keyed entry is read as a numeric one exactly when the migrating identity opens it, its level is
      readable, and its own name spells a positive project id on a header line - the bundle's id, when
      the bundle has one. */
  lemma KeyedReread(age: Age, stored: string, humanIdentity: string, bundleID: int64,
                    key: string, level: nat, name: string, plaintext: string)
    requires age.Lawful() && age.validRecipient(key) && level <= INT64_MAX
    requires age.blob(stored).Some? && age.blob(stored).value.payload == Payload(ByKey(key), level, name, plaintext)
    ensures Reread(age, stored, humanIdentity, AsNumeric(bundleID)).Ok?
       <==> && age.Opens(humanIdentity, age.blob(stored).value) && level >= DEFAULT_LEVEL && SpelledID(name).Some?
            && (bundleID != 0 ==> SpelledID(name) == Some(bundleID))
  {
    hide EmbeddedID, SpelledID, Open;
    var payload := age.blob(stored).value.payload;
    EmbeddedSpelled(age, key, level, name, plaintext);
    var id := if bundleID != 0 || EmbeddedID(payload).Err? then bundleID else EmbeddedID(payload).value;
    OpensForEmbedded(payload, id);
  }

  /** So migrating a v4 bundle again is refused as soon as it holds one entry whose name spells no project
      id, as no one-line name does, and the file is left alone. */
  lemma KeyedBundleRefused(age: Age, f: File, humanIdentity: string, owner: string, clusters: map<string, string>,
                           envCluster: map<string, string>, signer: Signer, rand: (string, string) -> nat,
                           env: string, name: string, key: string, level: nat, plaintext: string)
    requires age.Lawful() && age.validRecipient(key) && level <= INT64_MAX && SpelledID(name) == None
    requires LoadBundle(f).Ok?
    requires var envs := Sections(LoadBundle(f).value);
      && env in envs && name in envs[env].entries && age.blob(envs[env].entries[name]).Some?
      && age.blob(envs[env].entries[name]).value.payload == Payload(ByKey(key), level, name, plaintext)
    ensures MigrateV4(age, f, humanIdentity, owner, clusters, envCluster, signer, rand) == None
  {
    hide SectionMessage, Reread, SpelledID;
    var b := LoadBundle(f).value;
    KeyedReread(age, Sections(b)[env].entries[name], humanIdentity, b.projectID, key, level, name, plaintext);
    var m := ToV4(b, humanIdentity, owner, clusters, envCluster, signer, rand);
    assert env in m.recipient ==> ResealEntry(age, m, env, name, Sections(b)[env].entries[name]).Err?;
    assert !CanResealEnv(age, m, env, Sections(b)[env].entries);
  }
}
