/** The migration chain v2 -> v3 -> v4 -> per-env recipients changes how entries are wrapped and
    named, never what they say: the same Secret is built at every stage. */
module Preservation {
  import opened Wrappers
  import opened Text
  import opened Envelope
  import opened Crypto
  import opened Bundles
  import opened Sealing
  import opened Signing
  import opened Migration
  import opened Materialize

  /** What a stored entry says, for a project, whoever opens it: plaintext and level. */
  function Meaning(age: Age, stored: string, p: Project): Result<(string, int)> {
    match age.blob(stored)
    case None => Err
    case Some(ct) => OpenPayload(age, ct.payload, p)
  }

  predicate OpenedBy(age: Age, stored: string, identity: string) {
    age.blob(stored).Some? && age.Opens(identity, age.blob(stored).value)
  }

  lemma ReadIsMeaning(age: Age, stored: string, identity: string, p: Project)
    ensures ReadEntry(age, stored, identity, p)
         == if OpenedBy(age, stored, identity) then Meaning(age, stored, p) else Err
  {
  }

  /** Whatever a migration reads from an entry is what the entry says for its project. */
  lemma RereadIsMeaning(age: Age, stored: string, humanIdentity: string, how: Reading, p: Project)
    requires Reread(age, stored, humanIdentity, how).Ok? && Meaning(age, stored, p).Ok?
    requires how.AsKeyed? <==> p.ByKey?
    ensures Reread(age, stored, humanIdentity, how) == Meaning(age, stored, p)
  {
    var payload := age.blob(stored).value.payload;
    match (how, p)
    case (AsKeyed(owner), ByKey(key)) => OpenedForOne(age.validRecipient, payload, 0, 0, owner, key);
    case (AsNumeric(_), ById(id)) =>
      var used := if how.bundleID != 0 then how.bundleID else EmbeddedID(payload).value;
      OpenedForOne(age.validRecipient, payload, used, id, "", "");
    case _ =>
  }

  /** A re-sealed entry says, for the project key, exactly what was read, iff its name is safe; and it
      opens for the project key and the env's recipient alone. */
  lemma ResealSays(age: Age, m: Reseal, env: string, name: string, stored: string)
    requires age.Lawful() && env in m.recipient && ResealEntry(age, m, env, name, stored).Ok?
    ensures var after := ResealEntry(age, m, env, name, stored).value;
      && (Meaning(age, after, ByKey(m.owner)) == Reread(age, stored, m.humanIdentity, m.how) <==> NameOk(name))
      && forall identity :: OpenedBy(age, after, identity)
           <==> age.recipientOf(identity) in {Some(m.owner), Some(m.recipient[env])}
  {
    var (plaintext, level) := Reread(age, stored, m.humanIdentity, m.how).value;
    PayloadRoundTrip(age, ByKey(m.owner), level, name, plaintext);
    assert forall x :: x in [m.owner, m.recipient[env]] <==> x == m.owner || x == m.recipient[env];
  }

  // ---------------------------------------------------------------- whole sections

  predicate Says(age: Age, entries: Entries, p: Project) {
    forall name :: name in entries ==> Meaning(age, entries[name], p).Ok?
  }

  /** The same names, each saying the same plaintext at the same level. */
  predicate SameMeaning(age: Age, before: Entries, p: Project, after: Entries, q: Project) {
    && before.Keys == after.Keys
    && forall name :: name in before ==> Meaning(age, before[name], p) == Meaning(age, after[name], q)
  }

  predicate AllOpenedBy(age: Age, entries: Entries, identity: string) {
    forall name :: name in entries ==> OpenedBy(age, entries[name], identity)
  }

  predicate NamesOk(entries: Entries) {
    forall name :: name in entries ==> NameOk(name)
  }

  lemma ResealSectionSays(age: Age, m: Reseal, env: string, entries: Entries, p: Project)
    requires age.Lawful() && CanResealEnv(age, m, env, entries) && NamesOk(entries)
    requires (m.how.AsKeyed? <==> p.ByKey?) && Says(age, entries, p)
    ensures var after := ResealedEntries(age, m, env, entries);
      && SameMeaning(age, entries, p, after, ByKey(m.owner))
      && forall identity | age.recipientOf(identity) in {Some(m.owner), Some(m.recipient[env])} :: AllOpenedBy(age, after, identity)
  {
    forall name | name in entries
      ensures Meaning(age, entries[name], p) == Meaning(age, ResealedEntries(age, m, env, entries)[name], ByKey(m.owner))
    {
      RereadIsMeaning(age, entries[name], m.humanIdentity, m.how, p);
      ResealSays(age, m, env, name, entries[name]);
    }
    forall identity, name | age.recipientOf(identity) in {Some(m.owner), Some(m.recipient[env])} && name in entries
      ensures OpenedBy(age, ResealedEntries(age, m, env, entries)[name], identity)
    {
      ResealSays(age, m, env, name, entries[name]);
    }
  }

  /** Sections of the same meaning read, by identities that open them, to the same data. */
  lemma SameData(age: Age, before: Entries, p: Project, i: string, after: Entries, q: Project, j: string)
    requires SameMeaning(age, before, p, after, q)
    requires AllReadable(age, before, i, p) && AllOpenedBy(age, after, j)
    ensures AllReadable(age, after, j, q) && ReadAll(age, after, j, q) == ReadAll(age, before, i, p)
  {
    hide Meaning, OpenedBy, ReadEntry;
    forall name | name in after
      ensures ReadEntry(age, after[name], j, q) == ReadEntry(age, before[name], i, p)
    {
      ReadIsMeaning(age, before[name], i, p);
      ReadIsMeaning(age, after[name], j, q);
    }
  }

  lemma ReadableSays(age: Age, entries: Entries, identity: string, p: Project)
    requires AllReadable(age, entries, identity, p)
    ensures Says(age, entries, p) && AllOpenedBy(age, entries, identity)
  {
    forall name | name in entries
      ensures Meaning(age, entries[name], p).Ok? && OpenedBy(age, entries[name], identity)
    {
      ReadIsMeaning(age, entries[name], identity, p);
    }
  }

  // ---------------------------------------------------------------- stage by stage

  /** From numeric to numeric: the entries are the same strings. The file no longer carries an id, so a job
      that relied on it must now bring the same one; without one it builds nothing. */
  lemma StageV3(age: Age, f: File, projectID: int64, signer: Signer, svc: string, job: Job, identity: string)
    requires MigrateV3(f, projectID, signer).Some?
    requires BuildSecret(age, LoadBundle(f).value, svc, job, identity).Ok?
    ensures var b, after := LoadBundle(f).value, LoadBundle(MigrateV3(f, projectID, signer).value);
      && after.Ok? && WantedProject(b, job).Some? && WantedProject(b, job).value.ById?
      && BuildSecret(age, after.value, svc, job.(projectID := WantedProject(b, job).value.id), identity)
         == BuildSecret(age, b, svc, job, identity)
      && (job.projectID == 0 ==> BuildSecret(age, after.value, svc, job, identity) == Err)
  {
    hide SectionMessage, MigrateV3, AllReadable, ReadAll, AssembleSecret;
    ShapeV3(f, projectID, signer);
  }

  /** A re-encrypting stage, from a bundle b read under `how` to one holding its resealed sections. */
  lemma StageReseal(age: Age, b: Bundle, m: Reseal, after: Bundle, p: Project, svc: string, job: Job, i: string, j: string)
    requires age.Lawful() && CanReseal(age, m, Sections(b)) && IsPerEnvVersion(b.version)
    requires after.version == V4 && Sections(after) == ResealedEnvs(age, m, Sections(b))
    requires job.env in Sections(b) && NamesOk(Sections(b)[job.env].entries)
    requires WantedProject(b, job) == Some(p) && (m.how.AsKeyed? <==> p.ByKey?)
    requires job.recipient == m.owner != ""
    requires BuildSecret(age, b, svc, job, i).Ok?
    requires age.recipientOf(j) in {Some(m.owner), Some(m.recipient[job.env])}
    ensures SameMeaning(age, Sections(b)[job.env].entries, p, Sections(after)[job.env].entries, ByKey(m.owner))
    ensures BuildSecret(age, after, svc, job, j) == BuildSecret(age, b, svc, job, i)
  {
    hide SectionMessage;
    var entries := Sections(b)[job.env].entries;
    var resealed := ResealedEntries(age, m, job.env, entries);
    assert Sections(after)[job.env].entries == resealed && Sections(after)[job.env].cluster == "";
    ReadableSays(age, entries, i, p);
    ResealSectionSays(age, m, job.env, entries, p);
    SameData(age, entries, p, i, resealed, ByKey(m.owner), j);
  }

  /** The three migrations, each from the file the one before wrote. */
  datatype Chain = Chain(projectID: int64, humanIdentity: string, owner: string, clusters: map<string, string>,
                         envCluster: map<string, string>, envRecipients: map<string, string>,
                         signer3: Signer, signer4: Signer, signer5: Signer,
                         rand4: (string, string) -> nat, rand5: (string, string) -> nat) {
    ghost function F3(f: File): Option<File> {
      MigrateV3(f, projectID, signer3)
    }

    ghost function F4(age: Age, f: File): Option<File> {
      match F3(f) case None => None
      case Some(f3) => MigrateV4(age, f3, humanIdentity, owner, clusters, envCluster, signer4, rand4)
    }

    ghost function F5(age: Age, f: File): Option<File> {
      match F4(age, f) case None => None
      case Some(f4) => ReSealFile(age, f4, humanIdentity, owner, envRecipients, signer5, rand5)
    }
  }

  lemma ShapeV3(f: File, projectID: int64, signer: Signer)
    requires MigrateV3(f, projectID, signer).Some?
    ensures var b, after := LoadBundle(f).value, LoadBundle(MigrateV3(f, projectID, signer).value);
      && after.Ok? && after.value.version == V3 && after.value.projectID == 0
      && Sections(after.value).Keys == Sections(b).Keys
      && (forall env :: env in Sections(b) ==>
            Sections(after.value)[env].entries == Sections(b)[env].entries && Sections(after.value)[env].cluster == "")
      && (b.version == V2 || b.version == V3)
      && after.value.(envs := None) == Bundle("SealedBundle", "v3", 0, 0, "", map[], None, None)
  {
    hide SectionMessage;
    LoadOfWrite(V3, RelabelledEnvs(signer, projectID, Sections(LoadBundle(f).value)));
  }

  lemma ShapeV4(age: Age, f: File, humanIdentity: string, owner: string, clusters: map<string, string>,
                envCluster: map<string, string>, signer: Signer, rand: (string, string) -> nat)
    requires MigrateV4(age, f, humanIdentity, owner, clusters, envCluster, signer, rand).Some?
    ensures var b, after := LoadBundle(f).value,
              LoadBundle(MigrateV4(age, f, humanIdentity, owner, clusters, envCluster, signer, rand).value);
      var m := ToV4(b, humanIdentity, owner, clusters, envCluster, signer, rand);
      && after.Ok? && after.value.version == V4 && owner != ""
      && after.value.(envs := None) == Bundle("SealedBundle", "v4", 0, 0, "", map[], None, None)
      && CanReseal(age, m, Sections(b)) && Sections(after.value) == ResealedEnvs(age, m, Sections(b))
      && Sections(after.value).Keys == Sections(b).Keys
  {
    hide SectionMessage, CanResealEnv;
    var b := LoadBundle(f).value;
    LoadOfWrite(V4, ResealedEnvs(age, ToV4(b, humanIdentity, owner, clusters, envCluster, signer, rand), Sections(b)));
  }

  /** A re-seal keeps the sections it finds; the v4 file it is given has at least one. */
  lemma ShapeReseal(age: Age, f: File, humanIdentity: string, owner: string, envRecipients: map<string, string>,
                    signer: Signer, rand: (string, string) -> nat)
    requires ReSealFile(age, f, humanIdentity, owner, envRecipients, signer, rand).Some?
    requires Sections(LoadBundle(f).value) != map[]
    ensures var b, after := LoadBundle(f).value,
              LoadBundle(ReSealFile(age, f, humanIdentity, owner, envRecipients, signer, rand).value);
      var m := ToEnvRecipients(humanIdentity, owner, envRecipients, signer, rand);
      && after.Ok? && after.value.version == V4
      && CanReseal(age, m, Sections(b)) && Sections(after.value) == ResealedEnvs(age, m, Sections(b))
      && Sections(after.value).Keys == Sections(b).Keys
  {
    hide SectionMessage, CanResealEnv;
    var m := ToEnvRecipients(humanIdentity, owner, envRecipients, signer, rand);
    assert ResealedEnvs(age, m, Sections(LoadBundle(f).value)).Keys == Sections(LoadBundle(f).value).Keys;
  }

  /** What each stage's file loads as. */
  lemma ChainShape(age: Age, f: File, c: Chain)
    requires c.F5(age, f).Some?
    ensures var b2, b3 := LoadBundle(f).value, LoadBundle(c.F3(f).value);
      var b4, b5 := LoadBundle(c.F4(age, f).value), LoadBundle(c.F5(age, f).value);
      && b3.Ok? && b3.value.version == V3 && b3.value.projectID == 0
      && b4.Ok? && b4.value.version == V4 && b5.Ok? && b5.value.version == V4
      && Sections(b2).Keys == Sections(b3.value).Keys == Sections(b4.value).Keys == Sections(b5.value).Keys
      && (var m4 := ToV4(b3.value, c.humanIdentity, c.owner, c.clusters, c.envCluster, c.signer4, c.rand4);
          CanReseal(age, m4, Sections(b3.value)) && Sections(b4.value) == ResealedEnvs(age, m4, Sections(b3.value)))
      && (var m5 := ToEnvRecipients(c.humanIdentity, c.owner, c.envRecipients, c.signer5, c.rand5);
          CanReseal(age, m5, Sections(b4.value)) && Sections(b5.value) == ResealedEnvs(age, m5, Sections(b4.value)))
      && c.owner != ""
  {
    hide MigrateV3, MigrateV4, ReSealFile, CanReseal, ResealedEnvs;
    ShapeV3(f, c.projectID, c.signer3);
    ShapeV4(age, c.F3(f).value, c.humanIdentity, c.owner, c.clusters, c.envCluster, c.signer4, c.rand4);
    LoadedNonempty(age, f, c);
    ShapeReseal(age, c.F4(age, f).value, c.humanIdentity, c.owner, c.envRecipients, c.signer5, c.rand5);
  }

  lemma LoadedNonempty(age: Age, f: File, c: Chain)
    requires c.F4(age, f).Some?
    ensures Sections(LoadBundle(c.F4(age, f).value).value) != map[]
  {
    hide SectionMessage, CanResealEnv;
    var b := LoadBundle(c.F3(f).value).value;
    ShapeV4(age, c.F3(f).value, c.humanIdentity, c.owner, c.clusters, c.envCluster, c.signer4, c.rand4);
    var env :| env in Sections(b);
    assert env in Sections(LoadBundle(c.F4(age, f).value).value);
  }

  /** The whole chain keeps every env, and in each env that materializes before it, under whichever
      project id the job or the bundle gives, every entry name, plaintext and level: the same Secret is
      built from the v3, the v4 and the per-env bundle with that stage's identity and discriminator. */
  lemma ChainPreserves(age: Age, f: File, c: Chain, svc: string, job: Job, i2: string, i4: string, i5: string)
    requires age.Lawful() && c.F5(age, f).Some?
    requires job.recipient == c.owner
    requires var b2 := LoadBundle(f).value;
      job.env in Sections(b2) && NamesOk(Sections(b2)[job.env].entries) && BuildSecret(age, b2, svc, job, i2).Ok?
    requires job.env in c.envCluster && c.envCluster[job.env] in c.clusters
    requires age.recipientOf(i4) in {Some(c.owner), Some(c.clusters[c.envCluster[job.env]])}
    requires job.env in c.envRecipients && age.recipientOf(i5) in {Some(c.owner), Some(c.envRecipients[job.env])}
    ensures var b2, b3 := LoadBundle(f).value, LoadBundle(c.F3(f).value);
      var b4, b5 := LoadBundle(c.F4(age, f).value), LoadBundle(c.F5(age, f).value);
      var want := WantedProject(b2, job);
      && b3.Ok? && b4.Ok? && b5.Ok? && want.Some? && want.value.ById?
      && Sections(b2).Keys == Sections(b3.value).Keys == Sections(b4.value).Keys == Sections(b5.value).Keys
      && SameMeaning(age, Sections(b2)[job.env].entries, want.value, Sections(b5.value)[job.env].entries, ByKey(c.owner))
      && BuildSecret(age, b3.value, svc, job.(projectID := want.value.id), i2) == BuildSecret(age, b2, svc, job, i2)
      && BuildSecret(age, b4.value, svc, job, i4) == BuildSecret(age, b2, svc, job, i2)
      && BuildSecret(age, b5.value, svc, job, i5) == BuildSecret(age, b2, svc, job, i2)
  {
    hide SectionMessage, BuildSecret, CanResealEnv, ResealedSection, Meaning;
    ChainShape(age, f, c);
    ShapeV3(f, c.projectID, c.signer3);
    StageV3(age, f, c.projectID, c.signer3, svc, job, i2);
    var b2, b3 := LoadBundle(f).value, LoadBundle(c.F3(f).value).value;
    var b4, b5 := LoadBundle(c.F4(age, f).value).value, LoadBundle(c.F5(age, f).value).value;
    var want := WantedProject(b2, job).value;
    var job3 := job.(projectID := want.id);
    StageV3Wants(b2, job, b3, want.id);
    var m4 := ToV4(b3, c.humanIdentity, c.owner, c.clusters, c.envCluster, c.signer4, c.rand4);
    var m5 := ToEnvRecipients(c.humanIdentity, c.owner, c.envRecipients, c.signer5, c.rand5);
    StageReseal(age, b3, m4, b4, want, svc, job3, i2, i4);
    KeyedJob(age, b4, svc, job, want.id, i4);
    assert NamesOk(Sections(b4)[job.env].entries);
    assert m5.recipient[job.env] == c.envRecipients[job.env] by { HasRecipient(age, m5, b4, job.env); }
    StageReseal(age, b4, m5, b5, ByKey(c.owner), svc, job, i4, i5);
  }

  lemma StageV3Wants(b: Bundle, job: Job, after: Bundle, id: int64)
    requires b.version != V4 && after.version == V3 && WantedProject(b, job) == Some(ById(id))
    ensures WantedProject(after, job.(projectID := id)) == Some(ById(id))
  {
  }

  /** A v4 bundle takes no notice of the job's numeric id. */
  lemma KeyedJob(age: Age, b: Bundle, svc: string, job: Job, id: int64, identity: string)
    requires b.version == V4
    ensures BuildSecret(age, b, svc, job.(projectID := id), identity) == BuildSecret(age, b, svc, job, identity)
  {
  }

  lemma HasRecipient(age: Age, m: Reseal, b: Bundle, env: string)
    requires CanReseal(age, m, Sections(b)) && env in Sections(b)
    ensures env in m.recipient
  {
  }

  // ---------------------------------------------------------------- every entry, exactly

  /** Under an unsafe name a re-sealed entry says something longer than what was read, or nothing. */
  lemma ResealGrows(age: Age, m: Reseal, env: string, name: string, stored: string)
    requires age.Lawful() && env in m.recipient && ResealEntry(age, m, env, name, stored).Ok? && !NameOk(name)
    ensures var after := Meaning(age, ResealEntry(age, m, env, name, stored).value, ByKey(m.owner));
      after.Ok? ==> |after.value.0| > |Reread(age, stored, m.humanIdentity, m.how).value.0|
  {
    var (plaintext, level) := Reread(age, stored, m.humanIdentity, m.how).value;
    KeyedOpens(age.validRecipient, m.owner, level, name, plaintext, m.owner);
    assert |Spilled(name) + plaintext| == |Spilled(name)| + |plaintext|;
  }

  /** What the first re-encryption reads is what the entry says for the id it carries. */
  lemma NumericReread(age: Age, stored: string, humanIdentity: string) returns (id: int64)
    requires Reread(age, stored, humanIdentity, AsNumeric(0)).Ok?
    ensures Reread(age, stored, humanIdentity, AsNumeric(0)) == Meaning(age, stored, ById(id))
  {
    id := EmbeddedID(age.blob(stored).value.payload).value;
  }

  /** Both re-encryptions of one entry: what it says at the end is what it said at the start iff its name
      is safe. */
  lemma TwoReseals(age: Age, m4: Reseal, m5: Reseal, env: string, name: string, stored: string) returns (id: int64)
    requires age.Lawful() && m4.how == AsNumeric(0) && m5.how == AsKeyed(m4.owner) && m5.owner == m4.owner
    requires env in m4.recipient && ResealEntry(age, m4, env, name, stored).Ok?
    requires env in m5.recipient && ResealEntry(age, m5, env, name, ResealEntry(age, m4, env, name, stored).value).Ok?
    ensures Meaning(age, stored, ById(id)).Ok?
    ensures var after := ResealEntry(age, m5, env, name, ResealEntry(age, m4, env, name, stored).value).value;
      Meaning(age, after, ByKey(m4.owner)) == Meaning(age, stored, ById(id)) <==> NameOk(name)
  {
    hide ResealEntry;
    id := NumericReread(age, stored, m4.humanIdentity) by { ResealRead(age, m4, env, name, stored); }
    var between := ResealEntry(age, m4, env, name, stored).value;
    ResealRead(age, m4, env, name, stored);
    ResealRead(age, m5, env, name, between);
    if NameOk(name) {
      ResealSays(age, m4, env, name, stored);
      ResealSays(age, m5, env, name, between);
    } else {
      ResealGrows(age, m4, env, name, stored);
      ResealGrows(age, m5, env, name, between);
    }
  }

  lemma ResealRead(age: Age, m: Reseal, env: string, name: string, stored: string)
    requires env in m.recipient && ResealEntry(age, m, env, name, stored).Ok?
    ensures Reread(age, stored, m.humanIdentity, m.how).Ok?
    ensures m.how.AsKeyed? ==> Reread(age, stored, m.humanIdentity, m.how) == Meaning(age, stored, ByKey(m.how.owner))
  {
  }

  lemma ResealOne(age: Age, m: Reseal, envs: Envs, env: string, name: string)
    requires CanReseal(age, m, envs) && env in envs && name in envs[env].entries
    ensures env in ResealedEnvs(age, m, envs) && ResealedEnvs(age, m, envs)[env].entries.Keys == envs[env].entries.Keys
    ensures env in m.recipient && ResealEntry(age, m, env, name, envs[env].entries[name]).Ok?
    ensures ResealedEnvs(age, m, envs)[env].entries[name] == ResealEntry(age, m, env, name, envs[env].entries[name]).value
  {
    hide SectionMessage, ResealEntry;
    assert CanResealEnv(age, m, env, envs[env].entries);
  }

  /** Of every bundle the chain accepts, every entry of every env is there at the end, and says for the
      project key what it said for its embedded id - plaintext and level - exactly when its name is safe. */
  lemma ChainKeepsEntry(age: Age, f: File, c: Chain, env: string, name: string)
    requires age.Lawful() && c.F5(age, f).Some?
    requires env in Sections(LoadBundle(f).value) && name in Sections(LoadBundle(f).value)[env].entries
    ensures var b2, b5 := LoadBundle(f).value, LoadBundle(c.F5(age, f).value);
      && b5.Ok? && env in Sections(b5.value)
      && Sections(b5.value)[env].entries.Keys == Sections(b2)[env].entries.Keys
      && exists id: int64 ::
           && Meaning(age, Sections(b2)[env].entries[name], ById(id)).Ok?
           && (Meaning(age, Sections(b5.value)[env].entries[name], ByKey(c.owner))
                 == Meaning(age, Sections(b2)[env].entries[name], ById(id))
               <==> NameOk(name))
  {
    hide SectionMessage, ResealEntry, Meaning, CanReseal, ResealedEnvs;
    ChainShape(age, f, c);
    ShapeV3(f, c.projectID, c.signer3);
    var b2, b3 := LoadBundle(f).value, LoadBundle(c.F3(f).value).value;
    var b4 := LoadBundle(c.F4(age, f).value).value;
    var m4 := ToV4(b3, c.humanIdentity, c.owner, c.clusters, c.envCluster, c.signer4, c.rand4);
    var m5 := ToEnvRecipients(c.humanIdentity, c.owner, c.envRecipients, c.signer5, c.rand5);
    ResealOne(age, m4, Sections(b3), env, name);
    ResealOne(age, m5, Sections(b4), env, name);
    var id := TwoReseals(age, m4, m5, env, name, Sections(b2)[env].entries[name]);
  }

  // ---------------------------------------------------------------- which files the chain accepts

  /** A re-sealed entry opens, for the project key, for the owner's and the env recipient's identities. */
  lemma ResealedOpens(age: Age, m: Reseal, env: string, name: string, stored: string, identity: string)
    requires age.Lawful() && env in m.recipient && ResealEntry(age, m, env, name, stored).Ok?
    ensures var after := age.blob(ResealEntry(age, m, env, name, stored).value);
      && after.Some?
      && (Unseal(age, after.value, identity, ByKey(m.owner)).Ok?
          <==> age.recipientOf(identity) in {Some(m.owner), Some(m.recipient[env])})
  {
    var (plaintext, level) := Reread(age, stored, m.humanIdentity, m.how).value;
    KeyedOpens(age.validRecipient, m.owner, level, name, plaintext, m.owner);
    assert forall x :: x in [m.owner, m.recipient[env]] <==> x == m.owner || x == m.recipient[env];
  }

  /** What the chain asks of one entry: some numeric project it opens for under the migrating identity, three
      valid keys, and that the identity is one of the two the v4 stage seals to, to be read again. */
  ghost predicate EntryReady(age: Age, c: Chain, env: string, stored: string)
    requires env in c.envCluster && c.envCluster[env] in c.clusters && env in c.envRecipients
  {
    && age.validRecipient(c.owner) && age.validRecipient(c.clusters[c.envCluster[env]])
    && age.validRecipient(c.envRecipients[env])
    && OpensNumeric(age, stored, c.humanIdentity)
    && age.recipientOf(c.humanIdentity) in {Some(c.owner), Some(c.clusters[c.envCluster[env]])}
  }

  ghost predicate EnvReady(age: Age, c: Chain, env: string, entries: Entries) {
    && env in c.envCluster && c.envCluster[env] in c.clusters
    && env in c.envRecipients && c.envRecipients[env] != ""
    && forall name :: name in entries ==> EntryReady(age, c, env, entries[name])
  }

  lemma EnvThrough(age: Age, c: Chain, m4: Reseal, env: string, entries: Entries)
    requires age.Lawful() && m4.how == AsNumeric(0) && m4.owner == c.owner && m4.humanIdentity == c.humanIdentity
    requires m4.recipient == ClusterRecipients(c.clusters, c.envCluster) && CanResealEnv(age, m4, env, entries)
    ensures var m5 := ToEnvRecipients(c.humanIdentity, c.owner, c.envRecipients, c.signer5, c.rand5);
      EnvReady(age, c, env, entries) <==> EnvReseals(age, m5, env, ResealedEntries(age, m4, env, entries))
  {
    hide ResealEntry, Unseal, OpensNumeric, Reread;
    var m5 := ToEnvRecipients(c.humanIdentity, c.owner, c.envRecipients, c.signer5, c.rand5);
    var after := ResealedEntries(age, m4, env, entries);
    forall name | name in entries
      ensures OpensNumeric(age, entries[name], c.humanIdentity) && age.validRecipient(c.owner) && age.validRecipient(m4.recipient[env])
      ensures Reread(age, after[name], c.humanIdentity, m5.how).Ok?
         <==> age.recipientOf(c.humanIdentity) in {Some(c.owner), Some(m4.recipient[env])}
    {
      EntryReseals(age, m4, env, name, entries[name]);
      RereadsIff(age, entries[name], c.humanIdentity, m4.how);
      ResealedOpens(age, m4, env, name, entries[name], c.humanIdentity);
      RereadsIff(age, after[name], c.humanIdentity, m5.how);
    }
  }

  lemma EnvReadyReseals(age: Age, c: Chain, m4: Reseal, env: string, entries: Entries)
    requires m4.how == AsNumeric(0) && m4.owner == c.owner && m4.humanIdentity == c.humanIdentity
    requires m4.recipient == ClusterRecipients(c.clusters, c.envCluster) && EnvReady(age, c, env, entries)
    ensures CanResealEnv(age, m4, env, entries)
  {
    hide ResealEntry, OpensNumeric, Reread;
    forall name | name in entries ensures ResealEntry(age, m4, env, name, entries[name]).Ok? {
      assert EntryReady(age, c, env, entries[name]);
      RereadsIff(age, entries[name], c.humanIdentity, m4.how);
      EntryReseals(age, m4, env, name, entries[name]);
    }
  }

  /** The chain goes through for exactly these files: a complete v2 file of this project or of none, or a v3
      file; with at least one env; and every env ready. So nothing said of its outcome is idle. */
  lemma ChainAccepts(age: Age, f: File, c: Chain)
    requires age.Lawful()
    ensures c.F5(age, f).Some?
       <==> && f.Json? && f.bundle.kind == "SealedBundle" && f.bundle.envs.Some? && f.bundle.envs.value != map[]
            && (|| f.bundle.version == "v3"
                || (&& f.bundle.version == "v2" && f.bundle.recipients.Some?
                    && (f.bundle.projectID == 0 || f.bundle.projectID == c.projectID)))
            && c.owner != "" && c.humanIdentity != ""
            && forall env :: env in f.bundle.envs.value ==> EnvReady(age, c, env, f.bundle.envs.value[env].entries)
  {
    hide EnvReady, MigrateV3, CanReseal, CanResealEnv, EnvReseals, Sections;
    MigrateV3Accepts(f, c.projectID, c.signer3);
    if MigrateV3(f, c.projectID, c.signer3).Some? {
      ChainFromV3(age, f, c);
    }
  }

  lemma ChainFromV3(age: Age, f: File, c: Chain)
    requires age.Lawful() && MigrateV3(f, c.projectID, c.signer3).Some?
    ensures f.Json? && f.bundle.envs.Some?
    ensures c.F5(age, f).Some?
       <==> && c.owner != "" && c.humanIdentity != ""
            && forall env :: env in f.bundle.envs.value ==> EnvReady(age, c, env, f.bundle.envs.value[env].entries)
  {
    hide EnvReady, MigrateV3, MigrateV4, ReSealFile, CanReseal, CanResealEnv, EnvReseals;
    V3Accepted(f, c);
    ShapeV3(f, c.projectID, c.signer3);
    var envs2 := f.bundle.envs.value;
    var f3 := c.F3(f).value;
    var b3 := LoadBundle(f3).value;
    var m4 := ToV4(b3, c.humanIdentity, c.owner, c.clusters, c.envCluster, c.signer4, c.rand4);
    V4AcceptedIff(age, f3, c, m4);
    if c.owner != "" && c.humanIdentity != "" && forall env :: env in envs2 ==> EnvReady(age, c, env, envs2[env].entries) {
      forall env | env in Sections(b3) ensures CanResealEnv(age, m4, env, Sections(b3)[env].entries) {
        EnvReadyReseals(age, c, m4, env, Sections(b3)[env].entries);
      }
      assert CanReseal(age, m4, Sections(b3)) by { AllReseal(age, m4, Sections(b3)); }
    }
    if c.F4(age, f).Some? {
      SecondReseal(age, f, c, b3, m4);
      forall env | env in Sections(b3)
        ensures EnvReady(age, c, env, Sections(b3)[env].entries)
           <==> EnvReseals(age, ToEnvRecipients(c.humanIdentity, c.owner, c.envRecipients, c.signer5, c.rand5), env,
                           ResealedEnvs(age, m4, Sections(b3))[env].entries)
      {
        OneReseals(age, m4, Sections(b3), env);
        EnvThrough(age, c, m4, env, Sections(b3)[env].entries);
      }
    }
  }

  lemma V3Accepted(f: File, c: Chain)
    requires MigrateV3(f, c.projectID, c.signer3).Some?
    ensures f.Json? && f.bundle.envs.Some? && Sections(LoadBundle(f).value) == f.bundle.envs.value != map[]
  {
  }

  lemma AllReseal(age: Age, m: Reseal, envs: Envs)
    requires forall env :: env in envs ==> CanResealEnv(age, m, env, envs[env].entries)
    ensures CanReseal(age, m, envs)
  {
    hide CanResealEnv;
  }

  lemma OneReseals(age: Age, m: Reseal, envs: Envs, env: string)
    requires CanReseal(age, m, envs) && env in envs
    ensures CanResealEnv(age, m, env, envs[env].entries)
    ensures ResealedEnvs(age, m, envs)[env].entries == ResealedEntries(age, m, env, envs[env].entries)
  {
    hide CanResealEnv, SectionMessage;
  }

  lemma V4AcceptedIff(age: Age, f3: File, c: Chain, m4: Reseal)
    requires LoadBundle(f3).Ok? && LoadBundle(f3).value.version == V3 && Sections(LoadBundle(f3).value) != map[]
    requires m4 == ToV4(LoadBundle(f3).value, c.humanIdentity, c.owner, c.clusters, c.envCluster, c.signer4, c.rand4)
    ensures MigrateV4(age, f3, c.humanIdentity, c.owner, c.clusters, c.envCluster, c.signer4, c.rand4).Some?
       <==> c.owner != "" && c.humanIdentity != "" && CanReseal(age, m4, Sections(LoadBundle(f3).value))
  {
    hide CanReseal, SectionMessage;
  }

  lemma SecondReseal(age: Age, f: File, c: Chain, b3: Bundle, m4: Reseal)
    requires c.F4(age, f).Some? && LoadBundle(c.F3(f).value) == Ok(b3)
    requires m4 == ToV4(b3, c.humanIdentity, c.owner, c.clusters, c.envCluster, c.signer4, c.rand4)
    ensures c.owner != "" && c.humanIdentity != "" && CanReseal(age, m4, Sections(b3))
    ensures var m5 := ToEnvRecipients(c.humanIdentity, c.owner, c.envRecipients, c.signer5, c.rand5);
      c.F5(age, f).Some?
      <==> forall env :: env in Sections(b3) ==> EnvReseals(age, m5, env, ResealedEnvs(age, m4, Sections(b3))[env].entries)
  {
    hide CanResealEnv, SectionMessage, EnvReseals;
    ShapeV4(age, c.F3(f).value, c.humanIdentity, c.owner, c.clusters, c.envCluster, c.signer4, c.rand4);
    var m5 := ToEnvRecipients(c.humanIdentity, c.owner, c.envRecipients, c.signer5, c.rand5);
    CanResealIff(age, m5, ResealedEnvs(age, m4, Sections(b3)));
  }
}
