/** What one seal or strip does to a file, in the command's own parameters and the fields of the file:
    whatever the file held before, of whatever version. */
module SealContents {
  import opened Wrappers
  import opened Text
  import opened Envelope
  import opened Crypto
  import opened Bundles
  import opened Sealing
  import opened Materialize

  /** The file is a v4 bundle with this section. */
  predicate HoldsV4(f: File, env: string, sec: EnvSection) {
    && f.Json? && f.bundle.kind == "SealedBundle" && f.bundle.version == "v4"
    && f.bundle.envs.Some? && env in f.bundle.envs.value && f.bundle.envs.value[env] == sec
  }

  /** The file is a v2 or v3 bundle, of any project. */
  predicate IsNumeric(f: File) {
    && f.Json? && f.bundle.kind == "SealedBundle" && f.bundle.envs.Some?
    && (f.bundle.version == "v3" || (f.bundle.version == "v2" && f.bundle.recipients.Some?))
  }

  predicate HoldsNumeric(f: File, env: string, sec: EnvSection) {
    IsNumeric(f) && env in f.bundle.envs.value && f.bundle.envs.value[env] == sec
  }

  lemma PriorV4Is(f: File, env: string, sec: EnvSection)
    ensures HoldsV4(f, env, sec) <==> env in PriorV4(f) && PriorV4(f)[env] == sec
  {
  }

  lemma PriorV2Is(f: File, projectID: int64, env: string, sec: EnvSection)
    ensures PriorV2(f, projectID).None? <==> IsNumeric(f) && f.bundle.projectID != 0 && f.bundle.projectID != projectID
    ensures PriorV2(f, projectID).Some? ==>
              (HoldsNumeric(f, env, sec) <==> env in PriorV2(f, projectID).value && PriorV2(f, projectID).value[env] == sec)
  {
  }

  /** A fresh entry reads back, for exactly the two keys' identities, to what was given, iff the level is
      readable and the name safe. */
  lemma FreshReads(age: Age, s: SealRun, env: string, name: string, value: string, identity: string)
    requires age.Lawful() && env in s.recipient && FreshEntry(age, s, env, name, value).Ok?
    ensures ReadEntry(age, FreshEntry(age, s, env, name, value).value, identity, s.project) == Ok((value, s.level))
       <==> age.recipientOf(identity) in {Some(s.human), Some(s.recipient[env])} && s.level >= 30 && NameOk(name)
  {
    PayloadRoundTrip(age, s.project, s.level, name, value);
    assert forall x :: x in [s.human, s.recipient[env]] <==> x == s.human || x == s.recipient[env];
  }

  // ---------------------------------------------------------------- SealBundleV4

  /** When a v4 seal succeeds: every env it covers has a recipient, and each key that a v4 file does not hold
      yet can be sealed. */
  lemma SealV4Accepts(age: Age, f: File, human: string, envRecipient: map<string, string>, level: int64,
                      resolved: map<string, map<string, string>>, rand: (string, string) -> nat)
    ensures SealV4(age, f, RunV4(human, envRecipient, level, resolved, rand)).Some?
       <==> forall env :: env in resolved ==>
              && env in envRecipient
              && forall name :: name in resolved[env] ==>
                   || (exists sec :: HoldsV4(f, env, sec) && name in sec.entries)
                   || (level > 0 && age.validRecipient(human) && age.validRecipient(envRecipient[env]))
  {
    hide Sealable, HoldsV4, PriorV4;
    var s, prior := RunV4(human, envRecipient, level, resolved, rand), PriorV4(f);
    forall env, name | env in resolved && env in envRecipient && name in resolved[env]
      ensures (exists sec :: HoldsV4(f, env, sec) && name in sec.entries) <==> env in prior && name in prior[env].entries
      ensures Sealable(age, s.project, [s.human, s.recipient[env]], s.level)
         <==> level > 0 && age.validRecipient(human) && age.validRecipient(envRecipient[env])
    {
      HeldByV4(f, env, name);
      SealableKeyed(age, human, envRecipient[env], level);
    }
  }

  lemma HeldByV4(f: File, env: string, name: string)
    ensures (exists sec :: HoldsV4(f, env, sec) && name in sec.entries)
       <==> env in PriorV4(f) && name in PriorV4(f)[env].entries
  {
    hide HoldsV4, PriorV4;
    if env in PriorV4(f) { PriorV4Is(f, env, PriorV4(f)[env]); }
    if sec :| HoldsV4(f, env, sec) && name in sec.entries { PriorV4Is(f, env, sec); }
  }

  lemma SealableKeyed(age: Age, human: string, recipient: string, level: int64)
    ensures Sealable(age, ByKey(human), [human, recipient], level)
       <==> level > 0 && age.validRecipient(human) && age.validRecipient(recipient)
  {
    assert [human, recipient][0] == human && [human, recipient][1] == recipient;
  }

  /** What a v4 seal writes, env by env. */
  lemma SealV4Writes(age: Age, f: File, human: string, envRecipient: map<string, string>, level: int64,
                     resolved: map<string, map<string, string>>, rand: (string, string) -> nat, env: string)
    requires SealV4(age, f, RunV4(human, envRecipient, level, resolved, rand)).Some?
    ensures var after := SealV4(age, f, RunV4(human, envRecipient, level, resolved, rand)).value;
      && after.Json? && after.bundle.(envs := None) == Bundle("SealedBundle", "v4", 0, 0, "", map[], None, None)
      && (env in resolved ==> exists sec :: HoldsV4(after, env, sec) && sec.entries.Keys == resolved[env].Keys
                                            && sec.sig == None && sec.cluster == "")
      && (env !in resolved ==> forall sec :: HoldsV4(after, env, sec) <==> HoldsV4(f, env, sec))
  {
    var s, prior := RunV4(human, envRecipient, level, resolved, rand), PriorV4(f);
    var after := SealV4(age, f, s).value;
    var envs := SealedEnvs(age, s, AllEntries(prior), prior);
    if env in resolved {
      assert HoldsV4(after, env, envs[env]);
    } else {
      forall sec ensures HoldsV4(after, env, sec) <==> HoldsV4(f, env, sec) {
        PriorV4Is(f, env, sec);
        assert env in envs <==> env in prior;
      }
    }
  }

  /** A key a v4 file held already keeps its ciphertext; any other, whatever else the file was, reads back
      under the project key as the value given, at the level given. */
  lemma SealV4Entry(age: Age, f: File, human: string, envRecipient: map<string, string>, level: int64,
                    resolved: map<string, map<string, string>>, rand: (string, string) -> nat,
                    env: string, name: string, sec: EnvSection, identity: string)
    requires age.Lawful() && SealV4(age, f, RunV4(human, envRecipient, level, resolved, rand)).Some?
    requires env in resolved && name in resolved[env]
    requires HoldsV4(SealV4(age, f, RunV4(human, envRecipient, level, resolved, rand)).value, env, sec)
    ensures env in envRecipient && name in sec.entries
    ensures forall before :: HoldsV4(f, env, before) && name in before.entries ==> sec.entries[name] == before.entries[name]
    ensures (forall before :: HoldsV4(f, env, before) ==> name !in before.entries) ==>
              (ReadEntry(age, sec.entries[name], identity, ByKey(human)) == Ok((resolved[env][name], level))
               <==> age.recipientOf(identity) in {Some(human), Some(envRecipient[env])} && level >= 30 && NameOk(name))
  {
    hide ReadEntry, FreshEntry, HoldsV4, PriorV4;
    var s, prior := RunV4(human, envRecipient, level, resolved, rand), PriorV4(f);
    assert CanSealEnv(age, s, AllEntries(prior), env);
    WrittenV4(age, f, s, env, sec);
    forall before | HoldsV4(f, env, before) ensures env in prior && prior[env] == before { PriorV4Is(f, env, before); }
    if env in prior { PriorV4Is(f, env, prior[env]); }
    if !(env in prior && name in prior[env].entries) {
      assert FreshEntry(age, s, env, name, resolved[env][name]).Ok?;
      FreshReads(age, s, env, name, resolved[env][name], identity);
    }
  }

  lemma WrittenV4(age: Age, f: File, s: SealRun, env: string, sec: EnvSection)
    requires SealV4(age, f, s).Some? && env in s.resolved && HoldsV4(SealV4(age, f, s).value, env, sec)
    ensures CanSealEnv(age, s, AllEntries(PriorV4(f)), env) && sec == SealedSection(age, s, AllEntries(PriorV4(f)), env)
  {
  }

  // ---------------------------------------------------------------- SealBundleV2

  /** The prior entry a numeric seal may carry: the section is unlabelled, or labelled with the cluster its
      env still maps to. */
  predicate CarriesNumeric(f: File, envCluster: map<string, string>, env: string, name: string, stored: string) {
    && IsNumeric(f) && env in f.bundle.envs.value
    && (f.bundle.envs.value[env].cluster == ""
        || (env in envCluster && f.bundle.envs.value[env].cluster == envCluster[env]))
    && name in f.bundle.envs.value[env].entries && f.bundle.envs.value[env].entries[name] == stored
  }

  lemma CarriedIs(f: File, projectID: int64, envCluster: map<string, string>, env: string, name: string)
    requires PriorV2(f, projectID).Some?
    ensures var carried := CarriedV2(PriorV2(f, projectID).value, envCluster);
      && ((exists stored :: CarriesNumeric(f, envCluster, env, name, stored)) <==> env in carried && name in carried[env])
      && forall stored :: CarriesNumeric(f, envCluster, env, name, stored) ==> carried[env][name] == stored
  {
    var carried := CarriedV2(PriorV2(f, projectID).value, envCluster);
    if env in carried && name in carried[env] {
      assert CarriesNumeric(f, envCluster, env, name, carried[env][name]);
    }
  }

  lemma SealableNumeric(age: Age, projectID: int64, human: string, recipient: string, level: int64)
    ensures Sealable(age, ById(projectID), [human, recipient], level)
       <==> projectID > 0 && level > 0 && age.validRecipient(human) && age.validRecipient(recipient)
  {
    assert [human, recipient][0] == human && [human, recipient][1] == recipient;
  }

  /** When a numeric seal succeeds: the file is not another project's, every env it covers maps to a cluster
      with a recipient, and each key that cannot be carried can be sealed. */
  lemma SealV2Accepts(age: Age, f: File, human: string, clusters: map<string, string>, envCluster: map<string, string>,
                      projectID: int64, level: int64, resolved: map<string, map<string, string>>, rand: (string, string) -> nat)
    ensures SealV2(age, f, envCluster, projectID, RunV2(human, clusters, envCluster, projectID, level, resolved, rand)).Some?
       <==> && !(IsNumeric(f) && f.bundle.projectID != 0 && f.bundle.projectID != projectID)
            && forall env :: env in resolved ==>
                 && env in envCluster && envCluster[env] in clusters
                 && forall name :: name in resolved[env] ==>
                      || (exists stored :: CarriesNumeric(f, envCluster, env, name, stored))
                      || (&& projectID > 0 && level > 0 && age.validRecipient(human)
                          && age.validRecipient(clusters[envCluster[env]]))
  {
    hide Sealable, CarriesNumeric, PriorV2, CarriedV2, IsNumeric;
    PriorV2Is(f, projectID, "", EnvSection("", map[], None));
    var s := RunV2(human, clusters, envCluster, projectID, level, resolved, rand);
    if PriorV2(f, projectID).Some? {
      var carried := CarriedV2(PriorV2(f, projectID).value, envCluster);
      forall env, name | env in resolved && env in s.recipient && name in resolved[env]
        ensures (exists stored :: CarriesNumeric(f, envCluster, env, name, stored)) <==> env in carried && name in carried[env]
        ensures Sealable(age, s.project, [s.human, s.recipient[env]], s.level)
           <==> projectID > 0 && level > 0 && age.validRecipient(human) && age.validRecipient(clusters[envCluster[env]])
      {
        CarriedIs(f, projectID, envCluster, env, name);
        SealableNumeric(age, projectID, human, clusters[envCluster[env]], level);
      }
    }
  }

  /** What a numeric seal writes, env by env: always a v3 file. */
  lemma SealV2Writes(age: Age, f: File, human: string, clusters: map<string, string>, envCluster: map<string, string>,
                     projectID: int64, level: int64, resolved: map<string, map<string, string>>, rand: (string, string) -> nat,
                     env: string)
    requires SealV2(age, f, envCluster, projectID, RunV2(human, clusters, envCluster, projectID, level, resolved, rand)).Some?
    ensures var after := SealV2(age, f, envCluster, projectID,
                                RunV2(human, clusters, envCluster, projectID, level, resolved, rand)).value;
      && after.Json? && after.bundle.(envs := None) == Bundle("SealedBundle", "v3", 0, 0, "", map[], None, None)
      && (env in resolved ==> exists sec :: HoldsNumeric(after, env, sec) && sec.entries.Keys == resolved[env].Keys
                                            && sec.sig == None && sec.cluster == "")
      && (env !in resolved ==> forall sec :: HoldsNumeric(after, env, sec) <==> HoldsNumeric(f, env, sec))
  {
    hide PriorV2, CarriedV2;
    var s, prior := RunV2(human, clusters, envCluster, projectID, level, resolved, rand), PriorV2(f, projectID).value;
    var after := SealV2(age, f, envCluster, projectID, s).value;
    var envs := SealedEnvs(age, s, CarriedV2(prior, envCluster), prior);
    if env in resolved {
      assert HoldsNumeric(after, env, envs[env]);
    } else {
      forall sec ensures HoldsNumeric(after, env, sec) <==> HoldsNumeric(f, env, sec) {
        PriorV2Is(f, projectID, env, sec);
        assert env in envs <==> env in prior;
      }
    }
  }

  lemma WrittenV2(age: Age, f: File, envCluster: map<string, string>, projectID: int64, s: SealRun, env: string, sec: EnvSection)
    requires SealV2(age, f, envCluster, projectID, s).Some? && env in s.resolved
    requires HoldsNumeric(SealV2(age, f, envCluster, projectID, s).value, env, sec)
    ensures PriorV2(f, projectID).Some?
    ensures var carried := CarriedV2(PriorV2(f, projectID).value, envCluster);
      CanSealEnv(age, s, carried, env) && sec == SealedSection(age, s, carried, env)
  {
  }

  /** A key that can be carried keeps its ciphertext; any other reads back under the project id as the value
      given, at the level given, for the human's identity and the env's cluster's. */
  lemma SealV2Entry(age: Age, f: File, human: string, clusters: map<string, string>, envCluster: map<string, string>,
                    projectID: int64, level: int64, resolved: map<string, map<string, string>>, rand: (string, string) -> nat,
                    env: string, name: string, sec: EnvSection, identity: string)
    requires age.Lawful()
    requires SealV2(age, f, envCluster, projectID, RunV2(human, clusters, envCluster, projectID, level, resolved, rand)).Some?
    requires env in resolved && name in resolved[env]
    requires HoldsNumeric(SealV2(age, f, envCluster, projectID,
                                 RunV2(human, clusters, envCluster, projectID, level, resolved, rand)).value, env, sec)
    ensures env in envCluster && envCluster[env] in clusters && name in sec.entries
    ensures forall stored :: CarriesNumeric(f, envCluster, env, name, stored) ==> sec.entries[name] == stored
    ensures (forall stored :: !CarriesNumeric(f, envCluster, env, name, stored)) ==>
              (ReadEntry(age, sec.entries[name], identity, ById(projectID)) == Ok((resolved[env][name], level))
               <==> age.recipientOf(identity) in {Some(human), Some(clusters[envCluster[env]])} && level >= 30 && NameOk(name))
  {
    hide ReadEntry, FreshEntry, HoldsNumeric, PriorV2, CarriesNumeric, CarriedV2, SealV2;
    var s := RunV2(human, clusters, envCluster, projectID, level, resolved, rand);
    WrittenV2(age, f, envCluster, projectID, s, env, sec);
    CarriedIs(f, projectID, envCluster, env, name);
    var carried := CarriedV2(PriorV2(f, projectID).value, envCluster);
    if !(env in carried && name in carried[env]) {
      assert FreshEntry(age, s, env, name, resolved[env][name]).Ok?;
      FreshReads(age, s, env, name, resolved[env][name], identity);
    }
  }

  // ---------------------------------------------------------------- StripKeyFromBundle

  /** The file is a per-env bundle with this section. */
  predicate HoldsSection(f: File, env: string, sec: EnvSection) {
    HoldsV4(f, env, sec) || HoldsNumeric(f, env, sec)
  }

  /** After a strip no section holds the key, and everything else is as it was - but for a v2 file without a
      single recipient, which loses its recipients map, and no longer loads, as soon as it is rewritten. */
  lemma StripLeaves(f: File, key: string, env: string, sec: EnvSection)
    requires HoldsSection(f, env, sec)
    ensures HoldsSection(StripKey(f, key), env, sec.(entries := sec.entries - {key}))
       <==> !(&& f.bundle.version == "v2" && f.bundle.recipients == Some(map[])
              && exists e :: e in f.bundle.envs.value && key in f.bundle.envs.value[e].entries)
    ensures StripKey(f, key).Json? && StripKey(f, key).bundle.(envs := None, recipients := None) == f.bundle.(envs := None, recipients := None)
  {
    var envs := f.bundle.envs.value;
    if Holding(envs, key) == {} {
      assert forall e :: e in envs ==> e !in Holding(envs, key);
      assert sec.entries - {key} == sec.entries;
    } else {
      var e :| e in Holding(envs, key);
      assert env in StripEnvs(envs, key);
    }
  }
}
