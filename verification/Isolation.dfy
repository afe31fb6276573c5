/** Recipient isolation: along any run of the authoring commands with a fixed env-to-recipient map,
    every stored entry is wrapped to exactly the project key and its own env's recipient. */
module Isolation {
  import opened Wrappers
  import opened Text
  import opened Crypto
  import opened Bundles
  import opened Sealing
  import opened Signing
  import opened Migration
  import opened Materialize

  type Recipients = map<string, string>

  datatype Command =
    | CmdSealV4(human: string, envRecipient: Recipients, level: int64, resolved: map<string, map<string, string>>,
                rand: (string, string) -> nat)
    | CmdSealV2(human: string, clusters: Recipients, envCluster: map<string, string>, projectID: int64, level: int64,
                resolved: map<string, map<string, string>>, rand: (string, string) -> nat)
    | CmdStrip(key: string)
    | CmdSign(project: Project, signer: Signer)
    | CmdMigrateV3(projectID: int64, signer: Signer)
    | CmdMigrateV4(humanIdentity: string, human: string, clusters: Recipients, envCluster: map<string, string>,
                   signer: Signer, rand: (string, string) -> nat)
    | CmdReSeal(humanIdentity: string, human: string, envRecipient: Recipients, signer: Signer,
                rand: (string, string) -> nat)

  function OrKeep(after: Option<File>, f: File): File {
    match after case None => f case Some(g) => g
  }

  /** The file after one command; a command that fails leaves it alone. */
  ghost function Apply(age: Age, f: File, c: Command): File {
    match c
    case CmdSealV4(human, envRecipient, level, resolved, rand) =>
      OrKeep(SealV4(age, f, RunV4(human, envRecipient, level, resolved, rand)), f)
    case CmdSealV2(human, clusters, envCluster, projectID, level, resolved, rand) =>
      OrKeep(SealV2(age, f, envCluster, projectID,
                    RunV2(human, clusters, envCluster, projectID, level, resolved, rand)), f)
    case CmdStrip(key) => StripKey(f, key)
    case CmdSign(p, signer) => SignFile(f, p, signer)
    case CmdMigrateV3(projectID, signer) => OrKeep(MigrateV3(f, projectID, signer), f)
    case CmdMigrateV4(id, human, clusters, envCluster, signer, rand) =>
      OrKeep(MigrateV4(age, f, id, human, clusters, envCluster, signer, rand), f)
    case CmdReSeal(id, human, envRecipient, signer, rand) =>
      OrKeep(ReSealFile(age, f, id, human, envRecipient, signer, rand), f)
  }

  ghost function Run(age: Age, cmds: seq<Command>): File {
    if cmds == [] then Absent else Apply(age, Run(age, cmds[..|cmds| - 1]), cmds[|cmds| - 1])
  }

  /** A run is one command after another, each on the file the last one left: its own outcome when it
      succeeds, the same file when it fails. */
  lemma RunIs(age: Age, cmds: seq<Command>, c: Command)
    ensures var f, g := Run(age, cmds), Run(age, cmds + [c]);
      && (c.CmdSealV4? ==>
            var after := SealV4(age, f, RunV4(c.human, c.envRecipient, c.level, c.resolved, c.rand));
            g == if after.Some? then after.value else f)
      && (c.CmdSealV2? ==>
            var s := RunV2(c.human, c.clusters, c.envCluster, c.projectID, c.level, c.resolved, c.rand);
            var after := SealV2(age, f, c.envCluster, c.projectID, s);
            g == if after.Some? then after.value else f)
      && (c.CmdStrip? ==> g == StripKey(f, c.key))
      && (c.CmdSign? ==> g == SignFile(f, c.project, c.signer))
      && (c.CmdMigrateV3? ==>
            var after := MigrateV3(f, c.projectID, c.signer);
            g == if after.Some? then after.value else f)
      && (c.CmdMigrateV4? ==>
            var after := MigrateV4(age, f, c.humanIdentity, c.human, c.clusters, c.envCluster, c.signer, c.rand);
            g == if after.Some? then after.value else f)
      && (c.CmdReSeal? ==>
            var after := ReSealFile(age, f, c.humanIdentity, c.human, c.envRecipient, c.signer, c.rand);
            g == if after.Some? then after.value else f)
  {
    hide SealV4, SealV2, StripKey, SignFile, MigrateV3, MigrateV4, ReSealFile;
    assert (cmds + [c])[..|cmds|] == cmds;
  }

  predicate Agrees(some: Recipients, all: Recipients) {
    forall env :: env in some ==> env in all && all[env] == some[env]
  }

  /** The command uses the project key and takes every env's recipient from the fixed map. */
  predicate Follows(c: Command, human: string, recipient: Recipients) {
    match c
    case CmdSealV4(h, rs, _, _, _) => h == human && Agrees(rs, recipient)
    case CmdSealV2(h, clusters, envCluster, _, _, _, _) => h == human && Agrees(ClusterRecipients(clusters, envCluster), recipient)
    case CmdMigrateV4(_, h, clusters, envCluster, _, _) => h == human && Agrees(ClusterRecipients(clusters, envCluster), recipient)
    case CmdReSeal(_, h, rs, _, _) => h == human && Agrees(rs, recipient)
    case _ => true
  }

  ghost predicate WrappedTo(age: Age, stored: string, keys: set<string>) {
    age.blob(stored).Some? && age.blob(stored).value.recipients == keys
  }

  ghost predicate IsolatedEntries(age: Age, human: string, recipient: string, entries: Entries) {
    forall name :: name in entries ==> WrappedTo(age, entries[name], {human, recipient})
  }

  ghost predicate Isolated(age: Age, human: string, recipient: Recipients, envs: Envs) {
    forall env :: env in envs && envs[env].entries != map[] ==>
      env in recipient && IsolatedEntries(age, human, recipient[env], envs[env].entries)
  }

  ghost predicate FileIsolated(age: Age, human: string, recipient: Recipients, f: File) {
    var b := LoadBundle(f);
    b.Ok? ==> IsPerEnvVersion(b.value.version) && Isolated(age, human, recipient, Sections(b.value))
  }

  lemma FreshWrapped(age: Age, s: SealRun, env: string, name: string, value: string)
    requires age.Lawful() && env in s.recipient && Sealable(age, s.project, [s.human, s.recipient[env]], s.level)
    ensures WrappedTo(age, FreshEntry(age, s, env, name, value).value, {s.human, s.recipient[env]})
  {
    assert (set x | x in [s.human, s.recipient[env]]) == {s.human, s.recipient[env]};
  }

  lemma SealedIsolated(age: Age, s: SealRun, recipient: Recipients, carried: map<string, Entries>, prior: Envs)
    requires age.Lawful() && CanSeal(age, s, carried) && Agrees(s.recipient, recipient)
    requires Isolated(age, s.human, recipient, prior)
    requires forall env :: env in carried ==> env in prior && carried[env] == prior[env].entries
    ensures Isolated(age, s.human, recipient, SealedEnvs(age, s, carried, prior))
  {
    forall env, name | env in s.resolved && name in s.resolved[env]
      ensures WrappedTo(age, SealedEntry(age, s, carried, env, name), {s.human, recipient[env]})
    {
      if !(env in carried && name in carried[env]) { FreshWrapped(age, s, env, name, s.resolved[env][name]); }
    }
  }

  lemma ResealedWrapped(age: Age, m: Reseal, env: string, name: string, stored: string)
    requires age.Lawful() && env in m.recipient && ResealEntry(age, m, env, name, stored).Ok?
    ensures WrappedTo(age, ResealEntry(age, m, env, name, stored).value, {m.owner, m.recipient[env]})
  {
    assert (set x | x in [m.owner, m.recipient[env]]) == {m.owner, m.recipient[env]};
  }

  lemma ResealedIsolated(age: Age, m: Reseal, recipient: Recipients, envs: Envs)
    requires age.Lawful() && CanReseal(age, m, envs) && Agrees(m.recipient, recipient)
    ensures Isolated(age, m.owner, recipient, ResealedEnvs(age, m, envs))
  {
    hide SectionMessage, ResealEntry;
    forall env | env in envs
      ensures env in recipient && IsolatedEntries(age, m.owner, recipient[env], ResealedEnvs(age, m, envs)[env].entries)
    {
      assert CanResealEnv(age, m, env, envs[env].entries);
      forall name | name in envs[env].entries
        ensures WrappedTo(age, ResealEntry(age, m, env, name, envs[env].entries[name]).value, {m.owner, m.recipient[env]})
      {
        ResealedWrapped(age, m, env, name, envs[env].entries[name]);
      }
    }
  }

  /** MigrateBundleToV4 and ReSealToEnvRecipients isolate whatever bundle they are given. */
  lemma MigrationsIsolate(age: Age, f: File, c: Command, human: string, recipient: Recipients)
    requires age.Lawful() && Follows(c, human, recipient)
    requires c.CmdMigrateV4? ==> MigrateV4(age, f, c.humanIdentity, c.human, c.clusters, c.envCluster, c.signer, c.rand).Some?
    requires c.CmdReSeal? ==> ReSealFile(age, f, c.humanIdentity, c.human, c.envRecipient, c.signer, c.rand).Some?
    requires c.CmdMigrateV4? || c.CmdReSeal?
    ensures FileIsolated(age, human, recipient, Apply(age, f, c))
  {
    var b := LoadBundle(f).value;
    var m := if c.CmdMigrateV4? then ToV4(b, c.humanIdentity, c.human, c.clusters, c.envCluster, c.signer, c.rand)
             else ToEnvRecipients(c.humanIdentity, c.human, c.envRecipient, c.signer, c.rand);
    ResealedIsolated(age, m, recipient, Sections(b));
    if c.CmdMigrateV4? { LoadOfWrite(V4, ResealedEnvs(age, m, Sections(b))); }
  }

  lemma SealKeepsIsolation(age: Age, f: File, c: Command, human: string, recipient: Recipients)
    requires age.Lawful() && (c.CmdSealV4? || c.CmdSealV2?)
    requires FileIsolated(age, human, recipient, f) && Follows(c, human, recipient)
    ensures FileIsolated(age, human, recipient, Apply(age, f, c))
  {
    match c
    case CmdSealV4(_, envRecipient, level, resolved, rand) =>
      var s, prior := RunV4(human, envRecipient, level, resolved, rand), PriorV4(f);
      if CanSeal(age, s, AllEntries(prior)) {
        SealedIsolated(age, s, recipient, AllEntries(prior), prior);
        LoadOfWrite(V4, SealedEnvs(age, s, AllEntries(prior), prior));
      }
    case CmdSealV2(_, clusters, envCluster, projectID, level, resolved, rand) =>
      var s := RunV2(human, clusters, envCluster, projectID, level, resolved, rand);
      if SealV2(age, f, envCluster, projectID, s).Some? {
        var prior := PriorV2(f, projectID).value;
        SealedIsolated(age, s, recipient, CarriedV2(prior, envCluster), prior);
        LoadOfWrite(V3, SealedEnvs(age, s, CarriedV2(prior, envCluster), prior));
      }
  }

  lemma RewriteKeepsIsolation(age: Age, f: File, c: Command, human: string, recipient: Recipients)
    requires c.CmdStrip? || c.CmdSign? || c.CmdMigrateV3?
    requires FileIsolated(age, human, recipient, f)
    ensures FileIsolated(age, human, recipient, Apply(age, f, c))
  {
    hide SectionMessage;
    if LoadBundle(f).Ok? {
      var b := LoadBundle(f).value;
      match c
      case CmdStrip(key) =>
        assert Isolated(age, human, recipient, StripEnvs(Sections(b), key));
      case CmdSign(p, signer) =>
        assert Isolated(age, human, recipient, SignEnvs(signer, p, Sections(b)));
      case CmdMigrateV3(projectID, signer) =>
        var envs := RelabelledEnvs(signer, projectID, Sections(b));
        assert Isolated(age, human, recipient, envs);
        LoadOfWrite(V3, envs);
    }
  }

  /** From an absent file, any commands in any order that follow the fixed map keep every entry
      wrapped to exactly its two keys. */
  lemma {:induction false} RunIsolated(age: Age, cmds: seq<Command>, human: string, recipient: Recipients)
    requires age.Lawful() && forall i :: 0 <= i < |cmds| ==> Follows(cmds[i], human, recipient)
    ensures FileIsolated(age, human, recipient, Run(age, cmds))
  {
    if cmds != [] {
      var c := cmds[|cmds| - 1];
      var f := Run(age, cmds[..|cmds| - 1]);
      RunIsolated(age, cmds[..|cmds| - 1], human, recipient);
      if c.CmdSealV4? || c.CmdSealV2? {
        SealKeepsIsolation(age, f, c, human, recipient);
      } else if c.CmdStrip? || c.CmdSign? || c.CmdMigrateV3? {
        RewriteKeepsIsolation(age, f, c, human, recipient);
      } else if Apply(age, f, c) != f {
        MigrationsIsolate(age, f, c, human, recipient);
      }
    }
  }

  /** So, after any such run, an identity that is neither the project's nor the env's never
      materializes an env that has an entry. */
  lemma OutsiderFails(age: Age, cmds: seq<Command>, human: string, recipient: Recipients,
                      svc: string, job: Job, identity: string)
    requires age.Lawful() && forall i :: 0 <= i < |cmds| ==> Follows(cmds[i], human, recipient)
    requires LoadBundle(Run(age, cmds)).Ok?
    requires var envs := Sections(LoadBundle(Run(age, cmds)).value);
      job.env in envs && envs[job.env].entries != map[]
    requires job.env in recipient ==>
      age.recipientOf(identity) != Some(human) && age.recipientOf(identity) != Some(recipient[job.env])
    ensures BuildSecret(age, LoadBundle(Run(age, cmds)).value, svc, job, identity) == Err
  {
    RunIsolated(age, cmds, human, recipient);
    var b := LoadBundle(Run(age, cmds)).value;
    var entries := Sections(b)[job.env].entries;
    var name :| name in entries;
    assert WrappedTo(age, entries[name], {human, recipient[job.env]});
    if WantedProject(b, job).Some? {
      assert ReadEntry(age, entries[name], identity, WantedProject(b, job).value).Err?;
    }
  }
}
