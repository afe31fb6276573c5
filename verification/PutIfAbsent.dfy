/** Runs of seal, strip and sign from no file, against an ideal store of plaintexts that a key enters only
    while it is absent. A run is of one family: SealBundleV4 and SignBundleFileV4 under the project key, or
    SealBundleV2 and SignBundleFile under the project id. */
module PutIfAbsent {
  import opened Wrappers
  import opened Text
  import opened Envelope
  import opened Crypto
  import opened Bundles
  import opened Sealing
  import opened Signing
  import opened Materialize

  /** Where an env's recipient comes from: its own key (v4), or its cluster's (numeric). */
  datatype Recipients = PerEnv(envRecipient: map<string, string>)
                      | PerCluster(clusters: map<string, string>, envCluster: map<string, string>) {
    predicate Has(env: string) {
      match this
      case PerEnv(m) => env in m
      case PerCluster(clusters, envCluster) => env in envCluster && envCluster[env] in clusters
    }

    function For(env: string): string
      requires Has(env)
    {
      match this
      case PerEnv(m) => m[env]
      case PerCluster(clusters, envCluster) => clusters[envCluster[env]]
    }
  }

  datatype Op = DoSeal(source: Recipients, level: int64, resolved: map<string, map<string, string>>,
                       rand: (string, string) -> nat)
              | DoStrip(key: string)
              | DoSign(signer: Signer)

  /** The project's identity in a run, and its human key, which for the keyed family are one. */
  datatype Home = Home(project: Project, human: string) {
    predicate Valid() {
      project.ByKey? ==> project.key == human
    }

    /** The version this family writes. */
    function Version(): string {
      if project.ById? then "v3" else "v4"
    }

    predicate Seals(op: Op) {
      op.DoSeal? && (project.ByKey? <==> op.source.PerEnv?)
    }
  }

  function SealOf(h: Home, op: Op): SealRun
    requires h.Seals(op)
  {
    match (h.project, op.source)
    case (ById(id), PerCluster(clusters, envCluster)) => RunV2(h.human, clusters, envCluster, id, op.level, op.resolved, op.rand)
    case (ByKey(_), PerEnv(envRecipient)) => RunV4(h.human, envRecipient, op.level, op.resolved, op.rand)
  }

  /** The file after one command; a command that fails leaves it alone, and so does a seal of the other
      family, which is no part of the run. */
  ghost function Apply(age: Age, h: Home, f: File, op: Op): File {
    match op
    case DoStrip(key) => StripKey(f, key)
    case DoSign(signer) => SignFile(f, h.project, signer)
    case DoSeal(_, _, _, _) =>
      if !h.Seals(op) then f
      else
        var after := if h.project.ById? then SealV2(age, f, op.source.envCluster, h.project.id, SealOf(h, op))
                     else SealV4(age, f, SealOf(h, op));
        if after.Some? then after.value else f
  }

  ghost function Run(age: Age, h: Home, ops: seq<Op>): File {
    if ops == [] then Absent else Apply(age, h, Run(age, h, ops[..|ops| - 1]), ops[|ops| - 1])
  }

  // ---------------------------------------------------------------- the ideal store

  datatype Sealed = Sealed(value: string, level: int64, recipient: string)

  type Ideal = map<string, map<string, Sealed>>

  predicate Present(m: Ideal, env: string, key: string) {
    env in m && key in m[env]
  }

  /** What sealing anything fresh for a recipient takes. */
  predicate Fresh(age: Age, h: Home, level: int64, recipient: string) {
    && level > 0 && age.validRecipient(h.human) && age.validRecipient(recipient)
    && (h.project.ById? ==> h.project.id > 0)
  }

  /** A seal is refused when an env has no recipient, or a key not yet present cannot be sealed. */
  predicate Accepts(age: Age, h: Home, m: Ideal, op: Op)
    requires op.DoSeal?
  {
    && h.Seals(op)
    && forall env :: env in op.resolved ==>
         && op.source.Has(env)
         && forall key :: key in op.resolved[env] ==> Present(m, env, key) || Fresh(age, h, op.level, op.source.For(env))
  }

  function PutEnv(m: Ideal, op: Op, env: string): map<string, Sealed>
    requires op.DoSeal? && env in op.resolved && op.source.Has(env)
  {
    map key | key in op.resolved[env] ::
      if Present(m, env, key) then m[env][key] else Sealed(op.resolved[env][key], op.level, op.source.For(env))
  }

  /** Put if absent, drop what is no longer resolved, leave the other envs alone. */
  function Put(m: Ideal, op: Op): Ideal
    requires op.DoSeal? && forall env :: env in op.resolved ==> op.source.Has(env)
  {
    map env | env in m.Keys + op.resolved.Keys ::
      if env in op.resolved then PutEnv(m, op, env) else m[env]
  }

  function Step(age: Age, h: Home, m: Ideal, op: Op): Ideal {
    match op
    case DoSign(_) => m
    case DoStrip(key) => map env | env in m :: m[env] - {key}
    case DoSeal(_, _, _, _) => if Accepts(age, h, m, op) then Put(m, op) else m
  }

  function IdealRun(age: Age, h: Home, ops: seq<Op>): Ideal {
    if ops == [] then map[] else Step(age, h, IdealRun(age, h, ops[..|ops| - 1]), ops[|ops| - 1])
  }

  // ---------------------------------------------------------------- what a stored entry means

  /** A stored entry is the family's envelope of this value, at this level, wrapped to exactly the project's
      key and the recipient its env had. */
  ghost predicate Holds(age: Age, h: Home, name: string, stored: string, v: Sealed) {
    && Fresh(age, h, v.level, v.recipient)
    && age.blob(stored).Some?
    && age.blob(stored).value.recipients == {h.human, v.recipient}
    && age.blob(stored).value.payload == Payload(h.project, v.level, name, v.value)
  }

  ghost predicate SectionHolds(age: Age, h: Home, entries: Entries, m: map<string, Sealed>) {
    entries.Keys == m.Keys && forall name :: name in m ==> Holds(age, h, name, entries[name], m[name])
  }

  ghost predicate Represents(age: Age, h: Home, envs: Envs, m: Ideal) {
    && envs.Keys == m.Keys
    && forall env :: env in m ==> envs[env].cluster == "" && SectionHolds(age, h, envs[env].entries, m[env])
  }

  /** A store with no env at all is a file that does not load. */
  ghost predicate FileRepresents(age: Age, h: Home, f: File, m: Ideal) {
    var b := LoadBundle(f);
    if m == map[] then b.Err?
    else b.Ok? && b.value.version == h.Version() && b.value.projectID == 0 && Represents(age, h, Sections(b.value), m)
  }

  /** The sections a seal of the family starts from. */
  function PriorOf(h: Home, f: File): Envs {
    if h.project.ByKey? then PriorV4(f)
    else match PriorV2(f, h.project.id) case None => map[] case Some(envs) => envs
  }

  lemma FreshHolds(age: Age, h: Home, s: SealRun, env: string, name: string, value: string)
    requires age.Lawful() && s.project == h.project && s.human == h.human && env in s.recipient
    requires h.Valid() && Fresh(age, h, s.level, s.recipient[env])
    ensures Sealable(age, s.project, [s.human, s.recipient[env]], s.level)
    ensures Holds(age, h, name, FreshEntry(age, s, env, name, value).value, Sealed(value, s.level, s.recipient[env]))
  {
    assert (set x | x in [s.human, s.recipient[env]]) == {s.human, s.recipient[env]};
  }

  lemma SealOfIs(h: Home, op: Op, env: string)
    requires h.Valid() && h.Seals(op)
    ensures var s := SealOf(h, op);
      && s.project == h.project && s.human == h.human && s.level == op.level && s.resolved == op.resolved
      && (env in s.recipient <==> op.source.Has(env))
      && (op.source.Has(env) ==> s.recipient[env] == op.source.For(env))
  {
  }

  lemma FreshIsSealable(age: Age, h: Home, level: int64, recipient: string)
    requires h.Valid()
    ensures Fresh(age, h, level, recipient) <==> Sealable(age, h.project, [h.human, recipient], level)
  {
    var rs := [h.human, recipient];
    assert rs[0] == h.human && rs[1] == recipient;
  }

  lemma AcceptsEnv(age: Age, h: Home, prior: Envs, m: Ideal, op: Op, env: string)
    requires h.Valid() && h.Seals(op) && Represents(age, h, prior, m) && env in op.resolved
    ensures CanSealEnv(age, SealOf(h, op), AllEntries(prior), env)
       <==> && op.source.Has(env)
            && forall key :: key in op.resolved[env] ==> Present(m, env, key) || Fresh(age, h, op.level, op.source.For(env))
  {
    hide Sealable, Fresh, Holds;
    SealOfIs(h, op, env);
    if op.source.Has(env) { FreshIsSealable(age, h, op.level, op.source.For(env)); }
    forall key ensures Present(m, env, key) <==> env in AllEntries(prior) && key in AllEntries(prior)[env] {}
  }

  lemma SealedSectionHolds(age: Age, h: Home, prior: Envs, m: Ideal, op: Op, env: string)
    requires age.Lawful() && h.Valid() && h.Seals(op) && Represents(age, h, prior, m)
    requires env in op.resolved && op.source.Has(env) && CanSealEnv(age, SealOf(h, op), AllEntries(prior), env)
    ensures SectionHolds(age, h, SealedSection(age, SealOf(h, op), AllEntries(prior), env).entries, PutEnv(m, op, env))
  {
    hide Holds, Fresh, SealOf, FreshEntry, Sealable;
    var s := SealOf(h, op);
    SealOfIs(h, op, env);
    AcceptsEnv(age, h, prior, m, op, env);
    forall name | name in op.resolved[env]
      ensures Holds(age, h, name, SealedEntry(age, s, AllEntries(prior), env, name), PutEnv(m, op, env)[name])
    {
      if Present(m, env, name) {
        assert SectionHolds(age, h, prior[env].entries, m[env]);
      } else {
        assert !(env in AllEntries(prior) && name in AllEntries(prior)[env]);
        FreshHolds(age, h, s, env, name, op.resolved[env][name]);
      }
    }
  }

  /** Either family's seal, over a file of its own. */
  lemma SealIs(age: Age, h: Home, f: File, m: Ideal, op: Op)
    requires h.Valid() && h.Seals(op) && FileRepresents(age, h, f, m)
    ensures var s, prior := SealOf(h, op), PriorOf(h, f);
      && Represents(age, h, prior, m)
      && Apply(age, h, f, op)
         == (if CanSeal(age, s, AllEntries(prior))
             then WriteBundle(Normalized(h.Version(), SealedEnvs(age, s, AllEntries(prior), prior)))
             else f)
  {
    hide Holds, SectionHolds, SealOf, CanSealEnv;
    if h.project.ById? {
      var prior := PriorOf(h, f);
      assert PriorV2(f, h.project.id) == Some(prior);
      assert CarriedV2(prior, op.source.envCluster) == AllEntries(prior);
    }
  }

  lemma SealStep(age: Age, h: Home, f: File, m: Ideal, op: Op)
    requires age.Lawful() && h.Valid() && op.DoSeal? && FileRepresents(age, h, f, m)
    ensures FileRepresents(age, h, Apply(age, h, f, op), Step(age, h, m, op))
  {
    if h.Seals(op) {
      SealIs(age, h, f, m, op);
      SealStepIn(age, h, f, m, op, PriorOf(h, f));
    }
  }

  lemma AcceptsIff(age: Age, h: Home, prior: Envs, m: Ideal, op: Op)
    requires h.Valid() && h.Seals(op) && Represents(age, h, prior, m)
    ensures CanSeal(age, SealOf(h, op), AllEntries(prior)) <==> Accepts(age, h, m, op)
  {
    hide CanSealEnv, Represents, Fresh;
    SealOfIs(h, op, "");
    forall env | env in op.resolved
      ensures CanSealEnv(age, SealOf(h, op), AllEntries(prior), env)
         <==> && op.source.Has(env)
              && forall key :: key in op.resolved[env] ==> Present(m, env, key) || Fresh(age, h, op.level, op.source.For(env))
    {
      AcceptsEnv(age, h, prior, m, op, env);
    }
  }

  lemma SealStepIn(age: Age, h: Home, f: File, m: Ideal, op: Op, prior: Envs)
    requires age.Lawful() && h.Valid() && h.Seals(op) && FileRepresents(age, h, f, m) && Represents(age, h, prior, m)
    requires var s := SealOf(h, op);
      Apply(age, h, f, op)
         == (if CanSeal(age, s, AllEntries(prior))
             then WriteBundle(Normalized(h.Version(), SealedEnvs(age, s, AllEntries(prior), prior)))
             else f)
    ensures FileRepresents(age, h, Apply(age, h, f, op), Step(age, h, m, op))
  {
    hide Apply, SealOf, CanSealEnv, SectionHolds;
    AcceptsIff(age, h, prior, m, op);
    if Accepts(age, h, m, op) {
      var s := SealOf(h, op);
      SealOfIs(h, op, "");
      var envs := SealedEnvs(age, s, AllEntries(prior), prior);
      forall env | env in Put(m, op)
        ensures envs[env].cluster == "" && SectionHolds(age, h, envs[env].entries, Put(m, op)[env])
      {
        if env in op.resolved { SealedSectionHolds(age, h, prior, m, op, env); }
      }
      LoadOfWrite(h.Version(), envs);
    }
  }

  lemma StripHolds(age: Age, h: Home, envs: Envs, m: Ideal, key: string)
    requires Represents(age, h, envs, m)
    ensures Represents(age, h, StripEnvs(envs, key), map env | env in m :: m[env] - {key})
  {
    hide Holds;
  }

  lemma StripStep(age: Age, h: Home, f: File, m: Ideal, key: string)
    requires FileRepresents(age, h, f, m)
    ensures FileRepresents(age, h, StripKey(f, key), Step(age, h, m, DoStrip(key)))
  {
    hide Holds, SectionHolds, Represents;
    var after := Step(age, h, m, DoStrip(key));
    if m != map[] {
      var env0 :| env0 in m;
      assert env0 in after;
      var envs := Sections(LoadBundle(f).value);
      StripHolds(age, h, envs, m, key);
      if Holding(envs, key) == {} {
        NoneHolding(age, h, envs, m, key);
      } else {
        var env1 :| env1 in Holding(envs, key);
        assert env1 in StripEnvs(envs, key);
      }
    }
  }

  lemma NoneHolding(age: Age, h: Home, envs: Envs, m: Ideal, key: string)
    requires Represents(age, h, envs, m) && Holding(envs, key) == {}
    ensures m == map env | env in m :: m[env] - {key}
  {
    forall env | env in m ensures m[env] - {key} == m[env] {
      assert SectionHolds(age, h, envs[env].entries, m[env]);
      assert env !in Holding(envs, key);
    }
  }

  lemma SignStep(age: Age, h: Home, f: File, m: Ideal, signer: Signer)
    requires FileRepresents(age, h, f, m)
    ensures FileRepresents(age, h, SignFile(f, h.project, signer), m)
  {
    hide SectionMessage, Holds, SectionHolds;
    if m != map[] {
      var env0 :| env0 in m;
      var signed := SignEnvs(signer, h.project, Sections(LoadBundle(f).value));
      assert env0 in signed;
      assert Represents(age, h, signed, m);
    }
  }

  /** Every run of the three commands keeps the file in step with the ideal store. */
  lemma {:induction false} RunRefines(age: Age, h: Home, ops: seq<Op>)
    requires age.Lawful() && h.Valid()
    ensures FileRepresents(age, h, Run(age, h, ops), IdealRun(age, h, ops))
  {
    hide FileRepresents, Apply;
    if ops == [] {
      assert FileRepresents(age, h, Absent, map[]) by { NothingRepresented(age, h); }
    } else {
      var front, op := ops[..|ops| - 1], ops[|ops| - 1];
      RunRefines(age, h, front);
      var f, m := Run(age, h, front), IdealRun(age, h, front);
      OneStep(age, h, f, m, op);
    }
  }

  lemma NothingRepresented(age: Age, h: Home)
    ensures FileRepresents(age, h, Absent, map[])
  {
  }

  lemma OneStep(age: Age, h: Home, f: File, m: Ideal, op: Op)
    requires age.Lawful() && h.Valid() && FileRepresents(age, h, f, m)
    ensures FileRepresents(age, h, Apply(age, h, f, op), Step(age, h, m, op))
  {
    hide FileRepresents;
    match op
    case DoSeal(_, _, _, _) => SealStep(age, h, f, m, op);
    case DoStrip(key) => StripStep(age, h, f, m, key);
    case DoSign(signer) => SignStep(age, h, f, m, signer);
  }

  /** What an identity reads from an entry that holds a value: the value and level, iff the identity is the
      project's or the recipient's, the level is readable and the name safe. */
  lemma HoldsReads(age: Age, h: Home, name: string, stored: string, v: Sealed, identity: string)
    requires age.Lawful() && h.Valid() && Holds(age, h, name, stored, v)
    ensures ReadEntry(age, stored, identity, h.project) == Ok((v.value, v.level))
       <==> age.recipientOf(identity) in {Some(h.human), Some(v.recipient)} && v.level >= 30 && NameOk(name)
  {
    PayloadRoundTrip(age, h.project, v.level, name, v.value);
  }

  /** After any run the file has exactly the ideal store's envs and keys, and of each entry exactly the
      project's identity and that of the env's recipient at the time read the stored value and level, iff
      the level is readable and the name safe. */
  lemma RunReadsBack(age: Age, h: Home, ops: seq<Op>, identity: string, env: string, name: string)
    requires age.Lawful() && h.Valid()
    ensures var m := IdealRun(age, h, ops);
      var b := LoadBundle(Run(age, h, ops));
      && (Present(m, env, name) <==> b.Ok? && StoredEntry(b.value, env, name).Some?)
      && (Present(m, env, name) ==>
            (ReadEntry(age, StoredEntry(b.value, env, name).value, identity, h.project)
               == Ok((m[env][name].value, m[env][name].level))
             <==> && age.recipientOf(identity) in {Some(h.human), Some(m[env][name].recipient)}
                  && m[env][name].level >= 30 && NameOk(name)))
  {
    hide Holds, Run, IdealRun, ReadEntry;
    RunRefines(age, h, ops);
    var m := IdealRun(age, h, ops);
    var b := LoadBundle(Run(age, h, ops));
    if Present(m, env, name) {
      assert SectionHolds(age, h, Sections(b.value)[env].entries, m[env]);
      HoldsReads(age, h, name, Sections(b.value)[env].entries[name], m[env][name], identity);
    }
  }

  // ---------------------------------------------------------------- what the ideal store remembers

  /** A present value is the one given by a seal that found the key absent, and the key has been
      there ever since: the first seal since the key was last absent. */
  lemma {:induction false} FirstSealWins(age: Age, h: Home, ops: seq<Op>, env: string, key: string)
    returns (i: nat)
    requires Present(IdealRun(age, h, ops), env, key)
    ensures i < |ops| && h.Seals(ops[i]) && ops[i].source.Has(env) && env in ops[i].resolved && key in ops[i].resolved[env]
    ensures IdealRun(age, h, ops)[env][key] == Sealed(ops[i].resolved[env][key], ops[i].level, ops[i].source.For(env))
    ensures !Present(IdealRun(age, h, ops[..i]), env, key)
    ensures forall j :: i < j <= |ops| ==> Present(IdealRun(age, h, ops[..j]), env, key)
  {
    var n := |ops| - 1;
    var front := ops[..n];
    assert ops[..|ops|] == ops;
    if Present(IdealRun(age, h, front), env, key) {
      i := FirstSealWins(age, h, front, env, key);
      assert forall j :: 0 <= j <= n ==> front[..j] == ops[..j];
    } else {
      i := n;
    }
  }

  /** The keys stripped by the commands at positions from i on. */
  function Stripped(ops: seq<Op>, i: nat): set<string> {
    set j | i <= j < |ops| && ops[j].DoStrip? :: ops[j].key
  }

  lemma StrippedSnoc(ops: seq<Op>, op: Op, i: nat)
    requires i <= |ops|
    ensures Stripped(ops + [op], i) == Stripped(ops, i) + if op.DoStrip? then {op.key} else {}
  {
    var all := ops + [op];
    assert forall j :: 0 <= j < |ops| ==> all[j] == ops[j];
    assert op.DoStrip? ==> all[|ops|].key in Stripped(all, i);
    forall k | k in Stripped(ops, i) ensures k in Stripped(all, i) {
      var j :| i <= j < |ops| && ops[j].DoStrip? && ops[j].key == k;
      assert all[j].DoStrip? && all[j].key == k;
    }
  }

  /** One more command: an env's keys are those an accepted seal of it resolves, else what they were, less
      the key a strip names. */
  lemma KeysStep(age: Age, h: Home, m: Ideal, op: Op, env: string)
    ensures var after := Step(age, h, m, op);
      if op.DoSeal? && env in op.resolved && Accepts(age, h, m, op)
      then env in after && after[env].Keys == op.resolved[env].Keys
      else (env in after <==> env in m)
           && (env in m ==> after[env].Keys == m[env].Keys - (if op.DoStrip? then {op.key} else {}))
  {
    hide Fresh;
  }

  /** After a seal that was accepted, an env it covers holds the keys it resolved, less those stripped
      since, as long as no later accepted seal covers the env. */
  lemma {:induction false} KeysOfLatestSeal(age: Age, h: Home, ops: seq<Op>, i: nat, env: string)
    requires i < |ops| && ops[i].DoSeal? && env in ops[i].resolved
    requires Accepts(age, h, IdealRun(age, h, ops[..i]), ops[i])
    requires forall j :: i < j < |ops| && ops[j].DoSeal? && env in ops[j].resolved ==>
               !Accepts(age, h, IdealRun(age, h, ops[..j]), ops[j])
    ensures var m := IdealRun(age, h, ops);
      env in m && m[env].Keys == ops[i].resolved[env].Keys - Stripped(ops, i + 1)
  {
    hide Step, Accepts;
    var n := |ops| - 1;
    var front := ops[..n];
    KeysStep(age, h, IdealRun(age, h, front), ops[n], env);
    if i == n {
      assert Stripped(ops, i + 1) == {};
    } else {
      assert front[..i] == ops[..i];
      assert forall j :: i < j < n ==> front[j] == ops[j] && front[..j] == ops[..j];
      KeysOfLatestSeal(age, h, front, i, env);
      StrippedSnoc(front, ops[n], i + 1);
      assert front + [ops[n]] == ops;
    }
  }

  /** A seal scoped to some envs keeps every other section, entries and signature alike. */
  lemma ScopedSealKeeps(age: Age, f: File, s: SealRun, env: string)
    requires SealV4(age, f, s).Some? && env in PriorV4(f) && env !in s.resolved
    ensures var b := LoadBundle(SealV4(age, f, s).value);
      b.Ok? && env in Sections(b.value) && Sections(b.value)[env] == PriorV4(f)[env]
  {
    var envs := SealedEnvs(age, s, AllEntries(PriorV4(f)), PriorV4(f));
    assert env in envs;
    LoadOfWrite(V4, envs);
  }
}
