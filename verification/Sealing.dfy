/** internal/client/sealedbundle_v4.go, sealedbundle.go and rotate.go: sealing a resolved
    env-by-key matrix into a bundle file, and stripping a key from it. */
module Sealing {
  import opened Wrappers
  import opened Text
  import opened SortedKeys
  import opened Crypto
  import opened Bundles

  /** What one seal run is given: the project identity embedded in every envelope, the human key,
      each env's own recipient (defined only for the envs that have one), the level, the resolved
      values, and the randomness drawn for each fresh ciphertext. */
  datatype SealRun = SealRun(project: Project, human: string, recipient: map<string, string>,
                             level: int64, resolved: map<string, map<string, string>>,
                             rand: (string, string) -> nat)

  type Entries = map<string, string>

  function EntriesOf(envs: Envs, env: string): Entries {
    if env in envs then envs[env].entries else map[]
  }

  function FreshEntry(age: Age, s: SealRun, env: string, name: string, value: string): (r: Result<string>)
    requires env in s.recipient
    ensures r.Ok? <==> Sealable(age, s.project, [s.human, s.recipient[env]], s.level)
  {
    match Seal(age, s.project, value, [s.human, s.recipient[env]], name, s.level, s.rand(env, name))
    case Err => Err
    case Ok(ct) => Ok(age.armor(ct))
  }

  /** Sealing an env fails when it has no recipient, or a key that is not carried over cannot be sealed. */
  predicate CanSealEnv(age: Age, s: SealRun, carried: map<string, Entries>, env: string)
    requires env in s.resolved
  {
    && env in s.recipient
    && forall name :: name in s.resolved[env] ==>
         || (env in carried && name in carried[env])
         || Sealable(age, s.project, [s.human, s.recipient[env]], s.level)
  }

  predicate CanSeal(age: Age, s: SealRun, carried: map<string, Entries>) {
    forall env :: env in s.resolved ==> CanSealEnv(age, s, carried, env)
  }

  /** A key already there is carried verbatim, a new one is sealed fresh, others are dropped. */
  function SealedEntry(age: Age, s: SealRun, carried: map<string, Entries>, env: string, name: string): string
    requires env in s.resolved && name in s.resolved[env] && CanSealEnv(age, s, carried, env)
  {
    if env in carried && name in carried[env] then carried[env][name]
    else FreshEntry(age, s, env, name, s.resolved[env][name]).value
  }

  function SealedSection(age: Age, s: SealRun, carried: map<string, Entries>, env: string): EnvSection
    requires env in s.resolved && CanSealEnv(age, s, carried, env)
  {
    EnvSection("", map name | name in s.resolved[env] :: SealedEntry(age, s, carried, env, name), None)
  }

  /** The sections after a seal: the resolved envs rebuilt, the others as they were. */
  function SealedEnvs(age: Age, s: SealRun, carried: map<string, Entries>, prior: Envs): Envs
    requires CanSeal(age, s, carried)
  {
    map env | env in prior.Keys + s.resolved.Keys ::
      if env in s.resolved then SealedSection(age, s, carried, env) else prior[env]
  }

  ghost function SealDiffs(s: SealRun, prior: Envs): map<string, NameDiff> {
    map env | env in s.resolved :: NamesDiff(EntriesOf(prior, env).Keys, s.resolved[env].Keys)
  }

  // ---------------------------------------------------------------- the loops

  method SealEntries(age: Age, s: SealRun, carried: map<string, Entries>, env: string) returns (r: Result<Entries>)
    requires env in s.resolved && env in s.recipient
    ensures r.Ok? <==> CanSealEnv(age, s, carried, env)
    ensures r.Ok? ==> r.value.Keys == s.resolved[env].Keys
    ensures r.Ok? ==> EnvSection("", r.value, None) == SealedSection(age, s, carried, env)
  {
    var entries: Entries := map[];
    var left := s.resolved[env].Keys;
    while left != {}
      invariant left <= s.resolved[env].Keys && entries.Keys == s.resolved[env].Keys - left
      invariant forall name :: name in entries ==>
        && ((env in carried && name in carried[env]) || Sealable(age, s.project, [s.human, s.recipient[env]], s.level))
        && entries[name] == if env in carried && name in carried[env] then carried[env][name]
                            else FreshEntry(age, s, env, name, s.resolved[env][name]).value
      decreases left
    {
      var name :| name in left;
      if env in carried && name in carried[env] {
        entries := entries[name := carried[env][name]];
      } else {
        var e := FreshEntry(age, s, env, name, s.resolved[env][name]);
        if e.Err? {
          return Err;
        }
        entries := entries[name := e.value];
      }
      left := left - {name};
    }
    return Ok(entries);
  }

  /** The sections part-way: the envs in `done` are rebuilt, the others are as before. */
  ghost predicate Rebuilt(age: Age, s: SealRun, carried: map<string, Entries>, prior: Envs, done: set<string>, envs: Envs) {
    && done <= s.resolved.Keys
    && envs.Keys == prior.Keys + done
    && (forall env :: env in done ==> CanSealEnv(age, s, carried, env) && envs[env] == SealedSection(age, s, carried, env))
    && (forall env :: env in prior && env !in done ==> envs[env] == prior[env])
  }

  lemma RebuiltAll(age: Age, s: SealRun, carried: map<string, Entries>, prior: Envs, envs: Envs)
    requires Rebuilt(age, s, carried, prior, s.resolved.Keys, envs)
    ensures CanSeal(age, s, carried) && envs == SealedEnvs(age, s, carried, prior)
  {
  }

  /** The body both seal commands share: rebuild each resolved env, in name order, over the prior sections. */
  method SealEnvs(age: Age, s: SealRun, carried: map<string, Entries>, prior: Envs) returns (r: Result<Envs>)
    ensures r.Ok? <==> CanSeal(age, s, carried)
    ensures r.Ok? ==> r.value == SealedEnvs(age, s, carried, prior)
  {
    var envs := prior;
    var envNames := CollectAndSort(s.resolved.Keys);
    for i := 0 to |envNames|
      invariant Rebuilt(age, s, carried, prior, Elements(envNames[..i]), envs)
    {
      var env := envNames[i];
      assert env in Elements(envNames);
      ElementsSnoc(envNames, i);
      if env !in s.recipient {
        return Err;
      }
      var entries := SealEntries(age, s, carried, env);
      if entries.Err? {
        return Err;
      }
      envs := envs[env := EnvSection("", entries.value, None)];
    }
    assert envNames[..|envNames|] == envNames;
    RebuiltAll(age, s, carried, prior, envs);
    return Ok(envs);
  }

  /** The name diff of each resolved env against the prior section. */
  method DiffEnvs(s: SealRun, prior: Envs) returns (diffs: map<string, NameDiff>)
    ensures diffs == SealDiffs(s, prior)
  {
    diffs := map[];
    var left := s.resolved.Keys;
    while left != {}
      invariant left <= s.resolved.Keys && diffs.Keys == s.resolved.Keys - left
      invariant forall env :: env in diffs ==> diffs[env] == NamesDiff(EntriesOf(prior, env).Keys, s.resolved[env].Keys)
      decreases left
    {
      var env :| env in left;
      var d := DiffKeys(EntriesOf(prior, env).Keys, s.resolved[env].Keys);
      diffs := diffs[env := d];
      left := left - {env};
    }
  }

  method DiffKeys(before: set<string>, after: set<string>) returns (d: NameDiff)
    ensures d == NamesDiff(before, after)
  {
    var oldNames := CollectAndSort(before);
    var newNames := CollectAndSort(after);
    DiffOfSorted(oldNames, newNames);
    d := DiffNames(oldNames, newNames);
  }

  // ---------------------------------------------------------------- SealBundleV4

  /** Only a v4 bundle has ciphertexts a v4 seal can carry. */
  function PriorV4(f: File): Envs {
    match LoadBundle(f)
    case Ok(b) => if b.version == V4 then Sections(b) else map[]
    case Err => map[]
  }

  function AllEntries(envs: Envs): map<string, Entries> {
    map env | env in envs :: envs[env].entries
  }

  function RunV4(human: string, envRecipient: map<string, string>, level: int64,
                 resolved: map<string, map<string, string>>, rand: (string, string) -> nat): SealRun {
    SealRun(ByKey(human), human, envRecipient, level, resolved, rand)
  }

  /** The file after SealBundleV4, or None when the command fails and leaves it alone. */
  function SealV4(age: Age, f: File, s: SealRun): Option<File> {
    var prior := PriorV4(f);
    if CanSeal(age, s, AllEntries(prior))
    then Some(WriteBundle(Normalized(V4, SealedEnvs(age, s, AllEntries(prior), prior))))
    else None
  }

  method SealBundleV4(age: Age, file: BundleFile, human: string, envRecipient: map<string, string>, level: int64,
                      resolved: map<string, map<string, string>>, rand: (string, string) -> nat)
    returns (r: Result<map<string, NameDiff>>)
    modifies file
    ensures var after := SealV4(age, old(file.content), RunV4(human, envRecipient, level, resolved, rand));
      && (r.Ok? <==> after.Some?)
      && file.content == (if after.Some? then after.value else old(file.content))
    ensures r.Ok? ==> r.value == SealDiffs(RunV4(human, envRecipient, level, resolved, rand), PriorV4(old(file.content)))
  {
    var prior: Envs := map[];
    var existing := LoadBundle(file.content);
    if existing.Ok? && existing.value.version == V4 {
      prior := Sections(existing.value);
    }
    var s := RunV4(human, envRecipient, level, resolved, rand);
    var sealed := SealEnvs(age, s, AllEntries(prior), prior);
    if sealed.Err? {
      return Err;
    }
    var diffs := DiffEnvs(s, prior);
    file.Write(Normalized(V4, sealed.value));
    return Ok(diffs);
  }

  // ---------------------------------------------------------------- SealBundleV2

  /** The recipient an env resolves to through its cluster, where both maps answer. */
  function ClusterRecipients(clusters: map<string, string>, envCluster: map<string, string>): map<string, string> {
    map env | env in envCluster && envCluster[env] in clusters :: clusters[envCluster[env]]
  }

  function RunV2(human: string, clusters: map<string, string>, envCluster: map<string, string>, projectID: int64,
                 level: int64, resolved: map<string, map<string, string>>, rand: (string, string) -> nat): SealRun {
    SealRun(ById(projectID), human, ClusterRecipients(clusters, envCluster), level, resolved, rand)
  }

  /** The numeric-id prior, or None when it belongs to another project. */
  function PriorV2(f: File, projectID: int64): Option<Envs> {
    match LoadBundle(f)
    case Err => Some(map[])
    case Ok(b) =>
      if b.version != V2 && b.version != V3 then Some(map[])
      else if b.projectID != 0 && b.projectID != projectID then None
      else Some(Sections(b))
  }

  predicate SameCluster(prior: Envs, envCluster: map<string, string>, env: string) {
    env in prior ==> prior[env].cluster == "" || (env in envCluster && prior[env].cluster == envCluster[env])
  }

  /** Entries are carried only within the cluster the section was labelled with. */
  function CarriedV2(prior: Envs, envCluster: map<string, string>): map<string, Entries> {
    map env | env in prior && SameCluster(prior, envCluster, env) :: prior[env].entries
  }

  /** The file after SealBundleV2 (a v3 bundle), or None when the command fails and leaves it alone. */
  function SealV2(age: Age, f: File, envCluster: map<string, string>, projectID: int64, s: SealRun): Option<File> {
    match PriorV2(f, projectID)
    case None => None
    case Some(prior) =>
      var carried := CarriedV2(prior, envCluster);
      if CanSeal(age, s, carried) then Some(WriteBundle(Normalized(V3, SealedEnvs(age, s, carried, prior))))
      else None
  }

  method SealBundleV2(age: Age, file: BundleFile, human: string, clusters: map<string, string>,
                      envCluster: map<string, string>, projectID: int64, level: int64,
                      resolved: map<string, map<string, string>>, rand: (string, string) -> nat)
    returns (r: Result<map<string, NameDiff>>)
    modifies file
    ensures var s := RunV2(human, clusters, envCluster, projectID, level, resolved, rand);
      var after := SealV2(age, old(file.content), envCluster, projectID, s);
      && (r.Ok? <==> after.Some?)
      && file.content == (if after.Some? then after.value else old(file.content))
      && (r.Ok? ==> r.value == SealDiffs(s, PriorV2(old(file.content), projectID).value))
  {
    var prior := LoadNumericPrior(file.content, projectID);
    if prior.None? {
      return Err;
    }
    var s := RunV2(human, clusters, envCluster, projectID, level, resolved, rand);
    var sealed := SealEnvs(age, s, CarriedV2(prior.value, envCluster), prior.value);
    if sealed.Err? {
      return Err;
    }
    var diffs := DiffEnvs(s, prior.value);
    file.Write(Normalized(V3, sealed.value));
    return Ok(diffs);
  }

  method LoadNumericPrior(f: File, projectID: int64) returns (r: Option<Envs>)
    ensures r == PriorV2(f, projectID)
  {
    var prior: Envs := map[];
    var existing := LoadBundle(f);
    if existing.Ok? && (existing.value.version == V2 || existing.value.version == V3) {
      if existing.value.projectID != 0 && existing.value.projectID != projectID {
        return None;
      }
      prior := Sections(existing.value);
    }
    return Some(prior);
  }

  // ---------------------------------------------------------------- StripKeyFromBundle

  function StripSection(sec: EnvSection, key: string): EnvSection {
    sec.(entries := sec.entries - {key})
  }

  function StripEnvs(envs: Envs, key: string): Envs {
    map env | env in envs :: StripSection(envs[env], key)
  }

  function Holding(envs: Envs, key: string): set<string> {
    set env | env in envs && key in envs[env].entries
  }

  /** The file after StripKeyFromBundle; unchanged when it fails or no section holds the key. */
  function StripKey(f: File, key: string): File {
    match LoadBundle(f)
    case Err => f
    case Ok(b) =>
      if !IsPerEnvVersion(b.version) || Holding(Sections(b), key) == {} then f
      else WriteBundle(b.(envs := Some(StripEnvs(Sections(b), key))))
  }

  /** The loop of StripKeyFromBundle, deleting from one section after another. */
  method StripSections(before: Envs, key: string) returns (envs: Envs, removed: nat)
    ensures envs == StripEnvs(before, key) && removed == |Holding(before, key)|
  {
    envs, removed := before, 0;
    ghost var touched: set<string> := {};
    var left := envs.Keys;
    while left != {}
      invariant left <= envs.Keys == before.Keys
      invariant forall env :: env in envs ==>
        envs[env] == if env in left then before[env] else StripSection(before[env], key)
      invariant forall env :: env in touched <==> env in envs && env !in left && key in before[env].entries
      invariant removed == |touched|
      decreases left
    {
      var env :| env in left;
      var sec := envs[env];
      if key in sec.entries {
        envs := envs[env := StripSection(sec, key)];
        removed := removed + 1;
        touched := touched + {env};
      } else {
        assert sec.entries - {key} == sec.entries;
      }
      left := left - {env};
    }
    assert touched == Holding(before, key);
  }

  method StripKeyFromBundle(file: BundleFile, key: string) returns (r: Result<nat>)
    modifies file
    ensures file.content == StripKey(old(file.content), key)
    ensures var b := LoadBundle(old(file.content));
      && (r.Ok? <==> b.Ok? && IsPerEnvVersion(b.value.version))
      && (r.Ok? ==> r.value == |Holding(Sections(b.value), key)|)
  {
    var b := LoadBundle(file.content);
    if b.Err? || !IsPerEnvVersion(b.value.version) {
      return Err;
    }
    var envs, removed := StripSections(Sections(b.value), key);
    if removed > 0 {
      file.Write(b.value.(envs := Some(envs)));
    }
    return Ok(removed);
  }
}
