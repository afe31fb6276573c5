/** internal/client/materialize.go and cmdMaterialize in cmd/sealdctl/main.go: decrypting one env of
    every bundle into Kubernetes Secrets, all or nothing, then applying and pruning them. */
module Materialize {
  import opened Wrappers
  import opened Text
  import opened SortedKeys
  import opened Crypto
  import opened Bundles
  import opened Sealing

  const DOCKER_SECRET := "docker-secret"
  const DOCKER_CONFIG_KEY := ".dockerconfigjson"
  const DOCKER_TYPE := "kubernetes.io/dockerconfigjson"
  const OPAQUE_TYPE := "Opaque"
  const APP_SUFFIX := "-app"

  datatype K8sSecret = K8sSecret(name: string, namespace: string, kind: string, data: map<string, string>)

  /** The per-Job wiring, but for the mounted identity. */
  datatype Job = Job(env: string, namespace: string, cluster: string, projectID: int64, recipient: string, prefix: string)

  // ---------------------------------------------------------------- names

  predicate IsLabelChar(c: char) {
    'a' <= c <= 'z' || '0' <= c <= '9'
  }

  /** ^[a-z0-9]([-a-z0-9]*[a-z0-9])?$, at most 63 characters long. */
  predicate ValidDNSLabel(s: string) {
    && 0 < |s| <= 63
    && IsLabelChar(s[0]) && IsLabelChar(s[|s| - 1])
    && forall i :: 0 <= i < |s| ==> s[i] == '-' || IsLabelChar(s[i])
  }

  const LETTERS := "abcdefghijklmnopqrstuvwxyz"
  const DIGITS := "0123456789"
  const LABEL_CHARS := LETTERS + DIGITS

  lemma LettersAre(c: char)
    ensures 'a' <= c <= 'z' <==> c in LETTERS
  {
    if 'a' <= c <= 'z' { assert LETTERS[c as int - 'a' as int] == c; }
  }

  lemma DigitsAre(c: char)
    ensures '0' <= c <= '9' <==> c in DIGITS
  {
    if '0' <= c <= '9' { assert DIGITS[c as int - '0' as int] == c; }
  }

  lemma LabelCharIs(c: char)
    ensures IsLabelChar(c) <==> c in LABEL_CHARS
  {
    LettersAre(c);
    DigitsAre(c);
    InEither(c, LETTERS, DIGITS);
  }

  lemma InEither(c: char, s: string, r: string)
    ensures c in s + r <==> c in s || c in r
  {
  }

  /** The label grammar, character by character. */
  lemma LabelIs(s: string)
    ensures ValidDNSLabel(s)
       <==> && 1 <= |s| <= 63 && s[0] in LABEL_CHARS && s[|s| - 1] in LABEL_CHARS
            && forall c :: c in s ==> c == '-' || c in LABEL_CHARS
  {
    hide IsLabelChar;
    forall c ensures IsLabelChar(c) <==> c in LABEL_CHARS { LabelCharIs(c); }
  }

  function SecretName(prefix: string, svc: string): string {
    if svc == DOCKER_SECRET then DOCKER_SECRET else prefix + svc + APP_SUFFIX
  }

  function AssembleSecret(svc: string, namespace: string, prefix: string, data: map<string, string>): (r: Result<K8sSecret>)
    ensures r.Ok? <==> && ValidDNSLabel(svc) && ValidDNSLabel(namespace) && ValidDNSLabel(SecretName(prefix, svc))
                       && (svc == DOCKER_SECRET ==> |data| == 1)
    ensures r.Ok? ==> r.value.name == SecretName(prefix, svc) && r.value.namespace == namespace
    ensures r.Ok? && svc != DOCKER_SECRET ==> r.value.kind == OPAQUE_TYPE && r.value.data == data
    ensures r.Ok? && svc == DOCKER_SECRET ==>
              r.value.kind == DOCKER_TYPE && forall k :: k in data ==> r.value.data == map[DOCKER_CONFIG_KEY := data[k]]
  {
    if !ValidDNSLabel(svc) || !ValidDNSLabel(namespace) then Err
    else if svc == DOCKER_SECRET then
      if |data| != 1 then Err
      else
        assert |data.Keys| == 1;
        TheKey(data.Keys);
        var k :| k in data.Keys;
        assert forall x :: x in data ==> x == k;
        Ok(K8sSecret(DOCKER_SECRET, namespace, DOCKER_TYPE, map[DOCKER_CONFIG_KEY := data[k]]))
    else
      var name := prefix + svc + APP_SUFFIX;
      if ValidDNSLabel(name) then Ok(K8sSecret(name, namespace, OPAQUE_TYPE, data)) else Err
  }

  lemma TheKey(s: set<string>)
    requires |s| == 1
    ensures exists k :: k in s && forall x :: x in s ==> x == k
  {
    var k :| k in s;
    assert |s - {k}| == 0;
    assert s - {k} == {};
    assert forall x :: x in s ==> x == k || x in s - {k};
  }

  /** Two services never share a Secret name, the docker pull secret included. */
  lemma SecretNamesDistinct(prefix: string, svc1: string, svc2: string)
    ensures SecretName(prefix, svc1) == SecretName(prefix, svc2) <==> svc1 == svc2
  {
    var n1, n2 := prefix + svc1 + APP_SUFFIX, prefix + svc2 + APP_SUFFIX;
    assert n1[|n1| - 1] == n2[|n2| - 1] == 'p' && DOCKER_SECRET[|DOCKER_SECRET| - 1] == 't';
    if n1 == n2 {
      assert svc1 == n1[|prefix|..|n1| - 4] && svc2 == n2[|prefix|..|n2| - 4];
    }
  }

  function StripSlashes(path: string): string {
    if path != "" && path[|path| - 1] == '/' then StripSlashes(path[..|path| - 1]) else path
  }

  function AfterSlash(path: string): string {
    if path == "" || path[|path| - 1] == '/' then "" else AfterSlash(path[..|path| - 1]) + [path[|path| - 1]]
  }

  /** filepath.Base */
  function Base(path: string): string {
    if path == "" then "."
    else if StripSlashes(path) == "" then "/"
    else AfterSlash(StripSlashes(path))
  }

  lemma {:induction false} BaseOfSlashes(path: string)
    requires forall i :: 0 <= i < |path| ==> path[i] == '/'
    ensures StripSlashes(path) == "" && Base(path) == if path == "" then "." else "/"
  {
    if path != "" { BaseOfSlashes(path[..|path| - 1]); }
  }

  function ServiceFromBundlePath(path: string): string {
    TrimSuffix(Base(path), BUNDLE_SUFFIX)
  }

  lemma {:induction false} AfterSlashOfJoin(dir: string, file: string)
    requires '/' !in file
    ensures AfterSlash(dir + "/" + file) == file
  {
    var p := dir + "/" + file;
    if file != "" {
      var front := file[..|file| - 1];
      assert p[..|p| - 1] == dir + "/" + front;
      AfterSlashOfJoin(dir, front);
      assert file == front + [file[|file| - 1]];
    }
  }

  /** The path of a service's bundle in a directory. */
  function BundlePath(dir: string, svc: string): string {
    dir + "/" + (svc + BUNDLE_SUFFIX)
  }

  /** The bundles of one directory name distinct services. */
  lemma ServiceOfPath(dir: string, svc: string)
    requires '/' !in svc
    ensures ServiceFromBundlePath(BundlePath(dir, svc)) == svc
  {
    AfterSlashOfJoin(dir, svc + BUNDLE_SUFFIX);
  }

  // ---------------------------------------------------------------- building one Secret

  /** The discriminator a bundle's envelopes are held to: the key for v4, a numeric id before. */
  function WantedProject(b: Bundle, job: Job): Option<Project> {
    if b.version == V4 then
      if job.recipient == "" then None else Some(ByKey(job.recipient))
    else
      var id := if job.projectID != 0 then job.projectID else b.projectID;
      if id == 0 then None else Some(ById(id))
  }

  function ReadEntry(age: Age, stored: string, identity: string, want: Project): Result<(string, int)> {
    match age.blob(stored)
    case None => Err
    case Some(ct) => Unseal(age, ct, identity, want)
  }

  predicate AllReadable(age: Age, entries: Entries, identity: string, want: Project) {
    forall name :: name in entries ==> ReadEntry(age, entries[name], identity, want).Ok?
  }

  function ReadAll(age: Age, entries: Entries, identity: string, want: Project): map<string, string>
    requires AllReadable(age, entries, identity, want)
  {
    map name | name in entries :: ReadEntry(age, entries[name], identity, want).value.0
  }

  function BuildSecret(age: Age, b: Bundle, svc: string, job: Job, identity: string): Result<K8sSecret> {
    if !IsPerEnvVersion(b.version) || job.env !in Sections(b) then Err
    else
      var sec := Sections(b)[job.env];
      if sec.cluster != "" && sec.cluster != job.cluster then Err
      else
        match WantedProject(b, job)
        case None => Err
        case Some(want) =>
          if !AllReadable(age, sec.entries, identity, want) then Err
          else AssembleSecret(svc, job.namespace, job.prefix, ReadAll(age, sec.entries, identity, want))
  }

  /** The project a bundle's entries are read for: a v4 bundle's key is the job's; a numeric bundle's id is the
      job's, or failing that the bundle's own. */
  predicate ReadFor(b: Bundle, job: Job, p: Project) {
    match p
    case ByKey(key) => b.version == "v4" && key == job.recipient != ""
    case ById(id) => b.version != "v4" && id != 0 && id == (if job.projectID != 0 then job.projectID else b.projectID)
  }

  /** When a Secret is built: from a per-env bundle with the env, whose label, if it has one, is this
      cluster's, and whose every entry opens for the mounted identity and the one project; for names that
      are DNS labels. */
  lemma BuildAccepts(age: Age, b: Bundle, svc: string, job: Job, identity: string)
    ensures BuildSecret(age, b, svc, job, identity).Ok?
       <==> exists p ::
            && ReadFor(b, job, p)
            && (b.version == "v2" || b.version == "v3" || b.version == "v4") && b.envs.Some? && job.env in b.envs.value
            && var sec := b.envs.value[job.env];
               && (sec.cluster == "" || sec.cluster == job.cluster)
               && (forall name :: name in sec.entries ==>
                     age.blob(sec.entries[name]).Some? && Unseal(age, age.blob(sec.entries[name]).value, identity, p).Ok?)
               && ValidDNSLabel(svc) && ValidDNSLabel(job.namespace) && ValidDNSLabel(SecretName(job.prefix, svc))
               && (svc == "docker-secret" ==> |sec.entries| == 1)
  {
    hide Unseal, ValidDNSLabel, SecretName;
    WantedIsReadFor(b, job);
    if IsPerEnvVersion(b.version) && job.env in Sections(b) && WantedProject(b, job).Some? {
      var entries, p := Sections(b)[job.env].entries, WantedProject(b, job).value;
      if AllReadable(age, entries, identity, p) {
        assert ReadAll(age, entries, identity, p).Keys == entries.Keys;
        assert |ReadAll(age, entries, identity, p)| == |ReadAll(age, entries, identity, p).Keys| == |entries.Keys| == |entries|;
      }
    }
  }

  lemma WantedIsReadFor(b: Bundle, job: Job)
    ensures forall p :: ReadFor(b, job, p) <==> WantedProject(b, job) == Some(p)
  {
  }

  /** What a built Secret holds: every entry under its own name, as its plaintext; for docker-secret the one
      plaintext under the well-known key. */
  lemma BuildHolds(age: Age, b: Bundle, svc: string, job: Job, identity: string, p: Project, name: string)
    requires BuildSecret(age, b, svc, job, identity).Ok? && ReadFor(b, job, p)
    requires b.envs.Some? && job.env in b.envs.value && name in b.envs.value[job.env].entries
    ensures var data, stored := BuildSecret(age, b, svc, job, identity).value.data, b.envs.value[job.env].entries[name];
      && age.blob(stored).Some? && Unseal(age, age.blob(stored).value, identity, p).Ok?
      && (svc != "docker-secret" ==>
            && data.Keys == b.envs.value[job.env].entries.Keys
            && data[name] == Unseal(age, age.blob(stored).value, identity, p).value.0)
      && (svc == "docker-secret" ==> data == map[".dockerconfigjson" := Unseal(age, age.blob(stored).value, identity, p).value.0])
  {
    hide Unseal, ValidDNSLabel, SecretName;
    WantedIsReadFor(b, job);
    assert name in ReadAll(age, b.envs.value[job.env].entries, identity, p);
  }

  /** BuildSecretForBundle. The mounted identity is only read: each entry is decrypted with a copy,
      and the copy is what gets wiped. */
  method BuildSecretForBundle(age: Age, b: Bundle, svc: string, job: Job, identity: array<char>)
    returns (r: Result<K8sSecret>)
    ensures r == BuildSecret(age, b, svc, job, identity[..])
  {
    if !IsPerEnvVersion(b.version) || job.env !in Sections(b) {
      return Err;
    }
    var sec := Sections(b)[job.env];
    if sec.cluster != "" && sec.cluster != job.cluster {
      return Err;
    }
    var want := WantedProject(b, job);
    if want.None? {
      return Err;
    }
    var data := DecryptEntries(age, sec.entries, want.value, identity);
    if data.Err? {
      return Err;
    }
    return AssembleSecret(svc, job.namespace, job.prefix, data.value);
  }

  method DecryptEntries(age: Age, entries: Entries, want: Project, identity: array<char>)
    returns (r: Result<map<string, string>>)
    ensures r.Ok? <==> AllReadable(age, entries, identity[..], want)
    ensures r.Ok? ==> r.value == ReadAll(age, entries, identity[..], want)
  {
    var names := CollectAndSort(entries.Keys);
    assert forall k :: k in names <==> k in Elements(names);
    var data: map<string, string> := map[];
    for i := 0 to |names|
      invariant data.Keys == Elements(names[..i])
      invariant forall name :: name in data ==>
        name in entries && ReadEntry(age, entries[name], identity[..], want).Ok?
        && data[name] == ReadEntry(age, entries[name], identity[..], want).value.0
    {
      var name := names[i];
      assert name in entries;
      ElementsSnoc(names, i);
      var ct := age.blob(entries[name]);
      if ct.None? {
        return Err;
      }
      var id := new char[identity.Length](j requires 0 <= j < identity.Length reads identity => identity[j]);
      assert id[..] == identity[..];
      var pt := UnsealVerified(age, ct.value, id, want);
      if pt.Err? {
        return Err;
      }
      data := data[name := pt.value.0];
    }
    assert names[..|names|] == names;
    return Ok(data);
  }

  // ---------------------------------------------------------------- a run of the materializer

  /** A Secret in the namespace, and whether it carries the materializer's label. */
  datatype Live = Live(managed: bool, kind: string, data: map<string, string>)

  type Cluster = map<string, Live>

  function Managed(c: Cluster): set<string> {
    set n | n in c && c[n].managed
  }

  function Rendered(s: K8sSecret): Live {
    Live(true, s.kind, s.data)
  }

  /** A bundle path with what the file at it holds. */
  type Bundled = (string, File)

  function BuildOne(age: Age, f: Bundled, job: Job, identity: string): Result<K8sSecret> {
    match LoadBundle(f.1)
    case Err => Err
    case Ok(b) => BuildSecret(age, b, ServiceFromBundlePath(f.0), job, identity)
  }

  predicate AllBuild(age: Age, files: seq<Bundled>, job: Job, identity: string) {
    forall i :: 0 <= i < |files| ==> BuildOne(age, files[i], job, identity).Ok?
  }

  function BuiltSecrets(age: Age, files: seq<Bundled>, job: Job, identity: string): (built: seq<K8sSecret>)
    requires AllBuild(age, files, job, identity)
    ensures |built| == |files|
  {
    seq(|files|, i requires 0 <= i < |files| => BuildOne(age, files[i], job, identity).value)
  }

  function Names(built: seq<K8sSecret>): set<string> {
    set s | s in built :: s.name
  }

  /** kubectl, which may fail at any call: `applyFails` and `deleteFails` say for which names. */
  class Kubectl {
    var secrets: Cluster
    const applyFails: set<string>
    const deleteFails: set<string>
    const listFails: bool

    constructor (secrets: Cluster, applyFails: set<string>, deleteFails: set<string>, listFails: bool)
      ensures this.secrets == secrets && this.applyFails == applyFails
      ensures this.deleteFails == deleteFails && this.listFails == listFails
    {
      this.secrets := secrets;
      this.applyFails, this.deleteFails, this.listFails := applyFails, deleteFails, listFails;
    }

    method Apply(s: K8sSecret) returns (ok: bool)
      modifies this
      ensures ok <==> s.name !in applyFails
      ensures secrets == if ok then old(secrets)[s.name := Rendered(s)] else old(secrets)
    {
      ok := s.name !in applyFails;
      if ok { secrets := secrets[s.name := Rendered(s)]; }
    }

    method Delete(name: string) returns (ok: bool)
      modifies this
      ensures ok <==> name !in deleteFails
      ensures secrets == if ok then old(secrets) - {name} else old(secrets)
    {
      ok := name !in deleteFails;
      if ok { secrets := secrets - {name}; }
    }
  }

  /** Phase 1 of cmdMaterialize: every Secret is built, or the run stops. */
  method BuildAll(age: Age, files: seq<Bundled>, job: Job, identity: array<char>) returns (r: Result<seq<K8sSecret>>)
    ensures r.Ok? <==> AllBuild(age, files, job, identity[..])
    ensures r.Ok? ==> r.value == BuiltSecrets(age, files, job, identity[..])
  {
    hide BuildSecret;
    var built := [];
    for i := 0 to |files|
      invariant |built| == i
      invariant forall j :: 0 <= j < i ==> Ok(built[j]) == BuildOne(age, files[j], job, identity[..])
    {
      var b := LoadBundle(files[i].1);
      if b.Err? {
        return Err;
      }
      var s := BuildSecretForBundle(age, b.value, ServiceFromBundlePath(files[i].0), job, identity);
      if s.Err? {
        return Err;
      }
      built := built + [s.value];
    }
    return Ok(built);
  }

  /** What one glob yields: paths <dir>/<svc>.app.json, each once. */
  ghost predicate Globbed(dir: string, files: seq<Bundled>) {
    && (forall i :: 0 <= i < |files| ==> exists svc :: '/' !in svc && files[i].0 == BundlePath(dir, svc))
    && forall i, j :: 0 <= i < j < |files| ==> files[i].0 != files[j].0
  }

  lemma GlobbedServices(dir: string, files: seq<Bundled>)
    requires Globbed(dir, files)
    ensures DistinctServices(files)
  {
    forall i, j | 0 <= i < j < |files| ensures ServiceFromBundlePath(files[i].0) != ServiceFromBundlePath(files[j].0) {
      var s :| '/' !in s && files[i].0 == BundlePath(dir, s);
      var u :| '/' !in u && files[j].0 == BundlePath(dir, u);
      ServiceOfPath(dir, s);
      ServiceOfPath(dir, u);
    }
  }

  predicate DistinctServices(files: seq<Bundled>) {
    forall i, j :: 0 <= i < j < |files| ==> ServiceFromBundlePath(files[i].0) != ServiceFromBundlePath(files[j].0)
  }

  lemma BuiltNamesDistinct(age: Age, files: seq<Bundled>, job: Job, identity: string)
    requires AllBuild(age, files, job, identity) && DistinctServices(files)
    ensures var built := BuiltSecrets(age, files, job, identity);
      forall i, j :: 0 <= i < j < |built| ==> built[i].name != built[j].name
  {
    var built := BuiltSecrets(age, files, job, identity);
    forall i, j | 0 <= i < j < |built| ensures built[i].name != built[j].name {
      BuiltName(age, files[i], job, identity);
      BuiltName(age, files[j], job, identity);
      SecretNamesDistinct(job.prefix, ServiceFromBundlePath(files[i].0), ServiceFromBundlePath(files[j].0));
    }
  }

  lemma BuiltName(age: Age, f: Bundled, job: Job, identity: string)
    requires BuildOne(age, f, job, identity).Ok?
    ensures BuildOne(age, f, job, identity).value.name == SecretName(job.prefix, ServiceFromBundlePath(f.0))
  {
  }

  /** Secrets that are neither the materializer's nor about to become so. */
  ghost predicate ForeignKept(before: Cluster, after: Cluster, built: seq<K8sSecret>) {
    && (forall n :: n in before && !before[n].managed && n !in Names(built) ==> n in after && after[n] == before[n])
    && (forall n :: n in after && n !in Names(built) ==> n in before && after[n] == before[n])
  }

  method ApplyAll(k: Kubectl, built: seq<K8sSecret>) returns (ok: bool)
    requires forall i, j :: 0 <= i < j < |built| ==> built[i].name != built[j].name
    modifies k
    ensures ok <==> Names(built) !! k.applyFails
    ensures ForeignKept(old(k.secrets), k.secrets, built)
    ensures forall n :: n in old(k.secrets) ==> n in k.secrets
    ensures ok ==> forall i :: 0 <= i < |built| ==> built[i].name in k.secrets && k.secrets[built[i].name] == Live(true, built[i].kind, built[i].data)
  {
    for i := 0 to |built|
      invariant forall j :: 0 <= j < i ==> built[j].name !in k.applyFails
      invariant forall j :: 0 <= j < i ==> built[j].name in k.secrets && k.secrets[built[j].name] == Live(true, built[j].kind, built[j].data)
      invariant ForeignKept(old(k.secrets), k.secrets, built)
      invariant forall n :: n in old(k.secrets) ==> n in k.secrets
    {
      assert built[i].name in Names(built);
      ok := k.Apply(built[i]);
      if !ok {
        return;
      }
    }
    return true;
  }

  /** Deletes every managed Secret that was not built. */
  method Prune(k: Kubectl, want: set<string>) returns (ok: bool)
    modifies k
    ensures forall n :: n in k.secrets ==> n in old(k.secrets) && k.secrets[n] == old(k.secrets)[n]
    ensures forall n :: n in old(k.secrets) && (n in want || !old(k.secrets)[n].managed) ==> n in k.secrets
    ensures ok <==> !k.listFails && (Managed(old(k.secrets)) - want) !! k.deleteFails
    ensures ok ==> Managed(k.secrets) <= want
  {
    if k.listFails {
      return false;
    }
    var live := Managed(k.secrets);
    while live != {}
      invariant forall n :: n in k.secrets ==> n in old(k.secrets) && k.secrets[n] == old(k.secrets)[n]
      invariant forall n :: n in old(k.secrets) && (n in want || !old(k.secrets)[n].managed) ==> n in k.secrets
      invariant live <= Managed(old(k.secrets)) && Managed(k.secrets) - want <= live
      invariant (Managed(old(k.secrets)) - want - live) !! k.deleteFails
      decreases live
    {
      var name :| name in live;
      if name !in want {
        ok := k.Delete(name);
        if !ok {
          assert name in Managed(old(k.secrets)) - want;
          return;
        }
      }
      live := live - {name};
    }
    assert Managed(k.secrets) - want == {};
    assert Managed(old(k.secrets)) - want - live == Managed(old(k.secrets)) - want;
    assert forall n :: n in Managed(k.secrets) ==> n in want || n in Managed(k.secrets) - want;
    return true;
  }

  /** cmdMaterialize in apply mode. Nothing is touched unless every Secret builds; Secrets that are not
      the materializer's survive every outcome; and a run that reports success leaves exactly the built
      names managed, each as rendered. */
  method Materialize(age: Age, ghost dir: string, files: seq<Bundled>, job: Job, identity: array<char>, k: Kubectl)
    returns (ok: bool)
    requires Globbed(dir, files)
    modifies k
    ensures ok <==> && files != [] && AllBuild(age, files, job, identity[..])
                    && var names := Names(BuiltSecrets(age, files, job, identity[..]));
                       names !! k.applyFails && !k.listFails && (Managed(old(k.secrets)) - names) !! k.deleteFails
    ensures !AllBuild(age, files, job, identity[..]) ==> k.secrets == old(k.secrets)
    ensures AllBuild(age, files, job, identity[..]) ==>
              ForeignKept(old(k.secrets), k.secrets, BuiltSecrets(age, files, job, identity[..]))
    ensures ok ==>
      var built := BuiltSecrets(age, files, job, identity[..]);
      && Managed(k.secrets) == Names(built)
      && (forall i :: 0 <= i < |built| ==> built[i].name in k.secrets && k.secrets[built[i].name] == Live(true, built[i].kind, built[i].data))
  {
    if |files| == 0 {
      return false;
    }
    var all := BuildAll(age, files, job, identity);
    if all.Err? {
      return false;
    }
    var built := all.value;
    GlobbedServices(dir, files);
    BuiltNamesDistinct(age, files, job, identity[..]);
    ok := ApplyAll(k, built);
    if !ok {
      return;
    }
    label applied:
    assert Managed(k.secrets) - Names(built) == Managed(old(k.secrets)) - Names(built);
    ok := Prune(k, Names(built));
    assert forall n :: n in Names(built) ==> n in old@applied(k.secrets) && n in k.secrets;
  }

  lemma TargetIsFixed(c: Cluster, built: seq<K8sSecret>, again: Cluster)
    requires Managed(c) == Names(built) && Managed(again) == Names(built)
    requires forall i :: 0 <= i < |built| ==> built[i].name in c && c[built[i].name] == Live(true, built[i].kind, built[i].data)
    requires forall i :: 0 <= i < |built| ==> built[i].name in again && again[built[i].name] == Live(true, built[i].kind, built[i].data)
    requires ForeignKept(c, again, built)
    ensures again == c
  {
    forall n | n in c ensures n in again && again[n] == c[n] {
      if n in Names(built) {
        var s :| s in built && s.name == n;
        var i :| 0 <= i < |built| && built[i] == s;
      }
    }
  }

  /** The command run twice: when both runs succeed the second changes nothing. `between` is the cluster
      after the first. */
  method MaterializeTwice(age: Age, ghost dir: string, files: seq<Bundled>, job: Job, identity: array<char>, k: Kubectl)
    returns (first: bool, ghost between: Cluster, second: bool)
    requires Globbed(dir, files)
    modifies k
    ensures first && second ==> k.secrets == between && AllBuild(age, files, job, identity[..])
                                && Managed(between) == Names(BuiltSecrets(age, files, job, identity[..]))
  {
    first := Materialize(age, dir, files, job, identity, k);
    between := k.secrets;
    second := Materialize(age, dir, files, job, identity, k);
    if first && second {
      TargetIsFixed(between, BuiltSecrets(age, files, job, identity[..]), k.secrets);
    }
  }
}
