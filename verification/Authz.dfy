/** internal/client/authz_diff.go, authz_scan.go, authz_verdict.go and the level policy of seal.go:
    the write gate, from two trees to a verdict. */
module Authz {
  import opened Wrappers
  import opened Text
  import opened SortedKeys
  import opened Bundles

  // ---------------------------------------------------------------- the entry diff

  datatype ChangeKind = Added | Removed | Changed

  datatype EntryChange = EntryChange(file: string, env: string, key: string, kind: ChangeKind)

  /** An (env, key) position. */
  type Slot = (string, string)

  function Slots(envs: Envs): set<Slot> {
    set env, key | env in envs && key in envs[env].entries :: (env, key)
  }

  /** The stored base64 text at a position, as the gate compares it. */
  function At(envs: Envs, s: Slot): Option<string> {
    if s.0 in envs then Get(envs[s.0].entries, s.1) else None
  }

  function KindOf(before: Option<string>, after: Option<string>): ChangeKind {
    if before.None? then Added else if after.None? then Removed else Changed
  }

  function ChangeAt(before: Envs, after: Envs, s: Slot): EntryChange {
    EntryChange("", s.0, s.1, KindOf(At(before, s), At(after, s)))
  }

  /** The changes at some positions: one for each whose stored text differs. */
  function ChangesOn(before: Envs, after: Envs, slots: set<Slot>): set<EntryChange> {
    set s | s in slots && At(before, s) != At(after, s) :: ChangeAt(before, after, s)
  }

  function DiffSet(before: Envs, after: Envs): set<EntryChange> {
    ChangesOn(before, after, Slots(before) + Slots(after))
  }

  /** The list holds exactly these changes, each once. */
  ghost predicate Lists(out: seq<EntryChange>, changes: set<EntryChange>) {
    && (forall c :: c in out <==> c in changes)
    && forall i, j :: 0 <= i < j < |out| ==> out[i] != out[j]
  }

  lemma ListNext(out: seq<EntryChange>, before: Envs, after: Envs, slots: set<Slot>, s: Slot)
    requires Lists(out, ChangesOn(before, after, slots)) && s !in slots
    ensures At(before, s) == At(after, s) ==> Lists(out, ChangesOn(before, after, slots + {s}))
    ensures At(before, s) != At(after, s) ==>
              Lists(out + [ChangeAt(before, after, s)], ChangesOn(before, after, slots + {s}))
  {
    var shorter, longer := ChangesOn(before, after, slots), ChangesOn(before, after, slots + {s});
    if At(before, s) == At(after, s) {
      assert longer == shorter;
    } else {
      var c := ChangeAt(before, after, s);
      assert longer == shorter + {c};
      assert c !in shorter;
    }
  }

  /** An env's positions, for the keys named. */
  function Column(env: string, keys: set<string>): set<Slot> {
    set key | key in keys :: (env, key)
  }

  lemma ColumnGrows(env: string, all: set<string>, left: set<string>, key: string)
    requires key in left && left <= all
    ensures Column(env, all - (left - {key})) == Column(env, all - left) + {(env, key)}
    ensures (env, key) !in Column(env, all - left)
  {
  }

  /** DiffBundleEntries: one walk over the current sections, one over the prior ones. A missing bundle
      has no sections. */
  method DiffBundleEntries(prior: Envs, cur: Envs) returns (out: seq<EntryChange>)
    ensures Lists(out, DiffSet(prior, cur))
    ensures (forall c :: c in out <==> c in DiffSet(prior, cur)) && forall i, j :: 0 <= i < j < |out| ==> out[i] != out[j]
  {
    out := [];
    ghost var seen: set<Slot> := {};
    var left := cur.Keys;
    while left != {}
      invariant left <= cur.Keys
      invariant forall s :: s in seen <==> s in Slots(cur) && s.0 !in left
      invariant Lists(out, ChangesOn(prior, cur, seen))
      decreases left
    {
      var env :| env in left;
      out := WalkSection(prior, cur, env, cur[env].entries.Keys, out, seen);
      seen := seen + Column(env, cur[env].entries.Keys);
      left := left - {env};
    }
    assert seen == Slots(cur);
    left := prior.Keys;
    while left != {}
      invariant left <= prior.Keys
      invariant forall s :: s in seen <==> s in Slots(cur) || (s in Slots(prior) && s.0 !in left)
      invariant Lists(out, ChangesOn(prior, cur, seen))
      decreases left
    {
      var env :| env in left;
      var gone := prior[env].entries.Keys - (if env in cur then cur[env].entries.Keys else {});
      out := WalkSection(prior, cur, env, gone, out, seen);
      seen := seen + Column(env, gone);
      left := left - {env};
    }
    assert seen == Slots(prior) + Slots(cur);
  }

  /** One section's inner loop: appends the change, if any, at each of the keys not yet walked. */
  method WalkSection(prior: Envs, cur: Envs, env: string, keys: set<string>, soFar: seq<EntryChange>, ghost seen: set<Slot>)
    returns (out: seq<EntryChange>)
    requires forall key :: key in keys ==> (env, key) !in seen
    requires Lists(soFar, ChangesOn(prior, cur, seen))
    ensures Lists(out, ChangesOn(prior, cur, seen + Column(env, keys)))
  {
    out := soFar;
    var left := keys;
    assert seen + Column(env, keys - left) == seen;
    while left != {}
      invariant left <= keys
      invariant Lists(out, ChangesOn(prior, cur, seen + Column(env, keys - left)))
      decreases left
    {
      var key :| key in left;
      ColumnGrows(env, keys, left, key);
      ListNext(out, prior, cur, seen + Column(env, keys - left), (env, key));
      assert seen + Column(env, keys - left) + {(env, key)} == seen + Column(env, keys - (left - {key}));
      if At(prior, (env, key)) != At(cur, (env, key)) {
        out := out + [ChangeAt(prior, cur, (env, key))];
      }
      left := left - {key};
    }
  }

  /** A diff says everything: replayed on the prior bundle, with ciphertexts from the current one, it gives the current one at every position. */
  lemma ReplayGivesCurrent(before: Envs, after: Envs, s: Slot)
    ensures var d := DiffSet(before, after);
      At(after, s) == if EntryChange("", s.0, s.1, Removed) in d then None
                      else if EntryChange("", s.0, s.1, Added) in d || EntryChange("", s.0, s.1, Changed) in d
                        then Some(after[s.0].entries[s.1])
                      else At(before, s)
    ensures (exists c :: c in DiffSet(before, after) && c.env == s.0 && c.key == s.1) <==> At(before, s) != At(after, s)
  {
    if At(before, s) != At(after, s) {
      assert s in Slots(before) + Slots(after);
      assert ChangeAt(before, after, s) in DiffSet(before, after);
    }
  }

  /** What is reported at a position, and when. */
  lemma ReportedKinds(before: Envs, after: Envs, env: string, key: string)
    ensures EntryChange("", env, key, Added) in DiffSet(before, after)
       <==> !(env in before && key in before[env].entries) && env in after && key in after[env].entries
    ensures EntryChange("", env, key, Removed) in DiffSet(before, after)
       <==> env in before && key in before[env].entries && !(env in after && key in after[env].entries)
    ensures EntryChange("", env, key, Changed) in DiffSet(before, after)
       <==> && env in before && key in before[env].entries && env in after && key in after[env].entries
            && before[env].entries[key] != after[env].entries[key]
  {
    var s := (env, key);
    if At(before, s) != At(after, s) {
      assert s in Slots(before) + Slots(after);
      assert ChangeAt(before, after, s) in DiffSet(before, after);
    }
  }

  // ---------------------------------------------------------------- the scan

  const REPO_YAML := ".seald/repo.yaml"
  const SEALED_PREFIX := ".sealed/"

  /** What `git show <rev>:<path>` answers. */
  datatype Shown = NoSuchPath | GitError | Content(file: File)

  /** One revision of the repository. */
  type Tree = string -> Shown

  predicate SealedPath(p: string) {
    HasPrefix(p, SEALED_PREFIX) && HasSuffix(p, BUNDLE_SUFFIX)
  }

  /** loadBundleAtRev: an absent path has no sections; a present one must be a per-env bundle. */
  function SectionsAt(tree: Tree, path: string): Result<Envs> {
    match tree(path)
    case GitError => Err
    case NoSuchPath => Ok(map[])
    case Content(f) =>
      match LoadBundle(f)
      case Err => Err
      case Ok(b) => if IsPerEnvVersion(b.version) then Ok(Sections(b)) else Err
  }

  function PathOf(changed: string): string {
    TrimPrefix(changed, "./")
  }

  function Touched(changedFiles: seq<string>): set<string> {
    set f | f in changedFiles :: PathOf(f)
  }

  predicate Scannable(base: Tree, head: Tree, path: string) {
    SealedPath(path) ==> SectionsAt(base, path).Ok? && SectionsAt(head, path).Ok?
  }

  function Stamp(changes: set<EntryChange>, path: string): set<EntryChange> {
    set c | c in changes :: c.(file := path)
  }

  function ChangesAt(base: Tree, head: Tree, path: string): set<EntryChange>
    requires Scannable(base, head, path)
  {
    if SealedPath(path) then Stamp(DiffSet(SectionsAt(base, path).value, SectionsAt(head, path).value), path) else {}
  }

  predicate ScanOk(paths: set<string>, base: Tree, head: Tree) {
    forall p :: p in paths ==> Scannable(base, head, p)
  }

  function AllChanges(paths: set<string>, base: Tree, head: Tree): set<EntryChange>
    requires ScanOk(paths, base, head)
  {
    set p, c | p in paths && c in ChangesAt(base, head, p) :: c
  }

  function AsSet(changes: seq<EntryChange>): set<EntryChange> {
    set c | c in changes
  }

  /** The file at a path is absent, or a bundle of a per-env version with the maps that version needs; a
      git error, other JSON and any other version are not. */
  predicate Readable(shown: Shown) {
    match shown
    case NoSuchPath => true
    case GitError => false
    case Content(f) =>
      && f.Json? && f.bundle.kind == "SealedBundle" && f.bundle.envs.Some?
      && (f.bundle.version == "v3" || f.bundle.version == "v4" || (f.bundle.version == "v2" && f.bundle.recipients.Some?))
  }

  /** A path the gate looks into: .sealed/, then .app.json at the end, without a leading ./ */
  predicate Gated(changed: string, path: string) {
    && path == (if |changed| >= 2 && changed[..2] == "./" then changed[2..] else changed)
    && |path| >= 9 && path[..8] == ".sealed/" && path[|path| - 9..] == ".app.json"
  }

  lemma StartsWith(s: string, p: string)
    ensures HasPrefix(s, p) <==> |s| >= |p| && s[..|p|] == p
  {
  }

  lemma GatedIsSealed(changed: string, path: string)
    ensures Gated(changed, path) <==> path == PathOf(changed) && SealedPath(path)
  {
    var dot, prefix, suffix := "./", SEALED_PREFIX, BUNDLE_SUFFIX;
    StartsWith(changed, dot);
    StartsWith(path, prefix);
    SealedShape(path, prefix, suffix);
    assert |dot| == 2 && |prefix| == 8 && |suffix| == 9;
    hide HasPrefix, HasSuffix;
  }

  lemma SealedShape(path: string, prefix: string, suffix: string)
    ensures HasSuffix(path, suffix) <==> |path| >= |suffix| && path[|path| - |suffix|..] == suffix
  {
  }

  lemma ReadableIsSections(tree: Tree, path: string)
    ensures Readable(tree(path)) <==> SectionsAt(tree, path).Ok?
    ensures Readable(tree(path)) ==>
              SectionsAt(tree, path).value == if tree(path).Content? then tree(path).file.bundle.envs.value else map[]
  {
  }

  lemma ScanOkReadable(changedFiles: seq<string>, base: Tree, head: Tree)
    ensures ScanOk(Touched(changedFiles), base, head)
       <==> forall f, p :: f in changedFiles && Gated(f, p) ==> Readable(base(p)) && Readable(head(p))
  {
    hide SectionsAt, Readable, Gated, SealedPath, PathOf;
    forall f, p ensures Gated(f, p) <==> p == PathOf(f) && SealedPath(p) { GatedIsSealed(f, p); }
    forall p ensures Readable(base(p)) <==> SectionsAt(base, p).Ok? { ReadableIsSections(base, p); }
    forall p ensures Readable(head(p)) <==> SectionsAt(head, p).Ok? { ReadableIsSections(head, p); }
    if forall f, p :: f in changedFiles && Gated(f, p) ==> Readable(base(p)) && Readable(head(p)) {
      forall p | p in Touched(changedFiles) ensures Scannable(base, head, p) {
        var f :| f in changedFiles && PathOf(f) == p;
        assert SealedPath(p) ==> Gated(f, p);
      }
    }
    if ScanOk(Touched(changedFiles), base, head) {
      forall f, p | f in changedFiles && Gated(f, p) ensures Readable(base(p)) && Readable(head(p)) {
        assert p in Touched(changedFiles);
        assert Scannable(base, head, p);
      }
    }
  }

  method AuthzScan(changedFiles: seq<string>, base: Tree, head: Tree) returns (r: Result<(seq<EntryChange>, bool)>)
    ensures r.Ok? <==> forall f, p :: f in changedFiles && Gated(f, p) ==> Readable(base(p)) && Readable(head(p))
    ensures r.Ok? <==> ScanOk(Touched(changedFiles), base, head)
    ensures r.Ok? ==> AsSet(r.value.0) == AllChanges(Touched(changedFiles), base, head)
    ensures r.Ok? ==> (r.value.1 <==> REPO_YAML in Touched(changedFiles))
  {
    hide Readable, Gated;
    ScanOkReadable(changedFiles, base, head);
    var changes, repoYAMLTouched := [], false;
    for i := 0 to |changedFiles|
      invariant ScanOk(Touched(changedFiles[..i]), base, head)
      invariant AsSet(changes) == AllChanges(Touched(changedFiles[..i]), base, head)
      invariant repoYAMLTouched <==> REPO_YAML in Touched(changedFiles[..i])
    {
      var f := PathOf(changedFiles[i]);
      TouchedSnoc(changedFiles, i);
      ghost var before := Touched(changedFiles[..i]);
      if f == REPO_YAML {
        repoYAMLTouched := true;
        AllChangesGrow(before, base, head, f);
        continue;
      }
      if !SealedPath(f) {
        AllChangesGrow(before, base, head, f);
        continue;
      }
      assert f in Touched(changedFiles);
      var prior, cur := SectionsAt(base, f), SectionsAt(head, f);
      if prior.Err? || cur.Err? {
        return Err;
      }
      AllChangesGrow(before, base, head, f);
      var found := DiffBundleEntries(prior.value, cur.value);
      var stamped := StampAll(found, f);
      assert AsSet(found) == DiffSet(prior.value, cur.value);
      assert AsSet(changes + stamped) == AsSet(changes) + AsSet(stamped);
      changes := changes + stamped;
    }
    assert changedFiles[..|changedFiles|] == changedFiles;
    return Ok((changes, repoYAMLTouched));
  }

  method StampAll(found: seq<EntryChange>, path: string) returns (stamped: seq<EntryChange>)
    ensures AsSet(stamped) == Stamp(AsSet(found), path)
  {
    stamped := [];
    for i := 0 to |found|
      invariant AsSet(stamped) == Stamp(AsSet(found[..i]), path)
    {
      assert found[..i + 1] == found[..i] + [found[i]];
      assert AsSet(found[..i + 1]) == AsSet(found[..i]) + {found[i]};
      assert Stamp(AsSet(found[..i]) + {found[i]}, path) == Stamp(AsSet(found[..i]), path) + {found[i].(file := path)};
      assert AsSet(stamped + [found[i].(file := path)]) == AsSet(stamped) + {found[i].(file := path)};
      stamped := stamped + [found[i].(file := path)];
    }
    assert found[..|found|] == found;
  }

  lemma TouchedSnoc(files: seq<string>, i: nat)
    requires i < |files|
    ensures Touched(files[..i + 1]) == Touched(files[..i]) + {PathOf(files[i])}
  {
    assert files[..i + 1] == files[..i] + [files[i]];
  }

  lemma AllChangesGrow(paths: set<string>, base: Tree, head: Tree, p: string)
    requires ScanOk(paths, base, head) && Scannable(base, head, p)
    ensures ScanOk(paths + {p}, base, head)
    ensures AllChanges(paths + {p}, base, head) == AllChanges(paths, base, head) + ChangesAt(base, head, p)
  {
  }

  // ---------------------------------------------------------------- the policy

  const POLICY_EDIT_LEVEL := 50
  const DEVELOPER_LEVEL := 30

  datatype RepoConfig = RepoConfig(minAccessLevel: int, envCluster: map<string, string>, envMinLevel: map<string, int>)

  function MinAccessLevelOrDefault(rc: RepoConfig): int {
    if rc.minAccessLevel > 0 then rc.minAccessLevel else DEVELOPER_LEVEL
  }

  /** The level an env demands; never zero, whatever the config holds. */
  function MinLevelForEnv(rc: RepoConfig, env: string): (level: int)
    ensures level > 0
    ensures var own := Get(rc.envMinLevel, env);
      if own.Some? && own.value > 0 then level == own.value
      else level == (if rc.minAccessLevel > 0 then rc.minAccessLevel else DEVELOPER_LEVEL)
  {
    if env in rc.envMinLevel && rc.envMinLevel[env] > 0 then rc.envMinLevel[env] else MinAccessLevelOrDefault(rc)
  }

  datatype Violation = Undeclared(env: string) | UnderLevel(env: string, need: int, has: int) | PolicyEdit(has: int)

  function EnvsOf(changes: set<EntryChange>): set<string> {
    set c | c in changes :: c.env
  }

  function EnvViolation(rc: RepoConfig, level: int, env: string): Option<Violation> {
    if env !in rc.envCluster then Some(Undeclared(env))
    else if level < MinLevelForEnv(rc, env) then Some(UnderLevel(env, MinLevelForEnv(rc, env), level))
    else None
  }

  function Violations(envs: set<string>, repoYAMLTouched: bool, level: int, rc: RepoConfig): set<Violation> {
    (set env | env in envs && EnvViolation(rc, level, env).Some? :: EnvViolation(rc, level, env).value)
    + if repoYAMLTouched && level < POLICY_EDIT_LEVEL then {PolicyEdit(level)} else {}
  }

  /** Distinct envs, sorted. */
  method EnvsTouched(changes: seq<EntryChange>) returns (envs: seq<string>)
    ensures envs == Sorted(EnvsOf(AsSet(changes)))
  {
    var found := [];
    var seen: set<string> := {};
    for i := 0 to |changes|
      invariant seen == Elements(found) == EnvsOf(AsSet(changes[..i]))
      invariant forall j, k :: 0 <= j < k < |found| ==> found[j] != found[k]
    {
      assert changes[..i + 1] == changes[..i] + [changes[i]];
      assert AsSet(changes[..i + 1]) == AsSet(changes[..i]) + {changes[i]};
      assert EnvsOf(AsSet(changes[..i]) + {changes[i]}) == EnvsOf(AsSet(changes[..i])) + {changes[i].env};
      var env := changes[i].env;
      if env !in seen {
        assert env !in Elements(found);
        seen := seen + {env};
        assert Elements(found + [env]) == Elements(found) + {env};
        found := found + [env];
      }
    }
    assert changes[..|changes|] == changes;
    envs := SortStrings(found);
    SortedUnique(envs, Sorted(seen));
  }

  function Told(violations: seq<Violation>): set<Violation> {
    set v | v in violations
  }

  lemma ToldSnoc(violations: seq<Violation>, v: Violation)
    ensures Told(violations + [v]) == Told(violations) + {v}
    ensures Told([]) == {}
  {
  }

  lemma VerdictStep(envs: set<string>, env: string, level: int, rc: RepoConfig)
    requires env !in envs
    ensures var v, before := EnvViolation(rc, level, env), Violations(envs, false, level, rc);
      && Violations(envs + {env}, false, level, rc) == before + (if v.Some? then {v.value} else {})
      && (v.Some? ==> v.value !in before)
  {
  }

  lemma VerdictEnds(envs: set<string>, level: int, rc: RepoConfig)
    ensures Violations({}, false, level, rc) == {}
    ensures PolicyEdit(level) !in Violations(envs, false, level, rc)
    ensures level < POLICY_EDIT_LEVEL
        ==> Violations(envs, true, level, rc) == Violations(envs, false, level, rc) + {PolicyEdit(level)}
    ensures level >= POLICY_EDIT_LEVEL ==> Violations(envs, true, level, rc) == Violations(envs, false, level, rc)
  {
  }

  lemma NewElement(envs: seq<string>, i: nat)
    requires i < |envs| && Ascending(envs)
    ensures envs[i] !in Elements(envs[..i])
    ensures Elements(envs[..i + 1]) == Elements(envs[..i]) + {envs[i]}
  {
    AscendingPairs(envs);
    ElementsSnoc(envs, i);
  }

  /** Each violation, by the rule it breaks. */
  lemma ViolationsAre(envs: set<string>, repoYAMLTouched: bool, level: int, rc: RepoConfig, env: string, need: int, has: int)
    ensures var vs := Violations(envs, repoYAMLTouched, level, rc);
      && (Undeclared(env) in vs <==> env in envs && env !in rc.envCluster)
      && (UnderLevel(env, need, has) in vs
          <==> env in envs && env in rc.envCluster && has == level < need == MinLevelForEnv(rc, env))
      && (PolicyEdit(has) in vs <==> repoYAMLTouched && has == level < 50)
  {
  }

  /** AuthzVerdict: each violation once. Their text, by which the list is finally sorted, is not modelled. */
  method AuthzVerdict(changes: seq<EntryChange>, repoYAMLTouched: bool, authorLevel: int, rc: RepoConfig)
    returns (violations: seq<Violation>)
    ensures Told(violations) == Violations(EnvsOf(AsSet(changes)), repoYAMLTouched, authorLevel, rc)
    ensures |violations| == |Told(violations)|
  {
    hide Told, Violations, EnvViolation, Ascending;
    violations := [];
    var envs := EnvsTouched(changes);
    ToldSnoc([], PolicyEdit(0));
    VerdictEnds(Elements(envs), authorLevel, rc);
    assert Elements(envs[..0]) == {};
    for i := 0 to |envs|
      invariant Told(violations) == Violations(Elements(envs[..i]), false, authorLevel, rc)
      invariant |violations| == |Told(violations)|
    {
      NewElement(envs, i);
      VerdictStep(Elements(envs[..i]), envs[i], authorLevel, rc);
      var v := EnvViolation(rc, authorLevel, envs[i]);
      if v.Some? {
        ToldSnoc(violations, v.value);
        violations := violations + [v.value];
      }
    }
    assert envs[..|envs|] == envs;
    if repoYAMLTouched && authorLevel < POLICY_EDIT_LEVEL {
      ToldSnoc(violations, PolicyEdit(authorLevel));
      violations := violations + [PolicyEdit(authorLevel)];
    }
  }

  // ---------------------------------------------------------------- the gate over whole trees

  /** The stored text at (file, env, key) in a tree. */
  function StoredIn(tree: Tree, path: string, env: string, key: string): Option<string> {
    if !SealedPath(path) then None
    else match SectionsAt(tree, path) case Err => None case Ok(envs) => At(envs, (env, key))
  }

  /** The stored text at a position, from the tree itself. */
  lemma StoredInTree(tree: Tree, path: string, env: string, key: string)
    ensures StoredIn(tree, path, env, key).Some?
       <==> && Gated(path, path) && tree(path).Content? && Readable(tree(path))
            && env in tree(path).file.bundle.envs.value && key in tree(path).file.bundle.envs.value[env].entries
    ensures StoredIn(tree, path, env, key).Some? ==>
              StoredIn(tree, path, env, key).value == tree(path).file.bundle.envs.value[env].entries[key]
  {
    hide SectionsAt;
    ReadableIsSections(tree, path);
    assert SealedPath(path) ==> path[0] == '.' && path[1] == 's';
    GatedIsSealed(path, path);
  }

  function Gate(paths: set<string>, base: Tree, head: Tree, level: int, rc: RepoConfig): set<Violation>
    requires ScanOk(paths, base, head)
  {
    Violations(EnvsOf(AllChanges(paths, base, head)), REPO_YAML in paths, level, rc)
  }

  predicate MayWrite(rc: RepoConfig, level: int, env: string) {
    env in rc.envCluster && level >= MinLevelForEnv(rc, env)
  }

  /** Some change is in this env of this file. */
  ghost predicate Hits(changes: set<EntryChange>, path: string, env: string) {
    exists c :: c in changes && c.file == path && c.env == env
  }

  /** Some entry of this env of this file is stored differently at base and at head. */
  ghost predicate Differs(base: Tree, head: Tree, path: string, env: string) {
    exists key :: StoredIn(base, path, env, key) != StoredIn(head, path, env, key)
  }

  lemma SameFileSame(base: Tree, head: Tree, path: string, env: string)
    requires base(path) == head(path)
    ensures !Differs(base, head, path, env)
  {
  }

  lemma NoneIffNoHits(changes: set<EntryChange>)
    ensures changes == {} <==> forall path, env :: !Hits(changes, path, env)
  {
    if c :| c in changes { assert Hits(changes, c.file, c.env); }
  }

  lemma EnvsAreHit(changes: set<EntryChange>)
    ensures forall env :: env in EnvsOf(changes) <==> exists path :: Hits(changes, path, env)
  {
    forall env | env in EnvsOf(changes) ensures exists path :: Hits(changes, path, env) {
      var c :| c in changes && c.env == env;
      assert Hits(changes, c.file, env);
    }
  }

  lemma ChangesAreDifferences(paths: set<string>, base: Tree, head: Tree, path: string, env: string)
    requires ScanOk(paths, base, head)
    ensures Hits(AllChanges(paths, base, head), path, env)
       <==> path in paths && Differs(base, head, path, env)
  {
    if path in paths && SealedPath(path) {
      var before, after := SectionsAt(base, path).value, SectionsAt(head, path).value;
      if key :| StoredIn(base, path, env, key) != StoredIn(head, path, env, key) {
        ReplayGivesCurrent(before, after, (env, key));
        var c :| c in DiffSet(before, after) && c.env == env && c.key == key;
        assert c.(file := path) in ChangesAt(base, head, path);
        assert c.(file := path) in AllChanges(paths, base, head);
      }
    }
    if c :| c in AllChanges(paths, base, head) && c.file == path && c.env == env {
      var p :| p in paths && c in ChangesAt(base, head, p);
      var before, after := SectionsAt(base, p).value, SectionsAt(head, p).value;
      var d :| d in DiffSet(before, after) && d.(file := p) == c;
      ReplayGivesCurrent(before, after, (env, c.key));
      assert StoredIn(base, path, env, c.key) != StoredIn(head, path, env, c.key);
    }
  }

  /** The verdict is exact: with a changed-file list that covers every path the trees differ at, and a
      scan that succeeds, it finds no violation iff each env whose stored ciphertexts differ somewhere is
      declared and one the author may write, and a policy edit comes from an Owner. */
  lemma GateExact(changedFiles: seq<string>, base: Tree, head: Tree, level: int, rc: RepoConfig)
    requires ScanOk(Touched(changedFiles), base, head)
    requires forall p :: base(p) != head(p) ==> p in Touched(changedFiles)
    ensures Gate(Touched(changedFiles), base, head, level, rc) == {}
       <==> && (forall p, env :: Differs(base, head, p, env) ==> MayWrite(rc, level, env))
            && (".seald/repo.yaml" in Touched(changedFiles) ==> level >= 50)
  {
    hide Differs, Hits, AllChanges, ScanOk, Violations;
    var paths := Touched(changedFiles);
    var changes := AllChanges(paths, base, head);
    forall p, env ensures Hits(changes, p, env) <==> Differs(base, head, p, env) {
      ChangesAreDifferences(paths, base, head, p, env);
      if base(p) == head(p) { SameFileSame(base, head, p, env); }
    }
    EnvsAreHit(changes);
    NoViolationsIff(EnvsOf(changes), REPO_YAML in paths, level, rc);
  }

  /** What the scan reports of a file is the diff of its sections at base and at head, under its path. */
  lemma ScannedKinds(paths: set<string>, base: Tree, head: Tree, path: string, env: string, key: string, kind: ChangeKind)
    requires ScanOk(paths, base, head)
    ensures EntryChange(path, env, key, kind) in AllChanges(paths, base, head)
       <==> && path in paths && SealedPath(path)
            && EntryChange("", env, key, kind) in DiffSet(SectionsAt(base, path).value, SectionsAt(head, path).value)
  {
    var c := EntryChange(path, env, key, kind);
    if c in AllChanges(paths, base, head) {
      var p :| p in paths && c in ChangesAt(base, head, p);
      var d :| d in DiffSet(SectionsAt(base, p).value, SectionsAt(head, p).value) && d.(file := p) == c;
    }
    if path in paths && SealedPath(path) {
      var d := EntryChange("", env, key, kind);
      if d in DiffSet(SectionsAt(base, path).value, SectionsAt(head, path).value) {
        assert d.(file := path) in ChangesAt(base, head, path);
      }
    }
  }

  lemma NoViolationsIff(envs: set<string>, repoYAMLTouched: bool, level: int, rc: RepoConfig)
    ensures Violations(envs, repoYAMLTouched, level, rc) == {}
       <==> (forall env :: env in envs ==> MayWrite(rc, level, env)) && (repoYAMLTouched ==> level >= POLICY_EDIT_LEVEL)
  {
    forall env | env in envs
      ensures MayWrite(rc, level, env) <==> EnvViolation(rc, level, env).None?
      ensures EnvViolation(rc, level, env).Some? ==> EnvViolation(rc, level, env).value in Violations(envs, repoYAMLTouched, level, rc)
    {
    }
    if repoYAMLTouched && level < POLICY_EDIT_LEVEL {
      assert PolicyEdit(level) in Violations(envs, repoYAMLTouched, level, rc);
    }
  }

  /** A higher level never loses, and only which paths are listed matters, not in what order or how often. */
  lemma GateMonotone(files1: seq<string>, files2: seq<string>, base: Tree, head: Tree, low: int, high: int, rc: RepoConfig)
    requires Touched(files1) == Touched(files2) && low <= high
    requires ScanOk(Touched(files1), base, head)
    ensures ScanOk(Touched(files2), base, head)
    ensures Gate(Touched(files1), base, head, low, rc) == {} ==> Gate(Touched(files2), base, head, high, rc) == {}
  {
    var envs := EnvsOf(AllChanges(Touched(files1), base, head));
    NoViolationsIff(envs, REPO_YAML in Touched(files1), low, rc);
    NoViolationsIff(envs, REPO_YAML in Touched(files1), high, rc);
  }
}
