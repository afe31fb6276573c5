/** internal/broker/registry.go: the public project snapshot, static config overlaid with registered
    recipients. A Go map is a reference, so the env maps of the shared registry are objects here. */
module Snapshot {
  import opened Wrappers
  import opened Recipients

  datatype ProjectEnv = ProjectEnv(cluster: string, namespace: string, minLevel: int, recipient: string)

  const ZERO_ENV := ProjectEnv("", "", 0, "")

  class EnvMap {
    var m: map<string, ProjectEnv>

    constructor (m: map<string, ProjectEnv>)
      ensures this.m == m
    {
      this.m := m;
    }
  }

  /** A nil map is a null reference. */
  datatype ProjectEntry = ProjectEntry(projectID: int, envs: EnvMap?)

  type Projects = map<string, ProjectEntry>

  function EnvsIn(p: ProjectEntry): map<string, ProjectEnv>
    reads p.envs
  {
    if p.envs == null then map[] else p.envs.m
  }

  function StaticEntry(projects: Projects, pub: string): ProjectEntry {
    if pub in projects then projects[pub] else ProjectEntry(0, null)
  }

  // ---------------------------------------------------------------- the overlay

  /** A registered recipient always wins; cluster, namespace and level only when set. */
  function OverlayEnv(cur: ProjectEnv, re: RecipientEntry): ProjectEnv {
    ProjectEnv(if re.cluster != "" then re.cluster else cur.cluster,
               if re.namespace != "" then re.namespace else cur.namespace,
               if re.minLevel != 0 then re.minLevel else cur.minLevel,
               re.recipient)
  }

  function OverlayEnvs(config: map<string, ProjectEnv>, dyn: map<string, RecipientEntry>): map<string, ProjectEnv> {
    map env | env in config.Keys + dyn.Keys ::
      if env in dyn then OverlayEnv(if env in config then config[env] else ZERO_ENV, dyn[env]) else config[env]
  }

  function DynamicProjects(m: Soft): set<string> {
    set k | k in m :: k.project
  }

  /** One project's envs as served. */
  function Served(projects: Projects, m: Soft, pub: string): map<string, ProjectEnv>
    reads StaticEntry(projects, pub).envs
  {
    OverlayEnvs(EnvsIn(StaticEntry(projects, pub)), ForProjectOf(m, pub))
  }

  method UpdateEnv(before: ProjectEnv, re: RecipientEntry) returns (cur: ProjectEnv)
    ensures cur == OverlayEnv(before, re)
  {
    cur := before.(recipient := re.recipient);
    if re.cluster != "" { cur := cur.(cluster := re.cluster); }
    if re.namespace != "" { cur := cur.(namespace := re.namespace); }
    if re.minLevel != 0 { cur := cur.(minLevel := re.minLevel); }
  }

  /** The loop body for one project: a fresh map, never the shared one, takes the overlay. */
  method OverlayProject(entry: ProjectEntry, dyn: map<string, RecipientEntry>) returns (envs: EnvMap)
    ensures fresh(envs)
    ensures envs.m == OverlayEnvs(EnvsIn(entry), dyn)
  {
    hide OverlayEnv;
    if entry.envs == null {
      envs := new EnvMap(map[]);
    } else {
      envs := new EnvMap(entry.envs.m);
    }
    var config := envs.m;
    var left := dyn.Keys;
    while left != {}
      invariant left <= dyn.Keys && envs.m.Keys == config.Keys + (dyn.Keys - left)
      invariant forall env :: env in envs.m ==>
        envs.m[env] == if env in dyn && env !in left
                       then OverlayEnv(if env in config then config[env] else ZERO_ENV, dyn[env]) else config[env]
      decreases left
    {
      var env :| env in left;
      var cur := UpdateEnv(if env in envs.m then envs.m[env] else ZERO_ENV, dyn[env]);
      envs.m := envs.m[env := cur];
      left := left - {env};
    }
  }

  /** HandleRegistrySnapshot. It modifies nothing that existed before the call, the shared registry and
      its nested maps included, and in whatever order projects and envs are visited it serves the overlay. */
  method HandleRegistrySnapshot(projects: Projects, rr: RecipientRegistry?) returns (snap: Projects)
    ensures rr == null ==> snap == projects
    ensures rr != null ==> snap.Keys == projects.Keys + DynamicProjects(rr.m)
    ensures rr != null ==> forall pub :: pub in snap ==>
              && snap[pub].projectID == (if pub in projects then projects[pub].projectID else 0)
              && snap[pub].envs != null && fresh(snap[pub].envs)
              && EnvsIn(snap[pub]) == Served(projects, rr.m, pub)
  {
    hide OverlayEnvs, ForProjectOf;
    snap := projects;
    if rr == null {
      return;
    }
    var all := projects.Keys + DynamicProjects(rr.m);
    var left := all;
    while left != {}
      invariant left <= all && snap.Keys == projects.Keys + (all - left)
      invariant forall pub :: pub in projects && pub in left ==> snap[pub] == projects[pub]
      invariant forall pub :: pub in all && pub !in left ==>
        && snap[pub].projectID == StaticEntry(projects, pub).projectID
        && snap[pub].envs != null && fresh(snap[pub].envs)
        && EnvsIn(snap[pub]) == Served(projects, rr.m, pub)
      decreases left
    {
      var pub :| pub in left;
      var dyn := rr.ForProject(pub);
      var envs := OverlayProject(StaticEntry(snap, pub), dyn);
      snap := snap[pub := ProjectEntry(StaticEntry(snap, pub).projectID, envs)];
      left := left - {pub};
    }
  }

  /** Static config is served whole: each of its envs is there, as configured unless registered; and nothing
      is there that is neither configured nor registered. */
  lemma ServedIs(projects: Projects, m: Soft, pub: string, env: string)
    ensures var served := Served(projects, m, pub);
      var configured := pub in projects && projects[pub].envs != null && env in projects[pub].envs.m;
      && (env in served <==> configured || RegKey(pub, env) in m)
      && (configured && RegKey(pub, env) !in m ==> served[env] == projects[pub].envs.m[env])
      && (RegKey(pub, env) in m ==> served[env].recipient == m[RegKey(pub, env)].recipient)
  {
    OverlayMeaning(EnvsIn(StaticEntry(projects, pub)), m, pub, env);
  }

  // ---------------------------------------------------------------- what the overlay means

  /** The registered setting where there is one, else the configured one, else the zero value. */
  predicate Settles<T(==)>(served: T, isSet: bool, registered: T, configured: Option<T>, zero: T) {
    served == if isSet then registered else if configured.Some? then configured.value else zero
  }

  /** Field by field: a seal against the snapshot targets the registered recipient of every registered env, and the
      configured one of every other; no env is lost; the delivery settings a registration leaves unset
      stay as configured. */
  lemma OverlayMeaning(config: map<string, ProjectEnv>, m: Soft, pub: string, env: string)
    ensures var served := OverlayEnvs(config, ForProjectOf(m, pub));
      && (env in served <==> env in config || RegKey(pub, env) in m)
      && (RegKey(pub, env) in m ==> served[env].recipient == m[RegKey(pub, env)].recipient)
      && (RegKey(pub, env) !in m && env in config ==> served[env] == config[env])
      && (RegKey(pub, env) in m ==>
            var re, conf, cur := m[RegKey(pub, env)], Get(config, env), served[env];
            && Settles(cur.cluster, re.cluster != "", re.cluster, if conf.Some? then Some(conf.value.cluster) else None, "")
            && Settles(cur.namespace, re.namespace != "", re.namespace, if conf.Some? then Some(conf.value.namespace) else None, "")
            && Settles(cur.minLevel, re.minLevel != 0, re.minLevel, if conf.Some? then Some(conf.value.minLevel) else None, 0))
  {
    assert env in ForProjectOf(m, pub) <==> RegKey(pub, env) in m;
  }

  /** Registering again what the snapshot already shows changes nothing: overlaying is idempotent. */
  lemma OverlayIdempotent(config: map<string, ProjectEnv>, dyn: map<string, RecipientEntry>)
    ensures OverlayEnvs(OverlayEnvs(config, dyn), dyn) == OverlayEnvs(config, dyn)
  {
  }

  /** A registration for one env of one project leaves every other served env as it was. */
  lemma RegistrationIsLocal(config: map<string, ProjectEnv>, m: Soft, k: RegKey, e: RecipientEntry, pub: string, env: string)
    requires RegKey(pub, env) != k
    ensures var before, after := OverlayEnvs(config, ForProjectOf(m, pub)), OverlayEnvs(config, ForProjectOf(m[k := e], pub));
      (env in before <==> env in after) && (env in before ==> before[env] == after[env])
  {
    var d, d2 := ForProjectOf(m, pub), ForProjectOf(m[k := e], pub);
    assert env in d <==> RegKey(pub, env) in m;
    assert env in d2 <==> RegKey(pub, env) in m[k := e];
  }
}
