/** internal/broker/identity_index.go and identity_reconcile.go: building the fingerprint index from
    GitLab, swapping it in, and throttling on-miss rebuilds. */
module Identity {
  import opened Wrappers

  datatype IndexEntry = IndexEntry(userID: int, pubKey: string)

  type Index = map<string, IndexEntry>

  /** A project's member ids; not visible to the service token (permanent); or a transient failure. */
  datatype Members = Listed(uids: seq<int>) | NotVisible | MembersFailed

  /** GitLab's answers during one build, and the fingerprint of a parseable key line. */
  datatype GitLab = GitLab(members: int -> Members, keys: int -> Option<seq<string>>, fingerprint: string -> Option<string>)

  // ---------------------------------------------------------------- what an index is

  function Ids(ids: seq<int>): set<int> {
    set id | id in ids
  }

  /** The project is visible and lists the user. */
  predicate HasMember(gl: GitLab, pid: int, uid: int) {
    gl.members(pid).Listed? && uid in gl.members(pid).uids
  }

  predicate Fails(gl: GitLab, pid: int) {
    gl.members(pid).MembersFailed?
  }

  /** Members of the visible projects. */
  ghost predicate IsMember(gl: GitLab, pids: set<int>, uid: int) {
    exists pid :: pid in pids && HasMember(gl, pid, uid)
  }

  ghost predicate AreMembers(gl: GitLab, pids: set<int>, users: set<int>) {
    forall uid :: uid in users <==> IsMember(gl, pids, uid)
  }

  /** The build meets no failure it must abort on. */
  ghost predicate Buildable(gl: GitLab, pids: set<int>) {
    && (forall pid :: pid in pids ==> !Fails(gl, pid))
    && (forall uid :: IsMember(gl, pids, uid) ==> gl.keys(uid).Some?)
  }

  /** The user shows this key line on their profile, and it parses to this fingerprint. */
  predicate Shows(gl: GitLab, uid: int, line: string, fp: string) {
    gl.keys(uid).Some? && line in gl.keys(uid).value && gl.fingerprint(line) == Some(fp)
  }

  ghost predicate OwnedBy(gl: GitLab, users: set<int>, fp: string, e: IndexEntry) {
    e.userID in users && Shows(gl, e.userID, e.pubKey, fp)
  }

  /** Exactly the fingerprints of the users' parseable keys, each with an owner. */
  ghost predicate IndexOf(gl: GitLab, users: set<int>, m: Index) {
    && (forall fp :: fp in m ==> OwnedBy(gl, users, fp, m[fp]))
    && (forall uid, line, fp :: uid in users && Shows(gl, uid, line, fp) ==> fp in m)
  }

  /** The key lines of one user, those that parse, added in order. */
  method AddKeys(gl: GitLab, uid: int, lines: seq<string>, before: Index, users: set<int>) returns (out: Index)
    requires gl.keys(uid) == Some(lines) && uid !in users && IndexOf(gl, users, before)
    ensures IndexOf(gl, users + {uid}, out)
  {
    out := before;
    for i := 0 to |lines|
      invariant forall fp :: fp in out ==> OwnedBy(gl, users + {uid}, fp, out[fp])
      invariant forall fp :: fp in before ==> fp in out
      invariant forall j, fp :: 0 <= j < i && gl.fingerprint(lines[j]) == Some(fp) ==> fp in out
    {
      var fp := gl.fingerprint(lines[i]);
      if fp.None? {
        continue;
      }
      assert Shows(gl, uid, lines[i], fp.value);
      out := out[fp.value := IndexEntry(uid, lines[i])];
    }
    forall u, line, fp | u in users + {uid} && Shows(gl, u, line, fp) ensures fp in out {
      if u == uid {
        var j :| 0 <= j < |lines| && lines[j] == line;
      }
    }
  }

  /** buildIndex. It fails iff GitLab does where it matters; otherwise the result is an index of exactly
      the visible members, each of whom had their keys fetched once. */
  method BuildIndex(pids: seq<int>, gl: GitLab) returns (r: Result<Index>, fetched: seq<int>)
    ensures r.Ok? <==> Buildable(gl, Ids(pids))
    ensures r.Ok? ==> AreMembers(gl, Ids(pids), Ids(fetched)) && IndexOf(gl, Ids(fetched), r.value)
    ensures forall i, j :: 0 <= i < j < |fetched| ==> fetched[i] != fetched[j]
  {
    var out: Index := map[];
    var seenUser: set<int> := {};
    fetched := [];
    for i := 0 to |pids|
      invariant forall j :: 0 <= j < i ==> !Fails(gl, pids[j])
      invariant seenUser == Ids(fetched)
      invariant forall uid :: uid in fetched <==> IsMember(gl, Ids(pids[..i]), uid)
      invariant forall uid :: uid in fetched ==> gl.keys(uid).Some?
      invariant forall j, k :: 0 <= j < k < |fetched| ==> fetched[j] != fetched[k]
      invariant IndexOf(gl, seenUser, out)
    {
      var uids := gl.members(pids[i]);
      assert pids[..i + 1] == pids[..i] + [pids[i]];
      if uids.NotVisible? {
        MembersGrow(gl, pids, i);
        continue;
      }
      if uids.MembersFailed? {
        assert pids[i] in Ids(pids) && Fails(gl, pids[i]);
        return Err, fetched;
      }
      for n := 0 to |uids.uids|
        invariant seenUser == Ids(fetched)
        invariant forall uid :: uid in fetched <==> IsMember(gl, Ids(pids[..i]), uid) || uid in uids.uids[..n]
        invariant forall uid :: uid in fetched ==> gl.keys(uid).Some?
        invariant forall j, k :: 0 <= j < k < |fetched| ==> fetched[j] != fetched[k]
        invariant IndexOf(gl, seenUser, out)
      {
        var uid := uids.uids[n];
        if uid in seenUser {
          continue;
        }
        seenUser := seenUser + {uid};
        assert Ids(fetched + [uid]) == Ids(fetched) + {uid};
        fetched := fetched + [uid];
        var lines := gl.keys(uid);
        if lines.None? {
          assert pids[i] in Ids(pids) && HasMember(gl, pids[i], uid);
          return Err, fetched;
        }
        out := AddKeys(gl, uid, lines.value, out, seenUser - {uid});
        assert seenUser - {uid} + {uid} == seenUser;
      }
      assert uids.uids[..|uids.uids|] == uids.uids;
      assert forall uid :: uid in uids.uids <==> HasMember(gl, pids[i], uid);
      MembersGrow(gl, pids, i);
    }
    assert pids[..|pids|] == pids;
    return Ok(out), fetched;
  }

  lemma MembersGrow(gl: GitLab, pids: seq<int>, i: nat)
    requires i < |pids|
    ensures forall uid :: IsMember(gl, Ids(pids[..i + 1]), uid)
              <==> IsMember(gl, Ids(pids[..i]), uid) || HasMember(gl, pids[i], uid)
  {
    assert pids[..i + 1] == pids[..i] + [pids[i]];
    assert Ids(pids[..i + 1]) == Ids(pids[..i]) + {pids[i]};
    forall uid | IsMember(gl, Ids(pids[..i]), uid) || HasMember(gl, pids[i], uid)
      ensures IsMember(gl, Ids(pids[..i + 1]), uid)
    {
      var pid :| (pid in Ids(pids[..i]) || pid == pids[i]) && HasMember(gl, pid, uid);
      assert pid in Ids(pids[..i + 1]);
    }
  }

  /** No fingerprint belongs to two users or two lines. */
  ghost predicate Unambiguous(gl: GitLab, users: set<int>) {
    forall u1, l1, u2, l2, fp ::
      u1 in users && u2 in users && Shows(gl, u1, l1, fp) && Shows(gl, u2, l2, fp) ==> u1 == u2 && l1 == l2
  }

  /** Then there is only one index, so the order of projects, members and keys does not matter. */
  lemma IndexUnique(gl: GitLab, users: set<int>, m1: Index, m2: Index)
    requires IndexOf(gl, users, m1) && IndexOf(gl, users, m2) && Unambiguous(gl, users)
    ensures m1 == m2
  {
    forall fp ensures fp in m1 <==> fp in m2 {
      if fp in m1 { assert Shows(gl, m1[fp].userID, m1[fp].pubKey, fp); }
      if fp in m2 { assert Shows(gl, m2[fp].userID, m2[fp].pubKey, fp); }
    }
    forall fp | fp in m1 ensures m1[fp] == m2[fp] {
      assert Shows(gl, m1[fp].userID, m1[fp].pubKey, fp) && Shows(gl, m2[fp].userID, m2[fp].pubKey, fp);
    }
  }

  /** Two builds over the same projects, listed in any order and any number of times, come to the same
      index: what BuildIndex ensures of each leaves only one. */
  lemma BuildsAgree(gl: GitLab, pids1: seq<int>, pids2: seq<int>, users1: set<int>, users2: set<int>, m1: Index, m2: Index)
    requires Ids(pids1) == Ids(pids2)
    requires AreMembers(gl, Ids(pids1), users1) && IndexOf(gl, users1, m1)
    requires AreMembers(gl, Ids(pids2), users2) && IndexOf(gl, users2, m2)
    requires Unambiguous(gl, users1)
    ensures m1 == m2
  {
    assert users1 == users2 by {
      forall uid ensures uid in users1 <==> uid in users2 {
        assert uid in users1 <==> IsMember(gl, Ids(pids1), uid);
        assert uid in users2 <==> IsMember(gl, Ids(pids2), uid);
      }
    }
    IndexUnique(gl, users1, m1, m2);
  }

  /** In GitLab's own answers: an index of the members of the listed projects has a fingerprint iff some
      project that is visible lists a user whose profile has a key line of that fingerprint; and the entry
      is such a user with such a line. */
  lemma IndexIs(gl: GitLab, pids: seq<int>, users: set<int>, m: Index, fp: string)
    requires AreMembers(gl, Ids(pids), users) && IndexOf(gl, users, m)
    ensures fp in m <==> exists pid, uid, line ::
              && pid in pids && gl.members(pid).Listed? && uid in gl.members(pid).uids
              && gl.keys(uid).Some? && line in gl.keys(uid).value && gl.fingerprint(line) == Some(fp)
    ensures fp in m ==> && gl.keys(m[fp].userID).Some? && m[fp].pubKey in gl.keys(m[fp].userID).value
                        && gl.fingerprint(m[fp].pubKey) == Some(fp)
                        && exists pid :: pid in pids && gl.members(pid).Listed? && m[fp].userID in gl.members(pid).uids
  {
    if fp in m {
      assert OwnedBy(gl, users, fp, m[fp]);
      assert IsMember(gl, Ids(pids), m[fp].userID);
      var pid :| pid in Ids(pids) && HasMember(gl, pid, m[fp].userID);
      assert pid in pids && gl.members(pid).Listed? && m[fp].userID in gl.members(pid).uids;
    }
    if pid, uid, line :| && pid in pids && gl.members(pid).Listed? && uid in gl.members(pid).uids
                         && gl.keys(uid).Some? && line in gl.keys(uid).value && gl.fingerprint(line) == Some(fp)
    {
      assert pid in Ids(pids) && HasMember(gl, pid, uid);
      assert IsMember(gl, Ids(pids), uid);
      assert uid in users && Shows(gl, uid, line, fp);
    }
  }

  /** A build fails iff a project's members cannot be fetched for now, or a listed user's keys cannot be; a
      project that is not visible is no failure. */
  lemma BuildableIs(gl: GitLab, pids: seq<int>)
    ensures Buildable(gl, Ids(pids))
       <==> && (forall pid :: pid in pids ==> !gl.members(pid).MembersFailed?)
            && forall pid, uid :: pid in pids && gl.members(pid).Listed? && uid in gl.members(pid).uids ==> gl.keys(uid).Some?
  {
    if Buildable(gl, Ids(pids)) {
      forall pid, uid | pid in pids && gl.members(pid).Listed? && uid in gl.members(pid).uids ensures gl.keys(uid).Some? {
        assert pid in Ids(pids) && HasMember(gl, pid, uid);
        assert IsMember(gl, Ids(pids), uid);
      }
      forall pid | pid in pids ensures !gl.members(pid).MembersFailed? { assert pid in Ids(pids) && !Fails(gl, pid); }
    }
  }

  // ---------------------------------------------------------------- last known good

  class IdentityIndex {
    var m: Index

    constructor ()
      ensures m == map[]
    {
      m := map[];
    }

    method Swap(next: Index) returns (applied: bool)
      modifies this
      ensures applied <==> next != map[]
      ensures m == if applied then next else old(m)
    {
      if next == map[] {
        return false;
      }
      m := next;
      return true;
    }
  }

  /** What one reconcile attempt comes to: no build (disabled, nothing covered, or an error), or a build. */
  type Attempt = Option<Index>

  function AfterAttempt(m: Index, a: Attempt): Index {
    if a.Some? && a.value != map[] then a.value else m
  }

  /** ReconcileIdentityIndex: a failed or empty build keeps the index it finds. */
  method Reconcile(ix: IdentityIndex, enabled: bool, pids: seq<int>, gl: GitLab) returns (swapped: bool, ghost attempt: Attempt)
    modifies ix
    ensures ix.m == AfterAttempt(old(ix.m), attempt)
    ensures swapped <==> attempt.Some? && attempt.value != map[]
    ensures attempt.Some? <==> enabled && pids != [] && Buildable(gl, Ids(pids))
    ensures attempt.Some? ==> exists users :: IndexOf(gl, users, attempt.value) && AreMembers(gl, Ids(pids), users)
  {
    attempt := None;
    if !enabled || pids == [] {
      return false, None;
    }
    var m, fetched := BuildIndex(pids, gl);
    if m.Err? {
      return false, None;
    }
    swapped := ix.Swap(m.value);
    attempt := Some(m.value);
    ghost var users := Ids(fetched);
    assert IndexOf(gl, users, m.value) && AreMembers(gl, Ids(pids), users);
  }

  function RunReconciles(attempts: seq<Attempt>): Index {
    if attempts == [] then map[] else AfterAttempt(RunReconciles(attempts[..|attempts| - 1]), attempts[|attempts| - 1])
  }

  /** The attempt at position i built a non-empty index, and none after it did. */
  predicate LatestBuild(attempts: seq<Attempt>, i: nat) {
    && i < |attempts| && attempts[i].Some? && attempts[i].value != map[]
    && forall j :: i < j < |attempts| ==> attempts[j].None? || attempts[j].value == map[]
  }

  /** Over any run of reconciles the index is the latest non-empty build: a blip never blanks it. */
  lemma {:induction false} LatestAccepted(attempts: seq<Attempt>)
    ensures forall i: nat :: LatestBuild(attempts, i) ==> RunReconciles(attempts) == attempts[i].value
    ensures RunReconciles(attempts) == map[]
       <==> forall i :: 0 <= i < |attempts| ==> attempts[i].None? || attempts[i].value == map[]
  {
    if attempts != [] {
      var n := |attempts| - 1;
      LatestAccepted(attempts[..n]);
      assert forall j :: 0 <= j < n ==> attempts[..n][j] == attempts[j];
      forall i: nat | LatestBuild(attempts, i) ensures RunReconciles(attempts) == attempts[i].value {
        if i < n { assert LatestBuild(attempts[..n], i); }
      }
    }
  }

  // ---------------------------------------------------------------- the on-miss throttle

  /** Nanoseconds. */
  const ON_MISS_MIN_INTERVAL := 10_000_000_000

  /** onMissRefresh rebuilds unless the last rebuild it made was less than the interval ago. */
  predicate Refreshes(lastMiss: Option<int>, now: int) {
    lastMiss.None? || now - lastMiss.value >= ON_MISS_MIN_INTERVAL
  }

  /** When the broker last rebuilt its index on a miss. */
  class MissThrottle {
    var lastMiss: Option<int>

    constructor ()
      ensures lastMiss == None
    {
      lastMiss := None;
    }

    /** onMissRefresh: a throttled miss touches nothing. */
    method OnMissRefresh(ix: IdentityIndex, now: int, enabled: bool, pids: seq<int>, gl: GitLab) returns (ghost attempt: Attempt)
      modifies this, ix
      ensures lastMiss == if enabled && Refreshes(old(lastMiss), now) then Some(now) else old(lastMiss)
      ensures lastMiss != old(lastMiss) ==> enabled && (old(lastMiss).None? || now - old(lastMiss).value >= 10_000_000_000)
      ensures ix.m == AfterAttempt(old(ix.m), attempt)
      ensures attempt.Some? <==> && enabled && (old(lastMiss).None? || now - old(lastMiss).value >= 10_000_000_000)
                                 && pids != [] && Buildable(gl, Ids(pids))
    {
      attempt := None;
      if !enabled {
        return;
      }
      if lastMiss.Some? && now - lastMiss.value < ON_MISS_MIN_INTERVAL {
        return;
      }
      lastMiss := Some(now);
      var _, a := Reconcile(ix, enabled, pids, gl);
      attempt := a;
    }
  }

  function LastMiss(times: seq<int>): Option<int> {
    if times == [] then None
    else
      var before := LastMiss(times[..|times| - 1]);
      if Refreshes(before, times[|times| - 1]) then Some(times[|times| - 1]) else before
  }

  /** The miss at position i triggered a rebuild. */
  predicate Refreshed(times: seq<int>, i: nat)
    requires i < |times|
  {
    Refreshes(LastMiss(times[..i]), times[i])
  }

  lemma {:induction false} LastMissAfter(times: seq<int>, i: nat)
    requires i < |times| && Refreshed(times, i)
    ensures LastMiss(times).Some? && LastMiss(times).value >= times[i]
  {
    var n := |times| - 1;
    if i < n {
      assert times[..n][..i] == times[..i];
      LastMissAfter(times[..n], i);
    }
  }

  /** However many unknown fingerprints arrive and whatever the clock reads, two misses that each trigger
      a rebuild are at least the interval apart. */
  lemma RefreshesApart(times: seq<int>, i: nat, j: nat)
    requires i < j < |times| && Refreshed(times, i) && Refreshed(times, j)
    ensures times[j] - times[i] >= ON_MISS_MIN_INTERVAL
  {
    assert times[..j][..i] == times[..i];
    LastMissAfter(times[..j], i);
  }

  /** The last miss that triggered a rebuild is the one at position i. */
  predicate LastAt(times: seq<int>, i: nat) {
    i < |times| && Refreshed(times, i) && forall j :: i < j < |times| ==> !Refreshed(times, j)
  }

  lemma RefreshedFront(times: seq<int>, i: nat)
    requires i + 1 < |times|
    ensures Refreshed(times, i) <==> Refreshed(times[..|times| - 1], i)
  {
    assert times[..|times| - 1][..i] == times[..i];
  }

  lemma {:induction false} LastMissIs(times: seq<int>)
    ensures LastMiss(times).None? ==> forall i :: 0 <= i < |times| ==> !Refreshed(times, i)
    ensures LastMiss(times).Some? ==> exists i: nat :: LastAt(times, i) && LastMiss(times).value == times[i]
  {
    hide Refreshed;
    if times != [] {
      var n := |times| - 1;
      LastMissIs(times[..n]);
      forall i | 0 <= i < n ensures Refreshed(times, i) <==> Refreshed(times[..n], i) { RefreshedFront(times, i); }
      LastMissStep(times);
      if Refreshed(times, n) {
        assert LastAt(times, n);
      } else if LastMiss(times[..n]).Some? {
        var i: nat :| LastAt(times[..n], i) && LastMiss(times[..n]).value == times[..n][i];
        assert LastAt(times, i);
      }
    }
  }

  lemma LastMissStep(times: seq<int>)
    requires times != []
    ensures var n := |times| - 1; LastMiss(times) == if Refreshed(times, n) then Some(times[n]) else LastMiss(times[..n])
  {
  }

  /** Exactly which misses trigger a rebuild, when the clock does not go back: the first, and each that comes
      at least ten seconds after every earlier one that did. */
  lemma RefreshedExact(times: seq<int>, i: nat)
    requires i < |times| && forall j, k :: 0 <= j < k < |times| ==> times[j] <= times[k]
    ensures Refreshed(times, i) <==> forall j :: 0 <= j < i && Refreshed(times, j) ==> times[i] - times[j] >= 10_000_000_000
  {
    LastMissIs(times[..i]);
    forall j | 0 <= j < i ensures Refreshed(times, j) <==> Refreshed(times[..i], j) {
      assert times[..i][..j] == times[..j];
    }
    if Refreshed(times, i) {
      forall j | 0 <= j < i && Refreshed(times, j) ensures times[i] - times[j] >= 10_000_000_000 { RefreshesApart(times, j, i); }
    }
  }
}
