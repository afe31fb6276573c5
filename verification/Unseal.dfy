/** internal/broker/broker.go and reload.go: the unseal decision over a keystore that is swapped while
    requests are in flight. */
module Unseal {
  import opened Wrappers
  import opened Text
  import opened Envelope
  import Crypto

  type Age = Crypto.Age
  type Ciphertext = Crypto.Ciphertext
  type Project = Crypto.Project

  // ---------------------------------------------------------------- the keystore

  /** Age identities by project id. */
  type Keys = map<int64, string>

  /** Whether a swap would be accepted: the store never shrinks to nothing. */
  predicate Acceptable(next: Option<Keys>) {
    next.Some? && next.value != map[]
  }

  function AfterSwap(keys: Option<Keys>, next: Option<Keys>): Option<Keys> {
    if Acceptable(next) then next else keys
  }

  function AfterSwaps(keys: Option<Keys>, swaps: seq<Option<Keys>>): Option<Keys> {
    if swaps == [] then keys else AfterSwap(AfterSwaps(keys, swaps[..|swaps| - 1]), swaps[|swaps| - 1])
  }

  function KeyOf(keys: Option<Keys>, projectID: int64): Option<string> {
    if keys.Some? && projectID in keys.value && keys.value[projectID] != "" then Some(keys.value[projectID]) else None
  }

  /** The identity under this id is the one of this public key. */
  predicate Matches(age: Age, keys: Option<Keys>, pubkey: string, projectID: int64) {
    keys.Some? && projectID in keys.value && age.recipientOf(keys.value[projectID]) == Some(pubkey)
  }

  /** An answer keyForPubkey may give: some matching pair, or none when there is none. */
  ghost predicate PubkeyAnswer(age: Age, keys: Option<Keys>, pubkey: string, r: Option<(string, int64)>) {
    match r
    case None => !age.validRecipient(pubkey) || forall pid :: !Matches(age, keys, pubkey, pid)
    case Some((identity, pid)) =>
      age.validRecipient(pubkey) && Matches(age, keys, pubkey, pid) && keys.value[pid] == identity
  }

  class KeyHolder {
    var keys: Option<Keys>
    var skipped: seq<string>

    constructor (keys: Option<Keys>)
      ensures this.keys == keys && skipped == []
    {
      this.keys, skipped := keys, [];
    }

    method SwapKeys(next: Option<Keys>, skips: seq<string>) returns (applied: bool)
      modifies this
      ensures applied <==> next.Some? && next.value != map[]
      ensures keys == (if applied then next else old(keys)) == AfterSwap(old(keys), next)
      ensures skipped == if applied then skips else old(skipped)
    {
      if next.None? || next.value == map[] {
        return false;
      }
      keys, skipped := next, skips;
      return true;
    }

    /** ReloadOnce: a failed load (None) changes nothing. */
    method ReloadOnce(load: Option<(Keys, seq<string>)>) returns (swapped: bool)
      modifies this
      ensures keys == AfterSwap(old(keys), if load.Some? then Some(load.value.0) else None)
      ensures swapped <==> load.Some? && load.value.0 != map[]
    {
      if load.None? {
        return false;
      }
      swapped := SwapKeys(Some(load.value.0), load.value.1);
    }

    method KeyFor(projectID: int64) returns (r: Option<string>)
      ensures r == KeyOf(keys, projectID)
      ensures r.Some? <==> keys.Some? && projectID in keys.value && keys.value[projectID] != ""
      ensures r.Some? ==> r.value == keys.value[projectID]
    {
      if keys.None? || projectID !in keys.value || keys.value[projectID] == "" {
        return None;
      }
      return Some(keys.value[projectID]);
    }

    /** Scans the identities in whatever order the map yields them. */
    method KeyForPubkey(age: Age, pubkey: string) returns (r: Option<(string, int64)>)
      ensures PubkeyAnswer(age, keys, pubkey, r)
      ensures r.None? <==> !age.validRecipient(pubkey) || keys.None?
                           || forall pid :: pid in keys.value ==> age.recipientOf(keys.value[pid]) != Some(pubkey)
      ensures r.Some? ==> && keys.Some? && r.value.1 in keys.value && keys.value[r.value.1] == r.value.0
                          && age.recipientOf(r.value.0) == Some(pubkey)
    {
      if !age.validRecipient(pubkey) || keys.None? {
        return None;
      }
      var left := keys.value.Keys;
      while left != {}
        invariant left <= keys.value.Keys
        invariant forall pid :: pid in keys.value && pid !in left ==> !Matches(age, keys, pubkey, pid)
        decreases left
      {
        var pid :| pid in left;
        if age.recipientOf(keys.value[pid]) == Some(pubkey) {
          return Some((keys.value[pid], pid));
        }
        left := left - {pid};
      }
      return None;
    }
  }

  /** The load at position i brought keys, and none after it did. */
  predicate LatestGood(swaps: seq<Option<Keys>>, i: nat) {
    && i < |swaps| && swaps[i].Some? && swaps[i].value != map[]
    && forall j :: i < j < |swaps| ==> swaps[j].None? || swaps[j].value == map[]
  }

  /** No load brought keys. */
  predicate NoneGood(swaps: seq<Option<Keys>>) {
    forall i :: 0 <= i < |swaps| ==> swaps[i].None? || swaps[i].value == map[]
  }

  lemma FrontGood(swaps: seq<Option<Keys>>, i: nat)
    requires swaps != [] && i < |swaps| - 1 && LatestGood(swaps, i)
    ensures LatestGood(swaps[..|swaps| - 1], i) && swaps[..|swaps| - 1][i] == swaps[i] && !Acceptable(swaps[|swaps| - 1])
  {
    assert forall j :: 0 <= j < |swaps| - 1 ==> swaps[..|swaps| - 1][j] == swaps[j];
  }

  lemma {:induction false} LatestIsHeld(keys: Option<Keys>, swaps: seq<Option<Keys>>, i: nat)
    requires LatestGood(swaps, i)
    ensures AfterSwaps(keys, swaps) == swaps[i]
  {
    var n := |swaps| - 1;
    if i < n {
      FrontGood(swaps, i);
      LatestIsHeld(keys, swaps[..n], i);
    }
  }

  lemma {:induction false} NoneIsKept(keys: Option<Keys>, swaps: seq<Option<Keys>>)
    requires NoneGood(swaps)
    ensures AfterSwaps(keys, swaps) == keys
  {
    if swaps != [] {
      NoneIsKept(keys, swaps[..|swaps| - 1]);
    }
  }

  lemma {:induction false} KeptNonEmpty(keys: Option<Keys>, swaps: seq<Option<Keys>>)
    requires keys.Some? && keys.value != map[]
    ensures AfterSwaps(keys, swaps).Some? && AfterSwaps(keys, swaps).value != map[]
  {
    if swaps != [] {
      KeptNonEmpty(keys, swaps[..|swaps| - 1]);
    }
  }

  /** What the broker holds after any reloads is the latest load that brought keys, and what it held before
      when none did; so once it has keys it is never without. */
  lemma NeverBlanked(keys: Option<Keys>, swaps: seq<Option<Keys>>)
    ensures forall i: nat :: LatestGood(swaps, i) ==> AfterSwaps(keys, swaps) == swaps[i]
    ensures (forall i :: 0 <= i < |swaps| ==> swaps[i].None? || swaps[i].value == map[]) ==> AfterSwaps(keys, swaps) == keys
    ensures keys.Some? && keys.value != map[] ==> AfterSwaps(keys, swaps).Some? && AfterSwaps(keys, swaps).value != map[]
  {
    hide AfterSwaps;
    forall i: nat | LatestGood(swaps, i) ensures AfterSwaps(keys, swaps) == swaps[i] { LatestIsHeld(keys, swaps, i); }
    if NoneGood(swaps) { NoneIsKept(keys, swaps); }
    if keys.Some? && keys.value != map[] { KeptNonEmpty(keys, swaps); }
  }

  // ---------------------------------------------------------------- GitLab's answers

  /** A transport error, or a status with a body (None when it does not parse). */
  datatype Reply<T> = Unreachable | Http(code: int, body: Option<T>)

  datatype Token = Token(active: bool, revoked: bool)
  datatype User = User(id: int, state: string, bot: bool)

  /** What GitLab says during one request. */
  datatype GitLab = GitLab(
    tokenSelf: string -> Reply<Token>,             // the PAT's own liveness
    user: string -> Reply<User>,                   // the PAT's user
    userByID: (string, int) -> Reply<User>,        // a user's state, by a token
    member: (string, int64, int) -> Reply<int>     // an effective access level, by a token
  )

  /** callerLevel: None is an error, 0 is no member. */
  function CallerLevel(gl: GitLab, token: string, projectID: int64, userID: int): Option<int> {
    match gl.member(token, projectID, userID)
    case Unreachable => None
    case Http(code, body) => if code == 404 then Some(0) else if code != 200 then None else body
  }

  predicate ActiveHuman(r: Reply<User>) {
    r.Http? && r.code == 200 && r.body.Some? && r.body.value.state == "active" && !r.body.value.bot
  }

  predicate LiveToken(r: Reply<Token>) {
    r.Http? && r.code == 200 && r.body.Some? && r.body.value.active && !r.body.value.revoked
  }

  // ---------------------------------------------------------------- the request

  /** Ciphertext is None when its base64 does not decode. */
  datatype Body = Body(projectID: int64, recipient: string, ciphertext: Option<Ciphertext>)

  /** `sshUser` is what authViaSSH makes of the presented fingerprint, nonce and signature. */
  datatype Request = Request(cfAssertion: bool, isPost: bool, body: Option<Body>, fingerprint: string,
                             sshUser: Option<int>, token: string)

  datatype Config = Config(requireCFAccess: bool, serviceToken: string)

  datatype Response = Denied(code: int) | Plaintext(text: string)

  /** The caller: a user id and the token their membership is looked up with; or a denial. */
  datatype Auth = Refused(code: int) | Caller(user: int, token: string)

  /** Legs B and C, SSH when a fingerprint is presented, else the personal access token. */
  function Authenticate(cfg: Config, req: Request, gl: GitLab): Auth {
    if req.fingerprint != "" then
      if req.sshUser.None? then Refused(401)
      else if cfg.serviceToken == "" then Refused(503)
      else if !ActiveHuman(gl.userByID(cfg.serviceToken, req.sshUser.value)) then Refused(401)
      else Caller(req.sshUser.value, cfg.serviceToken)
    else if req.token == "" then Refused(400)
    else if gl.tokenSelf(req.token).Unreachable? then Refused(503)
    else if !LiveToken(gl.tokenSelf(req.token)) then Refused(401)
    else if gl.user(req.token).Unreachable? then Refused(503)
    else if !ActiveHuman(gl.user(req.token)) then Refused(401)
    else Caller(gl.user(req.token).body.value.id, req.token)
  }

  /** The project the envelope is held to. */
  function Wanted(body: Body): Project {
    if body.recipient != "" then Crypto.ByKey(body.recipient) else Crypto.ById(body.projectID)
  }

  /** Legs D to G, for an authenticated caller: `identity` is what the keystore gave for the project. */
  function Release(age: Age, gl: GitLab, caller: Auth, projectID: int64, ct: Ciphertext, want: Project,
                   identity: Option<string>): Response
    requires caller.Caller?
  {
    match CallerLevel(gl, caller.token, projectID, caller.user)
    case None => Denied(503)
    case Some(level) =>
      if level < DEFAULT_LEVEL then Denied(403)
      else if identity.None? then Denied(404)
      else
        match Crypto.Unseal(age, ct, identity.value, want)
        case Err => Denied(400)
        case Ok((text, required)) => if level < required then Denied(403) else Plaintext(text)
  }

  /** The whole decision, given what the two keystore reads saw. `found` is the answer for a public key,
      `late` the keys at the second read, which only a numeric request makes. */
  function Decide(age: Age, cfg: Config, req: Request, gl: GitLab, found: Option<(string, int64)>, late: Option<Keys>): Response {
    if cfg.requireCFAccess && !req.cfAssertion then Denied(403)
    else if !req.isPost then Denied(405)
    else if req.body.None? then Denied(400)
    else
      var body := req.body.value;
      if body.recipient != "" && found.None? then Denied(404)
      else
        var projectID := if body.recipient != "" then found.value.1 else body.projectID;
        if projectID <= 0 || body.ciphertext.None? then Denied(400)
        else
          match Authenticate(cfg, req, gl)
          case Refused(code) => Denied(code)
          case Caller(user, token) =>
            var identity := if body.recipient != "" && found.value.0 != "" then Some(found.value.0) else KeyOf(late, projectID);
            Release(age, gl, Caller(user, token), projectID, body.ciphertext.value, Wanted(body), identity)
  }

  /** The request gets as far as the lookup of its public key. */
  predicate LooksUpKey(cfg: Config, req: Request) {
    (cfg.requireCFAccess ==> req.cfAssertion) && req.isPost && req.body.Some? && req.body.value.recipient != ""
  }

  ghost predicate Looked(age: Age, cfg: Config, req: Request, keys: Option<Keys>, found: Option<(string, int64)>) {
    LooksUpKey(cfg, req) ==> PubkeyAnswer(age, keys, req.body.value.recipient, found)
  }

  /** HandleUnseal. `swaps` are the reloads that happen between its two keystore reads. */
  method HandleUnseal(age: Age, cfg: Config, broker: KeyHolder, req: Request, gl: GitLab, swaps: seq<Option<Keys>>)
    returns (r: Response, ghost found: Option<(string, int64)>)
    modifies broker
    ensures broker.keys == AfterSwaps(old(broker.keys), swaps)
    ensures Looked(age, cfg, req, old(broker.keys), found)
    ensures r == Decide(age, cfg, req, gl, found, broker.keys)
  {
    found := None;
    var early := None;
    if LooksUpKey(cfg, req) {
      early := broker.KeyForPubkey(age, req.body.value.recipient);
      found := early;
    }
    for i := 0 to |swaps|
      invariant broker.keys == AfterSwaps(old(broker.keys), swaps[..i])
    {
      assert swaps[..i + 1][..i] == swaps[..i];
      var _ := broker.SwapKeys(swaps[i], []);
    }
    assert swaps[..|swaps|] == swaps;
    if cfg.requireCFAccess && !req.cfAssertion {
      return Denied(403), found;
    }
    if !req.isPost {
      return Denied(405), found;
    }
    if req.body.None? {
      return Denied(400), found;
    }
    var body := req.body.value;
    var projectID, identity := body.projectID, None;
    if body.recipient != "" {
      if early.None? {
        return Denied(404), found;
      }
      projectID := early.value.1;
      if early.value.0 != "" {
        identity := Some(early.value.0);
      }
    }
    if projectID <= 0 || body.ciphertext.None? {
      return Denied(400), found;
    }
    var caller := Authenticate(cfg, req, gl);
    if caller.Refused? {
      return Denied(caller.code), found;
    }
    if identity.None? {
      identity := broker.KeyFor(projectID);
    }
    r := Release(age, gl, caller, projectID, body.ciphertext.value, Wanted(body), identity);
  }

  // ---------------------------------------------------------------- exactly when a plaintext leaves

  /** Who is asking, as GitLab and the nonces say: on the SSH leg the signer of the nonce, when the broker
      has a service token and GitLab calls the account active and human; on the other leg the owner of a
      live personal access token, likewise. */
  ghost predicate Asks(cfg: Config, req: Request, gl: GitLab, user: int, token: string) {
    if req.fingerprint != "" then
      && req.sshUser == Some(user) && token == cfg.serviceToken != ""
      && exists id :: gl.userByID(token, user) == Http(200, Some(User(id, "active", false)))
    else
      && token == req.token != ""
      && gl.tokenSelf(token) == Http(200, Some(Token(true, false)))
      && gl.user(token) == Http(200, Some(User(user, "active", false)))
  }

  lemma AsksIsAuthenticated(cfg: Config, req: Request, gl: GitLab, user: int, token: string)
    ensures Asks(cfg, req, gl, user, token) <==> Authenticate(cfg, req, gl) == Caller(user, token)
  {
    if Authenticate(cfg, req, gl) == Caller(user, token) && req.fingerprint != "" {
      var u := gl.userByID(token, user).body.value;
      assert gl.userByID(token, user) == Http(200, Some(User(u.id, "active", false)));
    }
  }

  /** The identity and numeric id the request resolves to: the pair its public key was found under, or its
      own id with what the keystore holds under it at the later read. */
  predicate Resolves(body: Body, found: Option<(string, int64)>, late: Option<Keys>, projectID: int64, identity: string) {
    && identity != "" && projectID > 0
    && if body.recipient != "" then found == Some((identity, projectID))
       else projectID == body.projectID && late.Some? && projectID in late.value && late.value[projectID] == identity
  }

  /** What a successful unseal rests on: a well-formed request, a caller, an identity held when it was
      read, GitLab's live answer on that caller's membership, and the envelope. */
  ghost predicate Entitled(age: Age, cfg: Config, req: Request, gl: GitLab, found: Option<(string, int64)>, late: Option<Keys>,
                           user: int, token: string, projectID: int64, identity: string, level: int, required: int, text: string)
  {
    && (cfg.requireCFAccess ==> req.cfAssertion) && req.isPost
    && req.body.Some? && req.body.value.ciphertext.Some?
    && Asks(cfg, req, gl, user, token)
    && Resolves(req.body.value, found, late, projectID, identity)
    && gl.member(token, projectID, user) == Http(200, Some(level))
    && level >= required
    && Crypto.Unseal(age, req.body.value.ciphertext.value, identity,
                     if req.body.value.recipient != "" then Crypto.ByKey(req.body.value.recipient)
                     else Crypto.ById(req.body.value.projectID)) == Ok((text, required))
  }

  lemma PlaintextIsEntitled(age: Age, cfg: Config, req: Request, gl: GitLab, keys: Option<Keys>,
                            found: Option<(string, int64)>, late: Option<Keys>, text: string)
    returns (user: int, token: string, projectID: int64, identity: string, level: int, required: int)
    requires age.Lawful() && Looked(age, cfg, req, keys, found)
    requires Decide(age, cfg, req, gl, found, late) == Plaintext(text)
    ensures Entitled(age, cfg, req, gl, found, late, user, token, projectID, identity, level, required, text)
  {
    var body := req.body.value;
    var caller := Authenticate(cfg, req, gl);
    user, token := caller.user, caller.token;
    AsksIsAuthenticated(cfg, req, gl, user, token);
    projectID := if body.recipient != "" then found.value.1 else body.projectID;
    identity := if body.recipient != "" then found.value.0 else KeyOf(late, projectID).value;
    level := gl.member(token, projectID, user).body.value;
    required := Crypto.Unseal(age, body.ciphertext.value, identity, Wanted(body)).value.1;
  }

  lemma EntitledGetsPlaintext(age: Age, cfg: Config, req: Request, gl: GitLab, found: Option<(string, int64)>, late: Option<Keys>,
                              user: int, token: string, projectID: int64, identity: string, level: int, required: int, text: string)
    requires Entitled(age, cfg, req, gl, found, late, user, token, projectID, identity, level, required, text)
    ensures Decide(age, cfg, req, gl, found, late) == Plaintext(text)
  {
    AsksIsAuthenticated(cfg, req, gl, user, token);
  }

  /** A plaintext is returned iff the whole chain succeeds: GitLab itself answers 200 with a level for the
      caller, on the project the identity belongs to, of at least the level embedded in the ciphertext.
      The Developer baseline is not in the condition: every level an envelope opens with is at least that,
      so the baseline check never changes an answer to yes or no. */
  lemma UnsealExact(age: Age, cfg: Config, req: Request, gl: GitLab, keys: Option<Keys>, found: Option<(string, int64)>,
                    late: Option<Keys>, text: string)
    requires age.Lawful() && Looked(age, cfg, req, keys, found)
    ensures Decide(age, cfg, req, gl, found, late) == Plaintext(text)
       <==> exists user, token, projectID, identity, level, required ::
              Entitled(age, cfg, req, gl, found, late, user, token, projectID, identity, level, required, text)
  {
    hide Decide, Entitled;
    if Decide(age, cfg, req, gl, found, late) == Plaintext(text) {
      var user, token, projectID, identity, level, required := PlaintextIsEntitled(age, cfg, req, gl, keys, found, late, text);
    }
    if user, token, projectID: int64, identity, level, required :|
      Entitled(age, cfg, req, gl, found, late, user, token, projectID, identity, level, required, text)
    {
      EntitledGetsPlaintext(age, cfg, req, gl, found, late, user, token, projectID, identity, level, required, text);
    }
  }

  /** A request that is well formed, up to its membership lookup. */
  ghost predicate Reaches(cfg: Config, req: Request, gl: GitLab, found: Option<(string, int64)>,
                          user: int, token: string, projectID: int64)
  {
    && (cfg.requireCFAccess ==> req.cfAssertion) && req.isPost
    && req.body.Some? && req.body.value.ciphertext.Some? && projectID > 0
    && (if req.body.value.recipient != "" then found.Some? && found.value.1 == projectID
        else projectID == req.body.value.projectID)
    && Asks(cfg, req, gl, user, token)
  }

  /** Leg D releases nothing without a 200 that names a level of Developer or more, and says why: 503 when
      GitLab cannot be reached, answers otherwise or cannot be understood; 403 for a 404, which means no
      member, and for a lower level. */
  lemma MembershipDenials(age: Age, cfg: Config, req: Request, gl: GitLab, found: Option<(string, int64)>, late: Option<Keys>,
                          user: int, token: string, projectID: int64)
    requires Reaches(cfg, req, gl, found, user, token, projectID)
    ensures var r, answer := Decide(age, cfg, req, gl, found, late), gl.member(token, projectID, user);
      && (answer.Unreachable? ==> r == Denied(503))
      && (answer.Http? && answer.code == 404 ==> r == Denied(403))
      && (answer.Http? && answer.code != 404 && answer.code != 200 ==> r == Denied(503))
      && (answer == Http(200, None) ==> r == Denied(503))
      && (answer.Http? && answer.code == 200 && answer.body.Some? && answer.body.value < 30 ==> r == Denied(403))
  {
    AsksIsAuthenticated(cfg, req, gl, user, token);
  }

  /** The denials behind leg D: 404 without an identity, 400 for what it does not open, 403 below the level
      sealed inside. */
  lemma ReleaseDenials(age: Age, cfg: Config, req: Request, gl: GitLab, found: Option<(string, int64)>, late: Option<Keys>,
                       user: int, token: string, projectID: int64, level: int)
    requires Reaches(cfg, req, gl, found, user, token, projectID) && req.body.value.recipient == ""
    requires gl.member(token, projectID, user) == Http(200, Some(level)) && level >= 30
    ensures var r, ct := Decide(age, cfg, req, gl, found, late), req.body.value.ciphertext.value;
      if late.None? || projectID !in late.value || late.value[projectID] == "" then r == Denied(404)
      else
        var got := Crypto.Unseal(age, ct, late.value[projectID], Crypto.ById(projectID));
        && (got.Err? ==> r == Denied(400))
        && (got.Ok? && got.value.1 > level ==> r == Denied(403))
        && (got.Ok? && got.value.1 <= level ==> r == Plaintext(got.value.0))
  {
    AsksIsAuthenticated(cfg, req, gl, user, token);
  }

  /** Nobody gets past the legs before D unnoticed: the code of each refusal, by what is wrong with the
      request or what GitLab answers. */
  lemma EarlyDenials(age: Age, cfg: Config, req: Request, gl: GitLab, found: Option<(string, int64)>, late: Option<Keys>)
    requires (cfg.requireCFAccess ==> req.cfAssertion) && req.isPost && req.body.Some?
    ensures var r, body := Decide(age, cfg, req, gl, found, late), req.body.value;
      && (body.recipient != "" && found.None? ==> r == Denied(404))
      && (body.recipient == "" && body.projectID <= 0 ==> r == Denied(400))
      && ((body.recipient != "" ==> found.Some?) && body.ciphertext.None? ==> r == Denied(400))
    ensures var r, body := Decide(age, cfg, req, gl, found, late), req.body.value;
      body.ciphertext.Some? && (if body.recipient != "" then found.Some? && found.value.1 > 0 else body.projectID > 0) ==>
        && (req.fingerprint != "" && req.sshUser.None? ==> r == Denied(401))
        && (req.fingerprint != "" && req.sshUser.Some? && cfg.serviceToken == "" ==> r == Denied(503))
        && (req.fingerprint == "" && req.token == "" ==> r == Denied(400))
        && (req.fingerprint == "" && req.token != "" && gl.tokenSelf(req.token).Unreachable? ==> r == Denied(503))
  {
  }

  lemma GateDenials(age: Age, cfg: Config, req: Request, gl: GitLab, found: Option<(string, int64)>, late: Option<Keys>)
    ensures var r := Decide(age, cfg, req, gl, found, late);
      && (cfg.requireCFAccess && !req.cfAssertion ==> r == Denied(403))
      && ((cfg.requireCFAccess ==> req.cfAssertion) && !req.isPost ==> r == Denied(405))
      && ((cfg.requireCFAccess ==> req.cfAssertion) && req.isPost && req.body.None? ==> r == Denied(400))
  {
  }

  /** Corollary: revocation is instant on both legs. A plaintext leaves only if GitLab said, during this very
      request, that the caller is an active human, and that the token presented, if any, is live. */
  lemma OnlyLiveHumans(age: Age, cfg: Config, req: Request, gl: GitLab, found: Option<(string, int64)>, late: Option<Keys>)
    requires Decide(age, cfg, req, gl, found, late).Plaintext?
    ensures exists user, token :: Asks(cfg, req, gl, user, token)
  {
    var caller := Authenticate(cfg, req, gl);
    AsksIsAuthenticated(cfg, req, gl, caller.user, caller.token);
  }

  /** End to end: what leaves the broker for a ciphertext that was sealed under a one-line name is the very
      plaintext sealed, for the project it was sealed for, to a caller whom GitLab gives at least the level
      sealed with it. */
  lemma ReleasedIsSealed(age: Age, cfg: Config, req: Request, gl: GitLab, keys: Option<Keys>, found: Option<(string, int64)>,
                         late: Option<Keys>, text: string,
                         p: Project, plaintext: string, recipients: seq<string>, name: string, level: int64, nonce: nat)
    returns (user: int, token: string, projectID: int64, identity: string, live: int)
    requires age.Lawful() && Looked(age, cfg, req, keys, found)
    requires Crypto.Sealable(age, p, recipients, level) && NoNewline(name)
    requires req.body.Some? && req.body.value.ciphertext == Some(Crypto.Seal(age, p, plaintext, recipients, name, level, nonce).value)
    requires Decide(age, cfg, req, gl, found, late) == Plaintext(text)
    ensures text == plaintext
    ensures p == if req.body.value.recipient != "" then Crypto.ByKey(req.body.value.recipient) else Crypto.ById(req.body.value.projectID)
    ensures Asks(cfg, req, gl, user, token) && Resolves(req.body.value, found, late, projectID, identity)
    ensures age.recipientOf(identity).Some? && age.recipientOf(identity).value in recipients
    ensures gl.member(token, projectID, user) == Http(200, Some(live)) && live >= level >= 30
  {
    hide Decide;
    var required;
    user, token, projectID, identity, live, required := PlaintextIsEntitled(age, cfg, req, gl, keys, found, late, text);
    OpensAsSealed(age, p, plaintext, recipients, name, level, nonce, identity, Wanted(req.body.value));
  }

  /** A sealed ciphertext opens for no project but its own, and then to what was sealed. */
  lemma OpensAsSealed(age: Age, p: Project, plaintext: string, recipients: seq<string>, name: string, level: int64,
                      nonce: nat, identity: string, want: Project)
    requires age.Lawful() && Crypto.Sealable(age, p, recipients, level) && NoNewline(name)
    requires Crypto.Unseal(age, Crypto.Seal(age, p, plaintext, recipients, name, level, nonce).value, identity, want).Ok?
    ensures want == p && level >= DEFAULT_LEVEL
    ensures Crypto.Unseal(age, Crypto.Seal(age, p, plaintext, recipients, name, level, nonce).value, identity, want) == Ok((plaintext, level))
  {
    NewlineFreeNameOk(name);
    SealedWho(age, p);
    if level < DEFAULT_LEVEL {
      LowLevelRefused(age.validRecipient, Crypto.WhoLine(p), level, name, plaintext,
                      if want.ById? then want.id else 0, if want.ByKey? then want.key else "");
    }
    Crypto.UnsealOfSeal(age, p, plaintext, recipients, name, level, nonce, identity);
    match (p, want)
    case (ById(id), ByKey(key)) =>
      NumericByKey(age.validRecipient, id, level, name, plaintext, key);
      PlainNameTail(name, RECIPIENT_PREFIX);
    case (ByKey(key), ById(id)) =>
      KeyedByNumber(age.validRecipient, key, level, name, plaintext, id);
      PlainNameTail(name, ID_PREFIX);
    case (ById(a), ById(b)) =>
      OpenedForOne(age.validRecipient, Crypto.Payload(p, level, name, plaintext), a, b, "", "");
    case (ByKey(a), ByKey(b)) =>
      OpenedForOne(age.validRecipient, Crypto.Payload(p, level, name, plaintext), 0, 0, a, b);
  }

  lemma SealedWho(age: Age, p: Project)
    requires age.Lawful() && match p case ById(id) => id > 0 case ByKey(key) => age.validRecipient(key)
    ensures IsWho(Crypto.WhoLine(p))
  {
    match p
    case ById(id) => ProjectOfWritten(id, []);
    case ByKey(key) => RecipientOfWritten(age.validRecipient, key, []);
  }
}
