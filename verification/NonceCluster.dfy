/** internal/broker/challenge.go and ssh_auth.go, all replicas: nonces issued by one pod, consumed on
    any, over a network that loses, delays and repeats. */
module NonceCluster {
  import opened Wrappers
  import opened Crypto
  import opened Challenge

  type Replica = nat
  type CallId = nat

  /** Where one authViaSSH call stands: before its local Consume, waiting on peer number `at`, past
      consumeNonce with its answer, returned (with the user id on success), or dead with its pod. What
      consumeNonce answered is remembered after that. */
  datatype Phase = Start
                 | Asking(peers: seq<Replica>, at: nat)
                 | Consumed(ok: bool)
                 | Returned(ok: bool, user: Option<int>)
                 | Crashed(ok: bool)

  datatype Call = Call(home: Replica, fingerprint: string, nonce: string, sig: Signature, phase: Phase)

  /** A POST to a peer on behalf of a call's attempt, and an answer to one. */
  datatype Post = Post(call: CallId, at: nat, peer: Replica)
  datatype Reply = Reply(call: CallId, at: nat, ok: bool)

  /** `issued` records each nonce handed out, with its expiry. */
  datatype State = State(stores: map<Replica, Nonces>, issued: map<string, int>, calls: map<CallId, Call>,
                         posts: set<Post>, replies: set<Reply>)

  /** A fingerprint's owner: user id, key, and the fingerprint that key really has. */
  datatype Known = Known(user: int, key: string, fingerprint: string)

  /** One step of the cluster. `Execute` may happen long after its caller gave up, or twice. */
  datatype Event =
    | Issue(r: Replica, nonce: string, swept: int, now: int, ttl: int)
    | Begin(a: CallId, home: Replica, fingerprint: string, nonce: string, sig: Signature)
    | ConsumeLocal(a: CallId, now: int, peers: seq<Replica>)
    | Send(a: CallId)
    | Execute(post: Post, now: int)
    | Deliver(reply: Reply)
    | GiveUp(a: CallId)
    | Conclude(a: CallId, resolve: string -> Option<Known>)
    | Restart(r: Replica)

  function StoreOf(s: State, r: Replica): Nonces {
    if r in s.stores then s.stores[r] else map[]
  }

  function WithPhase(s: State, a: CallId, p: Phase): State
    requires a in s.calls
  {
    s.(calls := s.calls[a := s.calls[a].(phase := p)])
  }

  /** The loop of consumeViaPeers moves to its next peer, or ends. */
  function NextPeer(peers: seq<Replica>, at: nat): Phase {
    if at < |peers| then Asking(peers, at) else Consumed(false)
  }

  /** consumeNonce has answered true. */
  predicate AnsweredTrue(p: Phase) {
    (p.Consumed? || p.Returned? || p.Crashed?) && p.ok
  }

  function CrashOn(c: Call, r: Replica): Call {
    if c.home == r && !c.phase.Returned? then c.(phase := Crashed(AnsweredTrue(c.phase))) else c
  }

  /** What authViaSSH returns once its nonce is consumed. */
  function Authenticate(c: Call, resolve: string -> Option<Known>): Option<int> {
    match resolve(c.fingerprint)
    case None => None
    case Some(k) =>
      if k.fingerprint == c.fingerprint && Verifies(k.key, Challenge(c.nonce), c.sig) then Some(k.user) else None
  }

  /** An event whose moment has not come changes nothing. */
  function Next(s: State, e: Event): State {
    match e
    case Issue(r, nonce, swept, now, ttl) =>
      if nonce in s.issued then s
      else
        var n := StoreOf(s, r);
        s.(stores := s.stores[r := AfterIssue(n, nonce, swept, now, ttl)],
           issued := if Refuses(n, swept) then s.issued else s.issued[nonce := now + ttl])
    case Begin(a, home, fingerprint, nonce, sig) =>
      if a in s.calls then s else s.(calls := s.calls[a := Call(home, fingerprint, nonce, sig, Start)])
    case ConsumeLocal(a, now, peers) =>
      if a !in s.calls || s.calls[a].phase != Start then s
      else
        var c := s.calls[a];
        var n := StoreOf(s, c.home);
        var consumed := s.(stores := s.stores[c.home := AfterConsume(n, c.nonce)]);
        WithPhase(consumed, a, if Consumes(n, c.nonce, now) then Consumed(true) else NextPeer(peers, 0))
    case Send(a) =>
      if a !in s.calls || !s.calls[a].phase.Asking? then s
      else
        var p := s.calls[a].phase;
        if p.at < |p.peers| then s.(posts := s.posts + {Post(a, p.at, p.peers[p.at])}) else s
    case Execute(post, now) =>
      if post !in s.posts || post.call !in s.calls then s
      else
        var n, nonce := StoreOf(s, post.peer), s.calls[post.call].nonce;
        s.(stores := s.stores[post.peer := AfterConsume(n, nonce)],
           replies := s.replies + {Reply(post.call, post.at, Consumes(n, nonce, now))})
    case Deliver(reply) =>
      if reply !in s.replies || reply.call !in s.calls then s
      else
        var p := s.calls[reply.call].phase;
        if !p.Asking? || p.at != reply.at then s
        else WithPhase(s, reply.call, if reply.ok then Consumed(true) else NextPeer(p.peers, p.at + 1))
    case GiveUp(a) =>
      if a !in s.calls || !s.calls[a].phase.Asking? then s
      else WithPhase(s, a, NextPeer(s.calls[a].phase.peers, s.calls[a].phase.at + 1))
    case Conclude(a, resolve) =>
      if a !in s.calls || !s.calls[a].phase.Consumed? then s
      else
        var ok := s.calls[a].phase.ok;
        WithPhase(s, a, Returned(ok, if ok then Authenticate(s.calls[a], resolve) else None))
    case Restart(r) =>
      s.(stores := s.stores[r := map[]], calls := map a | a in s.calls :: CrashOn(s.calls[a], r))
  }

  function Run(events: seq<Event>): State {
    if events == [] then State(map[], map[], map[], {}, {})
    else Next(Run(events[..|events| - 1]), events[|events| - 1])
  }

  // ---------------------------------------------------------------- a nonce is in one place

  predicate Held(s: State, r: Replica, nonce: string) {
    nonce in StoreOf(s, r)
  }

  /** consumeNonce returned true to the call, whatever became of the call since. */
  predicate Won(s: State, a: CallId) {
    a in s.calls && AnsweredTrue(s.calls[a].phase)
  }

  /** The call has consumed the nonce, or a success on its behalf is on its way. */
  ghost predicate Spent(s: State, a: CallId, nonce: string) {
    && a in s.calls && s.calls[a].nonce == nonce
    && (Won(s, a) || exists at :: Reply(a, at, true) in s.replies)
  }

  /** A nonce is on at most one replica or with at most one call, never both, was issued, and keeps
      the expiry it was issued with. */
  ghost predicate OnePlace(s: State) {
    && (forall r1, r2, x :: Held(s, r1, x) && Held(s, r2, x) ==> r1 == r2)
    && (forall r, a, x :: Held(s, r, x) ==> !Spent(s, a, x))
    && (forall a1, a2, x :: Spent(s, a1, x) && Spent(s, a2, x) ==> a1 == a2)
    && (forall r, x :: Held(s, r, x) ==> x in s.issued && StoreOf(s, r)[x] == s.issued[x])
    && (forall a, x :: Spent(s, a, x) ==> x in s.issued)
  }

  /** Requests and replies belong to calls that exist. */
  predicate Tied(s: State) {
    && (forall p :: p in s.posts ==> p.call in s.calls)
    && (forall p :: p in s.replies ==> p.call in s.calls)
  }

  lemma IssueStep(s: State, e: Event)
    requires e.Issue? && OnePlace(s) && Tied(s)
    ensures OnePlace(Next(s, e)) && Tied(Next(s, e))
  {
    var t := Next(s, e);
    assert forall r, x :: Held(t, r, x) ==> Held(s, r, x) || (r == e.r && x == e.nonce && x !in s.issued);
    assert forall a, x :: Spent(t, a, x) ==> Spent(s, a, x);
  }

  /** One Consume, local or for a peer: the nonce leaves the store, and only the caller may gain it. */
  lemma ConsumeStep(s: State, t: State, r: Replica, a: CallId, now: int)
    requires OnePlace(s) && a in s.calls && t.issued == s.issued
    requires t.stores == s.stores[r := AfterConsume(StoreOf(s, r), s.calls[a].nonce)]
    requires forall b, x :: Spent(t, b, x) ==>
      Spent(s, b, x) || (b == a && x == s.calls[a].nonce && Consumes(StoreOf(s, r), x, now))
    ensures OnePlace(t)
  {
    assert forall q, x :: Held(t, q, x) ==> Held(s, q, x) && !(q == r && x == s.calls[a].nonce);
    assert forall x :: Consumes(StoreOf(s, r), x, now) ==> Held(s, r, x);
  }

  lemma LocalStep(s: State, e: Event)
    requires e.ConsumeLocal? && OnePlace(s) && Tied(s)
    ensures OnePlace(Next(s, e)) && Tied(Next(s, e))
  {
    if e.a in s.calls && s.calls[e.a].phase == Start {
      ConsumeStep(s, Next(s, e), s.calls[e.a].home, e.a, e.now);
    }
  }

  lemma ExecuteStep(s: State, e: Event)
    requires e.Execute? && OnePlace(s) && Tied(s)
    ensures OnePlace(Next(s, e)) && Tied(Next(s, e))
  {
    if e.post in s.posts && e.post.call in s.calls {
      var t := Next(s, e);
      forall b, x | Spent(t, b, x)
        ensures Spent(s, b, x)
             || (b == e.post.call && x == s.calls[b].nonce && Consumes(StoreOf(s, e.post.peer), x, e.now))
      {
        if !Won(t, b) {
          var at :| Reply(b, at, true) in t.replies;
        }
      }
      ConsumeStep(s, t, e.post.peer, e.post.call, e.now);
    }
  }

  /** No other event gives a call a nonce. */
  lemma NoneGained(s: State, e: Event)
    requires !e.ConsumeLocal? && !e.Execute? && Tied(s)
    ensures forall a, x :: Spent(Next(s, e), a, x) ==> Spent(s, a, x)
  {
    var t := Next(s, e);
    forall a, x | Spent(t, a, x) ensures Spent(s, a, x) {
      if e.Deliver? && e.reply.call == a && e.reply in s.replies && e.reply.ok {
        assert Reply(a, e.reply.at, true) in s.replies;
      }
    }
  }

  lemma QuietStep(s: State, e: Event)
    requires !e.Issue? && !e.ConsumeLocal? && !e.Execute? && OnePlace(s) && Tied(s)
    ensures OnePlace(Next(s, e)) && Tied(Next(s, e))
  {
    NoneGained(s, e);
    var t := Next(s, e);
    assert forall r, x :: Held(t, r, x) ==> Held(s, r, x);
    assert t.issued == s.issued && forall r, x :: Held(t, r, x) ==> StoreOf(t, r) == StoreOf(s, r);
  }

  lemma {:induction false} RunKeepsOnePlace(events: seq<Event>)
    ensures OnePlace(Run(events)) && Tied(Run(events))
  {
    if events != [] {
      var s, e := Run(events[..|events| - 1]), events[|events| - 1];
      RunKeepsOnePlace(events[..|events| - 1]);
      match e
      case Issue(_, _, _, _, _) => IssueStep(s, e);
      case ConsumeLocal(_, _, _) => LocalStep(s, e);
      case Execute(_, _) => ExecuteStep(s, e);
      case _ => QuietStep(s, e);
    }
  }

  /** consumeNonce's answer is final: it is given once, and the call keeps its nonce. */
  lemma AnswerStays(s: State, e: Event, a: CallId)
    requires a in s.calls
    ensures var t := Next(s, e);
      && a in t.calls && t.calls[a].nonce == s.calls[a].nonce
      && (Won(s, a) ==> Won(t, a) && t.calls[a].phase != Start && !t.calls[a].phase.Asking?)
      && (Won(s, a) && t.calls[a].phase == Consumed(true) ==> s.calls[a].phase == Consumed(true))
  {
  }

  lemma {:induction false} AnswerKept(events: seq<Event>, n: nat, a: CallId)
    requires n <= |events| && Won(Run(events[..n]), a)
    ensures Won(Run(events), a) && Run(events).calls[a].nonce == Run(events[..n]).calls[a].nonce
  {
    if n == |events| {
      assert events[..n] == events;
    } else {
      var front := events[..|events| - 1];
      assert front[..n] == events[..n];
      AnswerKept(front, n, a);
      AnswerStays(Run(front), events[|events| - 1], a);
    }
  }

  /** The state after the first n events. */
  function At(events: seq<Event>, n: nat): State
    requires n <= |events|
  {
    Run(events[..n])
  }

  /** At the i-th event of the run, consumeNonce answers true to the call. */
  predicate AnsweredAt(events: seq<Event>, i: nat, a: CallId) {
    && i < |events|
    && a in At(events, i + 1).calls && At(events, i + 1).calls[a].phase == Consumed(true)
    && !(a in At(events, i).calls && At(events, i).calls[a].phase == Consumed(true))
  }

  lemma AnsweredAnew(events: seq<Event>, i: nat, a: CallId)
    requires AnsweredAt(events, i, a)
    ensures !Won(At(events, i), a) && Won(At(events, i + 1), a)
  {
    assert events[..i + 1][..i] == events[..i];
    if a in At(events, i).calls { AnswerStays(At(events, i), events[i], a); }
  }

  /** No call is answered true twice. */
  lemma AnsweredOnce(events: seq<Event>, i: nat, j: nat, a: CallId)
    requires AnsweredAt(events, i, a) && i < j
    ensures !AnsweredAt(events, j, a)
  {
    hide Next;
    if AnsweredAt(events, j, a) {
      AnsweredAnew(events, i, a);
      AnsweredAnew(events, j, a);
      assert events[..j][..i + 1] == events[..i + 1];
      AnswerKept(events[..j], i + 1, a);
    }
  }

  /** Single use, cluster-wide, over the history of every run: at most one consumeNonce, at one moment,
      answers true for a nonce, whatever comes of its call afterwards - a bad signature, a crash of its
      pod - and the nonce had been issued. */
  lemma SingleUse(events: seq<Event>, i: nat, a: CallId, j: nat, b: CallId)
    requires AnsweredAt(events, i, a) && AnsweredAt(events, j, b)
    requires At(events, i + 1).calls[a].nonce == At(events, j + 1).calls[b].nonce
    ensures a == b && i == j
    ensures At(events, i + 1).calls[a].nonce in At(events, i + 1).issued
  {
    hide Next;
    AnsweredAnew(events, i, a);
    AnsweredAnew(events, j, b);
    AnswerKept(events, i + 1, a);
    AnswerKept(events, j + 1, b);
    WonApart(events, a, b);
    WonApart(events[..i + 1], a, a);
    if i < j {
      AnsweredOnce(events, i, j, a);
    } else if j < i {
      AnsweredOnce(events, j, i, a);
    }
  }

  /** Of all calls to which consumeNonce ever answered true, no two had one nonce. */
  lemma WonApart(events: seq<Event>, a: CallId, b: CallId)
    requires Won(Run(events), a)
    ensures Run(events).calls[a].nonce in Run(events).issued
    ensures Won(Run(events), b) && Run(events).calls[a].nonce == Run(events).calls[b].nonce ==> a == b
  {
    RunKeepsOnePlace(events);
    var s := Run(events);
    assert Spent(s, a, s.calls[a].nonce);
    if Won(s, b) { assert Spent(s, b, s.calls[b].nonce); }
  }

  /** In time: whenever a call comes to have a nonce, by a Consume on its own pod or on a peer, that
      store's clock had not passed the expiry the nonce was issued with. */
  lemma NeverLate(events: seq<Event>, e: Event, a: CallId, nonce: string)
    requires !Spent(Run(events), a, nonce) && Spent(Next(Run(events), e), a, nonce)
    ensures e.ConsumeLocal? || e.Execute?
    ensures nonce in Run(events).issued && e.now <= Run(events).issued[nonce]
  {
    RunKeepsOnePlace(events);
    var s, t := Run(events), Next(Run(events), e);
    if e.Execute? {
      assert Held(s, e.post.peer, nonce);
    } else if e.ConsumeLocal? {
      assert Held(s, s.calls[a].home, nonce);
    } else {
      NoneGained(s, e);
    }
  }

  // ---------------------------------------------------------------- authentication

  /** The call returned a user only for a signature over its own nonce, under a key with its fingerprint. */
  ghost predicate Attested(c: Call) {
    c.phase.Returned? && c.phase.user.Some? ==>
      exists k: Known :: k.fingerprint == c.fingerprint && k.user == c.phase.user.value
                         && c.sig == Signed(k.key, Challenge(c.nonce))
  }

  ghost predicate AllAttested(s: State) {
    forall a :: a in s.calls ==> Attested(s.calls[a])
  }

  lemma {:induction false} RunAttested(events: seq<Event>)
    ensures AllAttested(Run(events))
  {
    if events != [] {
      var s, e := Run(events[..|events| - 1]), events[|events| - 1];
      RunAttested(events[..|events| - 1]);
      var t := Next(s, e);
      forall a | a in t.calls ensures Attested(t.calls[a]) {
        if a in s.calls {
          assert Attested(s.calls[a]);
          if e.Conclude? && e.a == a && s.calls[a].phase == Consumed(true) {
            var k := e.resolve(s.calls[a].fingerprint);
            assert k.Some? && Authenticate(s.calls[a], e.resolve).Some? ==> k.value.fingerprint == s.calls[a].fingerprint;
          }
        }
      }
    }
  }

  function Authenticated(s: State): set<CallId> {
    set a | a in s.calls && s.calls[a].phase.Returned? && s.calls[a].phase.user.Some?
  }

  /** authViaSSH succeeds only after consumeNonce did. */
  ghost predicate SuccessIsWon(s: State) {
    forall a :: a in Authenticated(s) ==> Won(s, a)
  }

  lemma {:induction false} RunSuccessIsWon(events: seq<Event>)
    ensures SuccessIsWon(Run(events))
  {
    if events != [] {
      RunSuccessIsWon(events[..|events| - 1]);
      var s, t := Run(events[..|events| - 1]), Run(events);
      forall a | a in Authenticated(t) ensures Won(t, a) {
        assert a in Authenticated(s) ==> Won(s, a);
      }
    }
  }

  /** No replay: successful authentications inject into the issued nonces, and each shows a signature
      over its nonce by a key that really has the presented fingerprint. */
  lemma NoReplay(events: seq<Event>)
    ensures var s := Run(events);
      && (forall a :: a in Authenticated(s) ==> s.calls[a].nonce in s.issued && Attested(s.calls[a]))
      && (forall a, b :: a in Authenticated(s) && b in Authenticated(s) && s.calls[a].nonce == s.calls[b].nonce ==> a == b)
  {
    RunAttested(events);
    RunSuccessIsWon(events);
    var s := Run(events);
    forall a | a in Authenticated(s) ensures s.calls[a].nonce in s.issued { WonApart(events, a, a); }
    forall a, b | a in Authenticated(s) && b in Authenticated(s) && s.calls[a].nonce == s.calls[b].nonce ensures a == b {
      WonApart(events, a, b);
    }
  }

  // ---------------------------------------------------------------- a good login gets through

  /** A call whose own pod holds its nonce: consumeNonce answers at once, true up to the expiry. */
  lemma LocalAccepts(events: seq<Event>, a: CallId, now: int, peers: seq<Replica>)
    requires var s := Run(events);
      a in s.calls && s.calls[a].phase == Start && Held(s, s.calls[a].home, s.calls[a].nonce)
    ensures var s := Run(events);
      && s.calls[a].nonce in s.issued
      && (Next(s, ConsumeLocal(a, now, peers)).calls[a].phase == Consumed(true) <==> now <= s.issued[s.calls[a].nonce])
  {
    RunKeepsOnePlace(events);
  }

  /** A post that reaches the peer holding the nonce in time brings a yes back, and the caller still
      waiting for it takes that for an answer. */
  lemma PeerAccepts(events: seq<Event>, post: Post, now: int)
    requires var s := Run(events);
      post in s.posts && post.call in s.calls && Held(s, post.peer, s.calls[post.call].nonce)
    ensures var s := Run(events);
      var t, yes := Next(s, Execute(post, now)), Reply(post.call, post.at, true);
      && s.calls[post.call].nonce in s.issued
      && (now <= s.issued[s.calls[post.call].nonce] ==> yes in t.replies)
      && (yes in t.replies && t.calls[post.call].phase.Asking? && t.calls[post.call].phase.at == post.at ==>
            Next(t, Deliver(yes)).calls[post.call].phase == Consumed(true))
  {
    RunKeepsOnePlace(events);
  }

  /** An accepted Issue leaves the nonce on the replica that issued it, until its time. */
  lemma IssueHolds(s: State, r: Replica, nonce: string, swept: int, now: int, ttl: int)
    requires nonce !in s.issued
    ensures var t := Next(s, Event.Issue(r, nonce, swept, now, ttl));
      |StoreOf(s, r)| < 4096 || |set k | k in StoreOf(s, r) && swept <= StoreOf(s, r)[k]| < 4096 ==>
        Held(t, r, nonce) && StoreOf(t, r)[nonce] == now + ttl && nonce in t.issued && t.issued[nonce] == now + ttl
  {
    assert Unexpired(StoreOf(s, r), swept).Keys == set k | k in StoreOf(s, r) && swept <= StoreOf(s, r)[k];
  }

  /** Nothing takes an unexpired nonce off its replica but a Consume of it there, or a restart of that pod. */
  lemma HeldStays(s: State, e: Event, r: Replica, x: string)
    requires Held(s, r, x) && x in s.issued
    requires e.Issue? ==> e.swept <= StoreOf(s, r)[x]
    requires e.ConsumeLocal? && e.a in s.calls ==> !(s.calls[e.a].home == r && s.calls[e.a].nonce == x)
    requires e.Execute? && e.post.call in s.calls ==> !(e.post.peer == r && s.calls[e.post.call].nonce == x)
    requires e != Restart(r)
    ensures Held(Next(s, e), r, x) && StoreOf(Next(s, e), r)[x] == StoreOf(s, r)[x]
  {
  }

  /** consumeNonce answers false once the last peer has said no, or has not been reached, and at once when
      there is no peer. */
  lemma LoopEnds(s: State, a: CallId, now: int)
    requires a in s.calls
    ensures s.calls[a].phase == Start && !Held(s, s.calls[a].home, s.calls[a].nonce) ==>
              Next(s, ConsumeLocal(a, now, [])).calls[a].phase == Consumed(false)
    ensures s.calls[a].phase.Asking? && s.calls[a].phase.at + 1 == |s.calls[a].phase.peers| ==>
              && Next(s, GiveUp(a)).calls[a].phase == Consumed(false)
              && (Reply(a, s.calls[a].phase.at, false) in s.replies ==>
                    Next(s, Deliver(Reply(a, s.calls[a].phase.at, false))).calls[a].phase == Consumed(false))
  {
  }

  /** A restart loses that pod's nonces and its unfinished calls, and nothing of any other pod. */
  lemma RestartIs(s: State, r: Replica, q: Replica, a: CallId)
    ensures var t := Next(s, Restart(r));
      && StoreOf(t, q) == (if q == r then map[] else StoreOf(s, q))
      && (a in t.calls <==> a in s.calls)
      && (a in s.calls && (s.calls[a].home != r || s.calls[a].phase.Returned?) ==> t.calls[a] == s.calls[a])
      && (a in s.calls && s.calls[a].home == r && !s.calls[a].phase.Returned? ==> t.calls[a].phase.Crashed?)
  {
  }

  function RunOn(s: State, events: seq<Event>): State
    decreases |events|
  {
    if events == [] then s else RunOn(Next(s, events[0]), events[1..])
  }

  lemma {:induction false} RunOnIsRun(before: seq<Event>, events: seq<Event>)
    ensures RunOn(Run(before), events) == Run(before + events)
    decreases |events|
  {
    hide Next;
    if events == [] {
      assert before + events == before;
    } else {
      assert (before + [events[0]])[..|before|] == before;
      RunOnIsRun(before + [events[0]], events[1..]);
      assert before + [events[0]] + events[1..] == before + events;
    }
  }

  /** The consumeViaPeers loop undisturbed, from peer `at` to peer k: each asked, each answering, all of
      them no but the last. */
  function AskEach(a: CallId, peers: seq<Replica>, at: nat, k: nat, now: int): seq<Event>
    requires k < |peers|
    decreases k - at
  {
    if at > k then []
    else [Send(a), Execute(Post(a, at, peers[at]), now), Deliver(Reply(a, at, at == k))] + AskEach(a, peers, at + 1, k, now)
  }

  lemma RunOnThree(s: State, e0: Event, e1: Event, e2: Event, rest: seq<Event>)
    ensures RunOn(s, [e0, e1, e2] + rest) == RunOn(Next(Next(Next(s, e0), e1), e2), rest)
  {
    hide Next;
    var all := [e0, e1, e2] + rest;
    assert all[1..] == [e1, e2] + rest;
    assert RunOn(s, all) == RunOn(Next(s, e0), [e1, e2] + rest);
    assert ([e1, e2] + rest)[1..] == [e2] + rest;
    assert RunOn(Next(s, e0), [e1, e2] + rest) == RunOn(Next(Next(s, e0), e1), [e2] + rest);
    assert ([e2] + rest)[1..] == rest;
  }

  /** A call waiting on peer `at`, whose nonce waits unexpired on peer k and on no one before it. */
  predicate Waits(s: State, a: CallId, peers: seq<Replica>, at: nat, k: nat, now: int) {
    && at <= k < |peers|
    && a in s.calls && s.calls[a].phase == Asking(peers, at)
    && Consumes(StoreOf(s, peers[k]), s.calls[a].nonce, now)
    && forall i :: at <= i < k ==> s.calls[a].nonce !in StoreOf(s, peers[i])
  }

  lemma AskOne(s: State, a: CallId, peers: seq<Replica>, at: nat, k: nat, now: int)
    requires Waits(s, a, peers, at, k, now)
    ensures var t := Next(Next(Next(s, Send(a)), Execute(Post(a, at, peers[at]), now)), Deliver(Reply(a, at, at == k)));
      && a in t.calls && t.calls[a] == s.calls[a].(phase := if at == k then Consumed(true) else Asking(peers, at + 1))
      && (at < k ==> Waits(t, a, peers, at + 1, k, now))
  {
    var s1 := Next(s, Send(a));
    var s2 := Next(s1, Execute(Post(a, at, peers[at]), now));
    assert Reply(a, at, at == k) in s2.replies;
    if at < k {
      assert peers[at] != peers[k];
      forall i | at <= i <= k ensures s.calls[a].nonce in StoreOf(s2, peers[i]) <==> s.calls[a].nonce in StoreOf(s, peers[i]) {}
    }
  }

  lemma {:induction false} AskedInTurn(s: State, a: CallId, peers: seq<Replica>, at: nat, k: nat, now: int)
    requires at <= k < |peers| && a in s.calls && Waits(s, a, peers, at, k, now)
    ensures var t := RunOn(s, AskEach(a, peers, at, k, now));
      a in t.calls && t.calls[a] == s.calls[a].(phase := Consumed(true))
    decreases k - at
  {
    hide Next, Waits;
    var e0, e1, e2 := Send(a), Execute(Post(a, at, peers[at]), now), Deliver(Reply(a, at, at == k));
    RunOnThree(s, e0, e1, e2, AskEach(a, peers, at + 1, k, now));
    AskOne(s, a, peers, at, k, now);
    if at < k {
      AskedInTurn(Next(Next(Next(s, e0), e1), e2), a, peers, at + 1, k, now);
    }
  }

  /** One whole login: the call begins on a pod, tries its own store, asks the peers up to the one that
      issued the nonce (or none, when that is the pod itself), and checks the signature. */
  function Login(a: CallId, c: Call, peers: seq<Replica>, k: nat, now: int, resolve: string -> Option<Known>, own: bool): seq<Event>
    requires k < |peers|
  {
    [Begin(a, c.home, c.fingerprint, c.nonce, c.sig), ConsumeLocal(a, now, peers)]
    + (if own then [] else AskEach(a, peers, 0, k, now))
    + [Conclude(a, resolve)]
  }

  /** In every run, whatever else is in flight: a nonce outstanding anywhere, presented in time to any pod
      that reaches its issuer, with a signature over it by the key registered under the fingerprint,
      authenticates that key's user. */
  lemma PromptLogin(events: seq<Event>, a: CallId, c: Call, peers: seq<Replica>, k: nat, now: int,
                    resolve: string -> Option<Known>, known: Known)
    requires a !in Run(events).calls && k < |peers|
    requires Held(Run(events), c.home, c.nonce) || Held(Run(events), peers[k], c.nonce)
    requires forall i :: 0 <= i < k ==> peers[i] != peers[k]
    requires c.nonce in Run(events).issued && now <= Run(events).issued[c.nonce]
    requires resolve(c.fingerprint) == Some(known) && known.fingerprint == c.fingerprint
    requires c.sig == Signed(known.key, Challenge(c.nonce))
    ensures var t := Run(events + Login(a, c, peers, k, now, resolve, Held(Run(events), c.home, c.nonce)));
      a in t.calls && t.calls[a].phase == Returned(true, Some(known.user))
  {
    hide Next, OnePlace, AskEach;
    RunKeepsOnePlace(events);
    var s := Run(events);
    var own := Held(s, c.home, c.nonce);
    LoginConsumes(s, a, c, peers, k, now, own);
    var s2 := Next(Next(s, Begin(a, c.home, c.fingerprint, c.nonce, c.sig)), ConsumeLocal(a, now, peers));
    ConcludesWith(RunOn(s2, if own then [] else AskEach(a, peers, 0, k, now)), a, resolve, known);
    LoginRuns(s, a, c, peers, k, now, resolve, own);
    RunOnIsRun(events, Login(a, c, peers, k, now, resolve, own));
  }

  /** The call, once consumeNonce has answered it. */
  lemma LoginConsumes(s: State, a: CallId, c: Call, peers: seq<Replica>, k: nat, now: int, own: bool)
    requires OnePlace(s) && a !in s.calls && k < |peers| && own == Held(s, c.home, c.nonce)
    requires own || Held(s, peers[k], c.nonce)
    requires forall i :: 0 <= i < k ==> peers[i] != peers[k]
    requires c.nonce in s.issued && now <= s.issued[c.nonce]
    ensures var s2 := Next(Next(s, Begin(a, c.home, c.fingerprint, c.nonce, c.sig)), ConsumeLocal(a, now, peers));
      var t := RunOn(s2, if own then [] else AskEach(a, peers, 0, k, now));
      a in t.calls && t.calls[a] == c.(phase := Consumed(true))
  {
    if !own {
      StartsWaiting(s, a, c, peers, k, now);
      AskedInTurn(Next(Next(s, Begin(a, c.home, c.fingerprint, c.nonce, c.sig)), ConsumeLocal(a, now, peers)), a, peers, 0, k, now);
    }
  }

  lemma ConcludesWith(s: State, a: CallId, resolve: string -> Option<Known>, known: Known)
    requires a in s.calls && s.calls[a].phase == Consumed(true)
    requires resolve(s.calls[a].fingerprint) == Some(known) && known.fingerprint == s.calls[a].fingerprint
    requires s.calls[a].sig == Signed(known.key, Challenge(s.calls[a].nonce))
    ensures var t := Next(s, Conclude(a, resolve)); a in t.calls && t.calls[a].phase == Returned(true, Some(known.user))
  {
  }

  lemma StartsWaiting(s: State, a: CallId, c: Call, peers: seq<Replica>, k: nat, now: int)
    requires OnePlace(s) && a !in s.calls && k < |peers| && Held(s, peers[k], c.nonce) && !Held(s, c.home, c.nonce)
    requires forall i :: 0 <= i < k ==> peers[i] != peers[k]
    requires now <= s.issued[c.nonce]
    ensures Waits(Next(Next(s, Begin(a, c.home, c.fingerprint, c.nonce, c.sig)), ConsumeLocal(a, now, peers)), a, peers, 0, k, now)
  {
    forall i | 0 <= i < k ensures c.nonce !in StoreOf(s, peers[i]) {
      assert !Held(s, peers[i], c.nonce);
    }
  }

  lemma {:induction false} RunOnConcat(s: State, xs: seq<Event>, ys: seq<Event>)
    ensures RunOn(s, xs + ys) == RunOn(RunOn(s, xs), ys)
    decreases |xs|
  {
    if xs == [] {
      assert xs + ys == ys;
    } else {
      assert (xs + ys)[1..] == xs[1..] + ys;
      RunOnConcat(Next(s, xs[0]), xs[1..], ys);
    }
  }

  lemma LoginRuns(s: State, a: CallId, c: Call, peers: seq<Replica>, k: nat, now: int, resolve: string -> Option<Known>, own: bool)
    requires k < |peers|
    ensures var s2 := Next(Next(s, Begin(a, c.home, c.fingerprint, c.nonce, c.sig)), ConsumeLocal(a, now, peers));
      var asked := if own then [] else AskEach(a, peers, 0, k, now);
      RunOn(s, Login(a, c, peers, k, now, resolve, own)) == Next(RunOn(s2, asked), Conclude(a, resolve))
  {
    hide Next, AskEach;
    var b, l, e := Begin(a, c.home, c.fingerprint, c.nonce, c.sig), ConsumeLocal(a, now, peers), Conclude(a, resolve);
    var asked := if own then [] else AskEach(a, peers, 0, k, now);
    assert Login(a, c, peers, k, now, resolve, own) == [b, l] + (asked + [e]);
    RunOnConcat(s, [b, l], asked + [e]);
    var s2 := Next(Next(s, b), l);
    assert [b, l][1..] == [l];
    assert RunOn(s, [b, l]) == RunOn(Next(s, b), [l]);
    assert RunOn(Next(s, b), [l]) == RunOn(s2, []);
    RunOnConcat(s2, asked, [e]);
    assert RunOn(RunOn(s2, asked), [e]) == RunOn(Next(RunOn(s2, asked), e), []);
  }
}
