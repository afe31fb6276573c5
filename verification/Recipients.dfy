/** internal/broker/recipient_registry.go: per-replica recipient registrations and their fan-out. */
module Recipients {
  import opened Wrappers

  type Replica = nat

  datatype RegKey = RegKey(project: string, env: string)

  datatype RecipientEntry = RecipientEntry(recipient: string, cluster: string, namespace: string, minLevel: int)

  type Soft = map<RegKey, RecipientEntry>

  datatype Request = Request(project: string, env: string, entry: RecipientEntry) {
    function Key(): RegKey {
      RegKey(project, env)
    }

    /** The fields the handler insists on. */
    predicate Complete() {
      project != "" && env != "" && entry.recipient != ""
    }
  }

  function ForProjectOf(m: Soft, project: string): map<string, RecipientEntry> {
    map k | k in m && k.project == project :: k.env := m[k]
  }

  class RecipientRegistry {
    var m: Soft

    constructor ()
      ensures m == map[]
    {
      m := map[];
    }

    method Set(project: string, env: string, e: RecipientEntry)
      modifies this
      ensures m == old(m)[RegKey(project, env) := e]
    {
      m := m[RegKey(project, env) := e];
    }

    /** The registered envs of one project. */
    method ForProject(project: string) returns (out: map<string, RecipientEntry>)
      ensures out == ForProjectOf(m, project)
    {
      out := map[];
      var left := m.Keys;
      while left != {}
        invariant left <= m.Keys
        invariant forall env :: env in out <==> RegKey(project, env) in m && RegKey(project, env) !in left
        invariant forall env :: env in out ==> out[env] == m[RegKey(project, env)]
        decreases left
      {
        var k :| k in left;
        if k.project == project {
          out := out[k.env := m[k]];
        }
        left := left - {k};
      }
      assert forall env :: env in ForProjectOf(m, project) <==> RegKey(project, env) in m;
    }
  }

  // ---------------------------------------------------------------- the handler

  /** The status of a registration request; 200 stores it. */
  function Status(registerToken: string, isPost: bool, presented: string, body: Option<Request>): (status: int)
    ensures status in {200, 400, 401, 405, 503}
    ensures status == 200 <==> && registerToken != "" && isPost && presented == registerToken && body.Some?
                               && body.value.project != "" && body.value.env != "" && body.value.entry.recipient != ""
    ensures status == 503 <==> registerToken == ""
    ensures status == 405 <==> registerToken != "" && !isPost
    ensures status == 401 <==> registerToken != "" && isPost && presented != registerToken
  {
    if registerToken == "" then 503
    else if !isPost then 405
    else if presented != registerToken then 401
    else if body.None? then 400
    else if !body.value.Complete() then 400
    else 200
  }

  /** A forward in flight; `forwarded` is whether it carries the X-Seald-Forwarded header. */
  datatype Msg = Msg(to: Replica, req: Request, forwarded: bool)

  /** What fanOutRegistration sends. */
  function Forwards(req: Request, peers: seq<Replica>): seq<Msg> {
    seq(|peers|, i requires 0 <= i < |peers| => Msg(peers[i], req, true))
  }

  /** What an authorized POST does to the replica it reaches, whoever sent it: the registry after it, and
      the messages it sends. */
  function Handled(m: Soft, req: Request, forwarded: bool, peers: seq<Replica>): (Soft, seq<Msg>) {
    if !req.Complete() then (m, [])
    else (m[req.Key() := req.entry], if forwarded then [] else Forwards(req, peers))
  }

  method HandleRecipientRegister(rr: RecipientRegistry, registerToken: string, isPost: bool, presented: string,
                                 body: Option<Request>, forwarded: bool, peers: seq<Replica>)
    returns (status: int, sent: seq<Msg>)
    modifies rr
    ensures status == Status(registerToken, isPost, presented, body)
    ensures status == 200 ==> (rr.m, sent) == Handled(old(rr.m), body.value, forwarded, peers)
    ensures rr.m != old(rr.m) || sent != [] ==> registerToken != "" && isPost && presented == registerToken
    ensures status == 200 ==> rr.m == old(rr.m)[RegKey(body.value.project, body.value.env) := body.value.entry]
    ensures status == 200 && !forwarded ==> sent == seq(|peers|, i requires 0 <= i < |peers| => Msg(peers[i], body.value, true))
    ensures forwarded || status != 200 ==> sent == []
    ensures status != 200 ==> rr.m == old(rr.m)
  {
    status, sent := Status(registerToken, isPost, presented, body), [];
    if status != 200 {
      return;
    }
    rr.Set(body.value.project, body.value.env, body.value.entry);
    if !forwarded {
      for i := 0 to |peers|
        invariant sent == Forwards(body.value, peers[..i])
      {
        assert peers[..i + 1] == peers[..i] + [peers[i]];
        sent := sent + [Msg(peers[i], body.value, true)];
      }
      assert peers[..|peers|] == peers;
    }
  }

  // ---------------------------------------------------------------- all replicas

  datatype State = State(regs: map<Replica, Soft>, net: multiset<Msg>, posted: set<Request>, sent: nat)

  /** `Register` is an authorized request from outside, `forwarded` when it carries the loop-breaking
      header; `Deliver` is a message in flight reaching its peer, which runs the same handler on it, with
      the peers it would fan out to; `Lose` is one that never arrives, or is refused. */
  datatype Event =
    | Register(r: Replica, req: Request, forwarded: bool, peers: seq<Replica>)
    | Deliver(msg: Msg, peers: seq<Replica>)
    | Lose(msg: Msg)
    | Restart(r: Replica)

  function RegOf(s: State, r: Replica): Soft {
    if r in s.regs then s.regs[r] else map[]
  }

  /** A replica handles a request, and what it sends is in flight. */
  function Handle(s: State, r: Replica, req: Request, forwarded: bool, peers: seq<Replica>): State {
    var (m, out) := Handled(RegOf(s, r), req, forwarded, peers);
    s.(regs := s.regs[r := m], net := s.net + multiset(out), sent := s.sent + |out|)
  }

  function Next(s: State, e: Event): State {
    match e
    case Register(r, req, forwarded, peers) => Handle(s, r, req, forwarded, peers).(posted := s.posted + {req})
    case Deliver(msg, peers) =>
      if msg in s.net then Handle(s.(net := s.net - multiset{msg}), msg.to, msg.req, msg.forwarded, peers) else s
    case Lose(msg) => s.(net := s.net - multiset{msg})
    case Restart(r) => s.(regs := s.regs[r := map[]])
  }

  function RunFrom(s: State, events: seq<Event>): State {
    if events == [] then s else Next(RunFrom(s, events[..|events| - 1]), events[|events| - 1])
  }

  const Empty := State(map[], multiset{}, {}, 0)

  /** Everything stored or in flight was posted by a client, to some replica. */
  ghost predicate Posted(s: State) {
    && (forall m :: m in s.net ==> m.req in s.posted)
    && (forall r, k :: k in RegOf(s, r) ==> Request(k.project, k.env, RegOf(s, r)[k]) in s.posted)
  }

  /** The registrations clients made. */
  function ClientPosts(events: seq<Event>): set<Request> {
    if events == [] then {}
    else ClientPosts(events[..|events| - 1])
         + if events[|events| - 1].Register? then {events[|events| - 1].req} else {}
  }

  lemma NetGrows(s: State, e: Event, m: Msg)
    requires m in Next(s, e).net
    ensures m in s.net || (e.Register? && m.req == e.req) || (e.Deliver? && e.msg in s.net && m.req == e.msg.req)
    ensures m in s.net || m.forwarded
  {
    if m !in s.net {
      if e.Register? {
        assert m in Forwards(e.req, e.peers);
      } else {
        assert m in Forwards(e.msg.req, e.peers);
      }
    }
  }

  lemma PostedGrows(s: State, e: Event)
    ensures Next(s, e).posted == s.posted + if e.Register? then {e.req} else {}
  {
  }

  lemma PostedStep(s: State, e: Event)
    requires Posted(s)
    ensures Posted(Next(s, e))
    ensures Next(s, e).posted == s.posted + if e.Register? then {e.req} else {}
  {
    hide Next;
    PostedGrows(s, e);
    var t := Next(s, e);
    forall m | m in t.net ensures m.req in t.posted { NetGrows(s, e, m); }
    forall r, k | k in RegOf(t, r) ensures Request(k.project, k.env, RegOf(t, r)[k]) in t.posted {
      RegGrows(s, e, r, k);
    }
  }

  /** An entry is changed only by the registration or forward that carries it. */
  lemma RegGrows(s: State, e: Event, r: Replica, k: RegKey)
    requires k in RegOf(Next(s, e), r)
    ensures var entry := RegOf(Next(s, e), r)[k];
      || (k in RegOf(s, r) && RegOf(s, r)[k] == entry)
      || (e.Register? && e.req == Request(k.project, k.env, entry))
      || (e.Deliver? && e.msg in s.net && e.msg.req == Request(k.project, k.env, entry))
  {
  }

  /** In every run, each replica's entry for a project and env is one some client registered for it. */
  lemma {:induction false} EntriesWerePosted(events: seq<Event>)
    ensures Posted(RunFrom(Empty, events))
    ensures RunFrom(Empty, events).posted == ClientPosts(events)
  {
    if events != [] {
      var front, e := events[..|events| - 1], events[|events| - 1];
      EntriesWerePosted(front);
      PostedStep(RunFrom(Empty, front), e);
    }
  }

  /** The positions of the registrations that come without the header. */
  function Originals(events: seq<Event>): set<nat> {
    set i: nat | i < |events| && events[i].Register? && !events[i].forwarded
  }

  lemma OriginalsSnoc(front: seq<Event>, e: Event)
    ensures |Originals(front + [e])| == |Originals(front)| + if e.Register? && !e.forwarded then 1 else 0
  {
    var all := front + [e];
    if e.Register? && !e.forwarded {
      assert Originals(all) == Originals(front) + {|front|};
    } else {
      assert Originals(all) == Originals(front);
    }
  }

  /** Every message in flight carries the header. */
  predicate AllMarked(s: State) {
    forall m :: m in s.net ==> m.forwarded
  }

  lemma MarkedStep(s: State, e: Event)
    requires AllMarked(s)
    ensures AllMarked(Next(s, e))
  {
    forall m | m in Next(s, e).net ensures m.forwarded { NetGrows(s, e, m); }
  }

  /** While every message in flight is marked, only an original registration sends. */
  lemma SentStep(s: State, e: Event)
    requires AllMarked(s)
    ensures Next(s, e).sent <= s.sent + if e.Register? && !e.forwarded then |e.peers| else 0
    ensures |s.net| <= s.sent ==> |Next(s, e).net| <= Next(s, e).sent
  {
    if e.Register? {
      var (_, out) := Handled(RegOf(s, e.r), e.req, e.forwarded, e.peers);
      assert |multiset(out)| == |out|;
    }
  }

  lemma OneMore(n: nat, most: nat)
    ensures (n + 1) * most == n * most + most
  {
  }

  /** Forwards never spawn forwards, because every one of them carries the header: with at most `most`
      peers at each original registration, a run sends at most that many forwards for each. */
  lemma {:induction false} ForwardsBounded(events: seq<Event>, most: nat)
    requires forall i :: 0 <= i < |events| && events[i].Register? ==> |events[i].peers| <= most
    ensures AllMarked(RunFrom(Empty, events))
    ensures RunFrom(Empty, events).sent <= |set i: nat | i < |events| && events[i].Register? && !events[i].forwarded| * most
    ensures |RunFrom(Empty, events).net| <= RunFrom(Empty, events).sent
  {
    hide Next;
    if events != [] {
      var front, e := events[..|events| - 1], events[|events| - 1];
      ForwardsBounded(front, most);
      MarkedStep(RunFrom(Empty, front), e);
      SentStep(RunFrom(Empty, front), e);
      OriginalsSnoc(front, e);
      assert front + [e] == events;
      assert |Originals(front + [e])| == |set i: nat | i < |events| && events[i].Register? && !events[i].forwarded|;
      OneMore(|Originals(front)|, most);
    }
  }

  /** The header is what breaks the loop: one unmarked message is forwarded to every peer it reaches. */
  lemma UnmarkedSpawns(s: State, msg: Msg, peers: seq<Replica>)
    requires msg in s.net && !msg.forwarded && msg.req.Complete()
    ensures Next(s, Deliver(msg, peers)).sent == s.sent + |peers|
  {
  }

  // ---------------------------------------------------------------- convergence

  predicate Quiet(s: State, k: RegKey) {
    forall m :: m in s.net ==> m.req.Key() != k
  }

  /** Nothing interferes with the key: no other registration of it, no forward of it lost, no replica
      of the set restarted. */
  predicate Undisturbed(e: Event, k: RegKey, replicas: set<Replica>) {
    match e
    case Register(_, req, _, _) => req.Key() != k
    case Lose(msg) => msg.req.Key() != k
    case Restart(r) => r !in replicas
    case Deliver(_, _) => true
  }

  predicate Has(s: State, r: Replica, req: Request) {
    req.Key() in RegOf(s, r) && RegOf(s, r)[req.Key()] == req.entry
  }

  /** Each replica has the entry or a forward of it on the way, and nothing else about the key is. */
  predicate Spreading(s: State, req: Request, replicas: set<Replica>) {
    && (forall m :: m in s.net && m.req.Key() == req.Key() ==> m.req == req)
    && forall r :: r in replicas ==>
         Has(s, r, req) || Msg(r, req, true) in s.net
  }

  lemma RegisterSpreads(s: State, r: Replica, req: Request, peers: seq<Replica>, replicas: set<Replica>)
    requires Quiet(s, req.Key()) && req.Complete()
    requires forall q :: q in replicas ==> q == r || q in peers
    ensures Spreading(Next(s, Register(r, req, false, peers)), req, replicas)
  {
    var t := Next(s, Register(r, req, false, peers));
    forall m | m in t.net && m.req.Key() == req.Key() ensures m.req == req {
      assert m in Forwards(req, peers);
    }
    forall q | q in replicas && q != r ensures Msg(q, req, true) in t.net {
      var i :| 0 <= i < |peers| && peers[i] == q;
      assert Forwards(req, peers)[i] == Msg(q, req, true);
    }
  }

  lemma DeliverStep(s: State, msg: Msg, peers: seq<Replica>, req: Request, r: Replica)
    requires msg in s.net && req.Complete() && (msg.req.Key() == req.Key() ==> msg.req == req)
    ensures Has(s, r, req) ==> Has(Next(s, Deliver(msg, peers)), r, req)
    ensures Msg(r, req, true) in s.net ==>
              Has(Next(s, Deliver(msg, peers)), r, req) || Msg(r, req, true) in Next(s, Deliver(msg, peers)).net
  {
  }

  lemma ReplicaStep(s: State, e: Event, req: Request, replicas: set<Replica>, r: Replica)
    requires req.Complete() && Spreading(s, req, replicas) && Undisturbed(e, req.Key(), replicas) && r in replicas
    ensures Has(Next(s, e), r, req) || Msg(r, req, true) in Next(s, e).net
  {
    if e.Deliver? {
      if e.msg in s.net { DeliverStep(s, e.msg, e.peers, req, r); }
    } else if !Has(s, r, req) {
      assert Msg(r, req, true) in s.net;
    }
  }

  lemma SpreadingStep(s: State, e: Event, req: Request, replicas: set<Replica>)
    requires req.Complete() && Spreading(s, req, replicas) && Undisturbed(e, req.Key(), replicas)
    ensures Spreading(Next(s, e), req, replicas)
  {
    forall m | m in Next(s, e).net && m.req.Key() == req.Key() ensures m.req == req { NetGrows(s, e, m); }
    forall r | r in replicas ensures Has(Next(s, e), r, req) || Msg(r, req, true) in Next(s, e).net {
      ReplicaStep(s, e, req, replicas, r);
    }
  }

  /** From a state with nothing in flight for the key, one registration whose forwards go to every other
      replica, followed by any undisturbed events until nothing is in flight for it again, leaves every
      replica with that entry. */
  lemma {:induction false} Converges(s: State, r: Replica, req: Request, peers: seq<Replica>, replicas: set<Replica>,
                                     events: seq<Event>)
    requires Quiet(s, req.Key()) && req.Complete()
    requires forall q :: q in replicas ==> q == r || q in peers
    requires forall i :: 0 <= i < |events| ==> Undisturbed(events[i], req.Key(), replicas)
    ensures var t := RunFrom(Next(s, Register(r, req, false, peers)), events);
      && Spreading(t, req, replicas)
      && (Quiet(t, req.Key()) ==>
            forall q :: q in replicas ==> Has(t, q, req))
  {
    if events == [] {
      RegisterSpreads(s, r, req, peers, replicas);
    } else {
      Converges(s, r, req, peers, replicas, events[..|events| - 1]);
      SpreadingStep(RunFrom(Next(s, Register(r, req, false, peers)), events[..|events| - 1]),
                    events[|events| - 1], req, replicas);
    }
  }
}
