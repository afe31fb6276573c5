/** internal/broker/challenge.go, one replica: the capped, lazily swept store of single-use nonces. */
module Challenge {
  import opened Wrappers

  const MAX_NONCES := 4096

  /** nonce -> expiry */
  type Nonces = map<string, int>

  /** The entries whose expiry the clock has not passed. */
  function Unexpired(n: Nonces, now: int): Nonces {
    map k | k in n && now <= n[k] :: n[k]
  }

  function Swept(n: Nonces, now: int): Nonces {
    if |n| >= MAX_NONCES then Unexpired(n, now) else n
  }

  predicate Refuses(n: Nonces, now: int) {
    |n| >= MAX_NONCES && |Unexpired(n, now)| >= MAX_NONCES
  }

  /** The store after Issue; the clock is read once for the sweep and once for the expiry. */
  function AfterIssue(n: Nonces, nonce: string, swept: int, now: int, ttl: int): Nonces {
    if Refuses(n, swept) then Swept(n, swept) else Swept(n, swept)[nonce := now + ttl]
  }

  predicate Consumes(n: Nonces, nonce: string, now: int) {
    nonce in n && now <= n[nonce]
  }

  /** Consuming removes the nonce whether or not it has expired. */
  function AfterConsume(n: Nonces, nonce: string): Nonces {
    n - {nonce}
  }

  class ChallengeStore {
    const ttl: int
    var n: Nonces

    constructor (ttl: int)
      ensures this.ttl == ttl && n == map[]
    {
      this.ttl := ttl;
      n := map[];
    }

    /** Records a fresh nonce, or refuses when the store is full of unexpired ones. */
    method Issue(nonce: string, swept: int, now: int) returns (ok: bool)
      modifies this
      ensures n == AfterIssue(old(n), nonce, swept, now, ttl)
      ensures ok <==> |old(n)| < 4096 || |set k | k in old(n) && swept <= old(n)[k]| < 4096
      ensures ok ==> nonce in n && n[nonce] == now + ttl
    {
      assert Unexpired(n, swept).Keys == set k | k in n && swept <= n[k];
      if |n| >= MAX_NONCES {
        var left := n.Keys;
        while left != {}
          invariant left <= old(n).Keys
          invariant n == map k | k in old(n) && (k in left || swept <= old(n)[k]) :: old(n)[k]
          decreases left
        {
          var k :| k in left;
          if swept > n[k] {
            n := n - {k};
          }
          left := left - {k};
        }
        assert n == Unexpired(old(n), swept);
        if |n| >= MAX_NONCES {
          return false;
        }
      }
      n := n[nonce := now + ttl];
      return true;
    }

    method Consume(nonce: string, now: int) returns (ok: bool)
      modifies this
      ensures n == old(n) - {nonce} == AfterConsume(old(n), nonce)
      ensures ok <==> nonce in old(n) && now <= old(n)[nonce]
    {
      if nonce !in n {
        return false;
      }
      ok := now <= n[nonce];
      n := n - {nonce};
    }
  }

  /** consumeNonce with every peer reachable and nothing else running: the local store first, then the
      peers in turn until one succeeds. It succeeds iff some store holds the nonce unexpired, and no
      store loses anything but the nonce. The peers may repeat, and may even include the local store. */
  method ConsumeNonce(home: ChallengeStore, peers: seq<ChallengeStore>, nonce: string, now: int) returns (ok: bool)
    modifies home, peers
    ensures ok <==> || (nonce in old(home.n) && now <= old(home.n)[nonce])
                    || exists i :: 0 <= i < |peers| && nonce in old(peers[i].n) && now <= old(peers[i].n)[nonce]
    ensures home.n == AfterConsume(old(home.n), nonce)
    ensures forall i :: 0 <= i < |peers| ==>
              peers[i].n == old(peers[i].n) || peers[i].n == AfterConsume(old(peers[i].n), nonce)
    ensures !ok ==> forall i :: 0 <= i < |peers| ==> nonce !in peers[i].n
  {
    ok := home.Consume(nonce, now);
    if ok {
      return;
    }
    for i := 0 to |peers|
      invariant home.n == AfterConsume(old(home.n), nonce)
      invariant forall j :: 0 <= j < |peers| ==>
        || peers[j].n == old(peers[j].n)
        || (peers[j].n == AfterConsume(old(peers[j].n), nonce) && !Consumes(old(peers[j].n), nonce, now))
      invariant forall j :: 0 <= j < i ==> nonce !in peers[j].n && !Consumes(old(peers[j].n), nonce, now)
    {
      ok := peers[i].Consume(nonce, now);
      if ok {
        return;
      }
    }
    return false;
  }

  // ---------------------------------------------------------------- against a store that never sweeps

  datatype Op = Issue(nonce: string, swept: int, now: int) | Consume(nonce: string, now: int) {
    function Start(): int {
      if Issue? then swept else now
    }
  }

  /** The clock never goes back, within an operation or between two. */
  predicate ClockOk(ops: seq<Op>) {
    && (forall i :: 0 <= i < |ops| ==> ops[i].Start() <= ops[i].now)
    && forall i, j :: 0 <= i < j < |ops| ==> ops[i].now <= ops[j].Start()
  }

  /** The store, the ideal one beside it (which keeps every accepted nonce until it is consumed, and
      has no bound), and both answers to the last operation. */
  datatype Pair = Pair(store: Nonces, ideal: Nonces, answer: bool, idealAnswer: bool)

  function StepBoth(p: Pair, op: Op, ttl: int): Pair {
    match op
    case Issue(nonce, swept, now) =>
      var ok := !Refuses(p.store, swept);
      Pair(AfterIssue(p.store, nonce, swept, now, ttl), if ok then p.ideal[nonce := now + ttl] else p.ideal,
           ok, |Unexpired(p.ideal, swept)| < MAX_NONCES)
    case Consume(nonce, now) =>
      Pair(AfterConsume(p.store, nonce), AfterConsume(p.ideal, nonce),
           Consumes(p.store, nonce, now), Consumes(p.ideal, nonce, now))
  }

  function RunBoth(ops: seq<Op>, ttl: int): Pair {
    if ops == [] then Pair(map[], map[], true, true) else StepBoth(RunBoth(ops[..|ops| - 1], ttl), ops[|ops| - 1], ttl)
  }

  /** What a sweep may drop: the store is the ideal one but for entries already expired. */
  predicate Refines(store: Nonces, ideal: Nonces, now: int) {
    && |store| <= MAX_NONCES
    && (forall k :: k in store ==> k in ideal && store[k] == ideal[k])
    && forall k :: k in ideal && k !in store ==> ideal[k] < now
  }

  lemma SameUnexpired(store: Nonces, ideal: Nonces, now: int, later: int)
    requires Refines(store, ideal, now) && now <= later
    ensures Unexpired(store, later) == Unexpired(ideal, later)
  {
  }

  lemma UnexpiredSmaller(n: Nonces, now: int)
    ensures |Unexpired(n, now)| <= |n|
  {
    SubsetSize(Unexpired(n, now).Keys, n.Keys);
  }

  lemma {:induction false} SubsetSize(a: set<string>, b: set<string>)
    requires a <= b
    ensures |a| <= |b|
  {
    if a != {} {
      var x :| x in a;
      SubsetSize(a - {x}, b - {x});
    }
  }

  lemma StepRefines(p: Pair, op: Op, ttl: int, now: int)
    requires Refines(p.store, p.ideal, now) && now <= op.Start() <= op.now
    ensures var q := StepBoth(p, op, ttl);
      Refines(q.store, q.ideal, op.now) && q.answer == q.idealAnswer
  {
    var q := StepBoth(p, op, ttl);
    SameUnexpired(p.store, p.ideal, now, op.Start());
    UnexpiredSmaller(p.store, op.Start());
    match op {
      case Issue(nonce, swept, t) =>
        var m := Swept(p.store, swept);
        assert |m[nonce := t + ttl].Keys| <= |m.Keys| + 1;
        assert !Refuses(p.store, swept) ==> |m| < MAX_NONCES;
      case Consume(nonce, t) =>
        SubsetSize(q.store.Keys, p.store.Keys);
    }
  }

  /** Over any run with a clock that never goes back: the store never exceeds its bound, every Consume
      answers as the never-sweeping store would, and Issue refuses exactly when that store holds at
      least MAX_NONCES unexpired nonces. */
  lemma {:induction false} RunRefines(ops: seq<Op>, ttl: int, now: int)
    requires ClockOk(ops) && (ops != [] ==> now == ops[|ops| - 1].now)
    ensures var p := RunBoth(ops, ttl);
      Refines(p.store, p.ideal, now) && p.answer == p.idealAnswer
  {
    if ops != [] {
      var front, op := ops[..|ops| - 1], ops[|ops| - 1];
      var before := if front == [] then op.Start() else front[|front| - 1].now;
      RunRefines(front, ttl, before);
      StepRefines(RunBoth(front, ttl), op, ttl, before);
    }
  }

  // ---------------------------------------------------------------- when a nonce is accepted

  /** The answer to the operation at position j. */
  function Answer(ops: seq<Op>, j: nat, ttl: int): bool
    requires j < |ops|
  {
    RunBoth(ops[..j + 1], ttl).answer
  }

  /** The operation at position k settles what becomes of x: a Consume of it, or an Issue that recorded it. */
  predicate Settles(ops: seq<Op>, k: nat, x: string, ttl: int)
    requires k < |ops|
  {
    ops[k].nonce == x && (ops[k].Consume? || Answer(ops, k, ttl))
  }

  /** x was last recorded at position i of the first n operations, and nothing consumed it since. */
  predicate Outstanding(ops: seq<Op>, i: nat, n: nat, x: string, ttl: int)
    requires n <= |ops|
  {
    && i < n && ops[i].Issue? && Settles(ops, i, x, ttl)
    && forall k :: i < k < n ==> !Settles(ops, k, x, ttl)
  }

  lemma RunSnoc(ops: seq<Op>, n: nat, ttl: int)
    requires n < |ops|
    ensures RunBoth(ops[..n + 1], ttl) == StepBoth(RunBoth(ops[..n], ttl), ops[n], ttl)
    ensures ops[n].Issue? ==> Answer(ops, n, ttl) == !Refuses(RunBoth(ops[..n], ttl).store, ops[n].swept)
  {
    assert ops[..n + 1][..n] == ops[..n];
  }

  lemma IdealStep(ops: seq<Op>, n: nat, x: string, ttl: int)
    requires n < |ops|
    ensures var before, after := RunBoth(ops[..n], ttl).ideal, RunBoth(ops[..n + 1], ttl).ideal;
      if !Settles(ops, n, x, ttl) then (x in after <==> x in before) && (x in after ==> after[x] == before[x])
      else if ops[n].Issue? then x in after && after[x] == ops[n].now + ttl
      else x !in after
  {
    RunSnoc(ops, n, ttl);
  }

  lemma OutstandingStep(ops: seq<Op>, i: nat, n: nat, x: string, ttl: int)
    requires n < |ops|
    ensures var m := n + 1;
      Outstanding(ops, i, m, x, ttl) <==> if Settles(ops, n, x, ttl) then i == n && ops[n].Issue? else Outstanding(ops, i, n, x, ttl)
  {
    hide Settles;
  }

  lemma {:induction false} IdealHolds(ops: seq<Op>, n: nat, x: string, ttl: int)
    requires n <= |ops|
    ensures x in RunBoth(ops[..n], ttl).ideal <==> exists i: nat :: Outstanding(ops, i, n, x, ttl)
    ensures forall i: nat :: Outstanding(ops, i, n, x, ttl) ==>
              x in RunBoth(ops[..n], ttl).ideal && RunBoth(ops[..n], ttl).ideal[x] == ops[i].now + ttl
  {
    if n > 0 {
      var m := n - 1;
      IdealHolds(ops, m, x, ttl);
      IdealStep(ops, m, x, ttl);
      forall i: nat
        ensures Outstanding(ops, i, n, x, ttl)
           <==> if Settles(ops, m, x, ttl) then i == m && ops[m].Issue? else Outstanding(ops, i, m, x, ttl)
      {
        OutstandingStep(ops, i, m, x, ttl);
      }
      hide RunBoth, Settles, Outstanding;
      if Settles(ops, m, x, ttl) && ops[m].Issue? { assert Outstanding(ops, m, n, x, ttl); }
    }
  }

  lemma ClockOkPrefix(ops: seq<Op>, n: nat)
    requires ClockOk(ops) && n <= |ops|
    ensures ClockOk(ops[..n])
  {
  }

  /** Exactly when a nonce is accepted, in any run with a clock that never goes back, sweeps and refusals
      included: it was recorded, was not presented since, and its time is not over - the last instant
      still counts. */
  lemma ConsumeExact(ops: seq<Op>, j: nat, ttl: int)
    requires ClockOk(ops) && j < |ops| && ops[j].Consume?
    ensures Answer(ops, j, ttl)
       <==> exists i: nat :: Outstanding(ops, i, j, ops[j].nonce, ttl) && ops[j].now <= ops[i].now + ttl
  {
    var x := ops[j].nonce;
    ClockOkPrefix(ops, j + 1);
    RunRefines(ops[..j + 1], ttl, ops[j].now);
    RunSnoc(ops, j, ttl);
    IdealHolds(ops, j, x, ttl);
    assert Answer(ops, j, ttl) <==> x in RunBoth(ops[..j], ttl).ideal && ops[j].now <= RunBoth(ops[..j], ttl).ideal[x];
  }
}
