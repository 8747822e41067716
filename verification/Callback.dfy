/** From an issued assertion to a local session: the callback of every application, interleaved command by command with
    the login protocol of the Core. The network may lose, reorder, repeat or misdeliver any issued assertion. */
module Callback {
  import opened Wrappers
  import opened Redis
  import P = LoginProtocol
  import R = Replay

  type Tid = nat
  type Client = string

  datatype Settings = Settings(pendingTtl: int, tolerance: int, maxLifetime: int)

  /** A callback request: pending record consumed, assertion verified, jti claimed. state is what it presented, at when
      it verified. */
  datatype Thread =
    | Taken(client: Client, txn: string, state: string)
    | Verified(client: Client, txn: string, state: string, a: P.Assertion, at: int)
    | Claimed(client: Client, txn: string, state: string, a: P.Assertion, at: int)

  /** Not stored by the application: the state that the callback presented, and when it verified the assertion. */
  datatype LocalSession = LocalSession(client: Client, id: string, sub: string, sid: string, jti: string, txn: string,
                                       state: string, verifiedAt: int)

  /** started: every pending record an application ever wrote, with its state. taker: the request that consumed it.
      maker: for each local session, the request that created it. */
  datatype Apps = Apps(pending: Store<(Client, string), string>, claims: Store<(Client, string), ()>,
                       started: map<(Client, string), string>, taker: map<(Client, string), Tid>,
                       threads: map<Tid, Thread>, used: set<Tid>, sessions: seq<LocalSession>)

  datatype World = World(core: P.Core, apps: Apps)

  datatype Event =
    | AtCore(e: P.Event)
    | Start(client: Client, txn: string, state: string)
    | Take(tid: Tid, client: Client, txn: string, state: string)
    | Verify(tid: Tid, n: nat)
    | Claim(tid: Tid)
    | CreateSession(tid: Tid, id: string)

  const NO_APPS := Apps(map[], map[], map[], map[], map[], {}, [])

  /** What verifyLoginAssertion checks of a genuine Core token before it claims the jti. */
  predicate Accepts(x: Settings, client: Client, txn: string, a: P.Assertion, now: int) {
    && a.aud == Some(client) && R.Acceptable(a.exp, x.tolerance, now)
    && a.iat <= now / 1000 + x.tolerance && now / 1000 - a.iat <= x.maxLifetime + x.tolerance
    && a.exp - a.iat <= x.maxLifetime && a.txn == txn
  }

  /** /auth/core/start with a fresh random transaction id. */
  function Started(y: Apps, x: Settings, client: Client, txn: string, state: string, now: int): Apps {
    if (client, txn) in y.started then y
    else y.(pending := SetEx(y.pending, (client, txn), state, now, x.pendingTtl),
        started := y.started[(client, txn) := state])
  }

  /** GETDEL of the pending record, then the state comparison. */
  function TakenBy(y: Apps, tid: Tid, client: Client, txn: string, state: string, now: int): Apps {
    var k := (client, txn);
    if tid in y.used || !Live(y.pending, k, now) then y else
    var z := y.(pending := Del(y.pending, k), taker := y.taker[k := tid], used := y.used + {tid});
    if y.pending[k].value == state then z.(threads := z.threads[tid := Taken(client, txn, state)]) else z
  }

  function VerifiedBy(y: Apps, x: Settings, tid: Tid, a: P.Assertion, now: int): Apps
    requires tid in y.threads && y.threads[tid].Taken?
  {
    var t := y.threads[tid];
    if Accepts(x, t.client, t.txn, a, now)
      then y.(threads := y.threads[tid := Verified(t.client, t.txn, t.state, a, now)])
    else y.(threads := y.threads - {tid})
  }

  /** SET NX EX on the application's own jti key. */
  function ClaimedBy(y: Apps, x: Settings, tid: Tid, now: int): Apps
    requires tid in y.threads && y.threads[tid].Verified?
  {
    var t := y.threads[tid];
    var (m, first) := R.RedisClaim(y.claims, (t.client, t.a.jti), R.ClaimTtl(t.a.exp, x.tolerance, now), now);
    if first then y.(claims := m, threads := y.threads[tid := Claimed(t.client, t.txn, t.state, t.a, t.at)])
    else y.(threads := y.threads - {tid})
  }

  function SessionOf(t: Thread, id: string): LocalSession
    requires t.Claimed?
  {
    LocalSession(t.client, id, t.a.sub, t.a.sid, t.a.jti, t.a.txn, t.state, t.at)
  }

  function Created(y: Apps, tid: Tid, id: string): Apps
    requires tid in y.threads && y.threads[tid].Claimed?
  {
    y.(threads := y.threads - {tid}, sessions := y.sessions + [SessionOf(y.threads[tid], id)])
  }

  function AppStep(x: Settings, w: World, e: Event): Apps {
    var y, now := w.apps, w.core.now;
    match e
    case AtCore(_) => y
    case Start(client, txn, state) => Started(y, x, client, txn, state, now)
    case Take(tid, client, txn, state) => TakenBy(y, tid, client, txn, state, now)
    case Verify(tid, n) =>
      if tid in y.threads && y.threads[tid].Taken? && n < |w.core.issued|
        then VerifiedBy(y, x, tid, w.core.issued[n], now) else y
    case Claim(tid) => if tid in y.threads && y.threads[tid].Verified? then ClaimedBy(y, x, tid, now) else y
    case CreateSession(tid, id) => if tid in y.threads && y.threads[tid].Claimed? then Created(y, tid, id) else y
  }

  function Step(cfg: P.Config, x: Settings, w: World, e: Event): World {
    World(if e.AtCore? then P.Step(cfg, w.core, e.e) else w.core, AppStep(x, w, e))
  }

  function Run(cfg: P.Config, x: Settings, now: int, events: seq<Event>): World {
    if events == [] then World(P.Start(now), NO_APPS)
    else Step(cfg, x, Run(cfg, x, now, events[..|events| - 1]), events[|events| - 1])
  }

  // ---- the invariant ----

  /** The session carries exactly what assertion a says, and a was addressed to the session's application. */
  predicate Matches(s: LocalSession, a: P.Assertion) {
    a.aud == Some(s.client) && a.sub == s.sub && a.sid == s.sid && a.txn == s.txn && a.jti == s.jti
  }

  ghost predicate ThreadOk(y: Apps, issued: seq<P.Assertion>, tid: Tid)
    requires tid in y.threads
  {
    var t := y.threads[tid];
    && tid in y.used && (t.client, t.txn) in y.taker && y.taker[(t.client, t.txn)] == tid
    && (!t.Taken? ==> t.a in issued && t.a.aud == Some(t.client) && t.a.txn == t.txn)
  }

  ghost predicate SessionOk(y: Apps, issued: seq<P.Assertion>, s: LocalSession) {
    && (s.client, s.txn) in y.taker && y.taker[(s.client, s.txn)] !in y.threads
    && exists a :: a in issued && Matches(s, a)
  }

  /** Consumed records are gone and stay gone; each request consumes one; each consumed record makes one session. */
  ghost predicate Inv(y: Apps, issued: seq<P.Assertion>) {
    && (forall k :: k in y.pending ==> k in y.started && k !in y.taker)
    && (forall k :: k in y.taker ==> k in y.started && y.taker[k] in y.used)
    && (forall k, l :: k in y.taker && l in y.taker && y.taker[k] == y.taker[l] ==> k == l)
    && (forall tid :: tid in y.threads ==> ThreadOk(y, issued, tid))
    && (forall s :: s in y.sessions ==> SessionOk(y, issued, s))
    && (forall i, j :: 0 <= i < j < |y.sessions| ==>
         (y.sessions[i].client, y.sessions[i].txn) != (y.sessions[j].client, y.sessions[j].txn))
  }

  lemma IssuedPrefix(cfg: P.Config, c: P.Core, e: P.Event)
    ensures forall a :: a in c.issued ==> a in P.Step(cfg, c, e).issued
  {
  }

  lemma MoreIssued(y: Apps, before: seq<P.Assertion>, after: seq<P.Assertion>)
    requires Inv(y, before) && forall a :: a in before ==> a in after
    ensures Inv(y, after)
  {
    forall tid | tid in y.threads ensures ThreadOk(y, after, tid) { assert ThreadOk(y, before, tid); }
    forall s | s in y.sessions ensures SessionOk(y, after, s) {
      assert SessionOk(y, before, s);
      var a :| a in before && Matches(s, a);
    }
  }

  lemma TakeKeepsInv(y: Apps, issued: seq<P.Assertion>, tid: Tid, client: Client, txn: string, state: string, now: int)
    requires Inv(y, issued)
    ensures Inv(TakenBy(y, tid, client, txn, state, now), issued)
  {
    var k := (client, txn);
    if tid !in y.used && Live(y.pending, k, now) {
      var z := y.(pending := Del(y.pending, k), taker := y.taker[k := tid], used := y.used + {tid});
      ConsumeKeepsInv(y, z, issued, k, tid);
      if y.pending[k].value == state {
        var u := z.(threads := z.threads[tid := Taken(client, txn, state)]);
        forall t | t in u.threads ensures ThreadOk(u, issued, t) { if t != tid { assert ThreadOk(z, issued, t); } }
        forall s | s in u.sessions ensures SessionOk(u, issued, s) {
          assert SessionOk(y, issued, s) && SessionOk(z, issued, s);
          assert (s.client, s.txn) != k;
        }
      }
    }
  }

  lemma ConsumeKeepsInv(y: Apps, z: Apps, issued: seq<P.Assertion>, k: (Client, string), tid: Tid)
    requires Inv(y, issued) && tid !in y.used && k in y.pending
    requires z == y.(pending := Del(y.pending, k), taker := y.taker[k := tid], used := y.used + {tid})
    ensures Inv(z, issued)
  {
    forall t | t in z.threads ensures ThreadOk(z, issued, t) { assert ThreadOk(y, issued, t); }
    forall s | s in z.sessions ensures SessionOk(z, issued, s) { assert SessionOk(y, issued, s); }
  }

  /** Steps that only change one thread, from a request that consumed the same record. */
  lemma ThreadMoveKeepsInv(y: Apps, z: Apps, issued: seq<P.Assertion>, tid: Tid)
    requires Inv(y, issued) && tid in y.threads
    requires z == y.(threads := z.threads, claims := z.claims)
    requires z.threads == y.threads - {tid}
        || (tid in z.threads && z.threads == y.threads[tid := z.threads[tid]] && ThreadOk(z, issued, tid))
    ensures Inv(z, issued)
  {
    forall t | t in z.threads ensures ThreadOk(z, issued, t) { if t != tid { assert ThreadOk(y, issued, t); } }
    forall s | s in z.sessions ensures SessionOk(z, issued, s) { assert SessionOk(y, issued, s); }
  }

  lemma CreateKeepsInv(y: Apps, issued: seq<P.Assertion>, tid: Tid, id: string)
    requires Inv(y, issued) && tid in y.threads && y.threads[tid].Claimed?
    ensures Inv(Created(y, tid, id), issued)
  {
    var z := Created(y, tid, id);
    var made := SessionOf(y.threads[tid], id);
    assert ThreadOk(y, issued, tid);
    forall t | t in z.threads ensures ThreadOk(z, issued, t) { assert ThreadOk(y, issued, t); }
    assert SessionOk(z, issued, made) by { assert Matches(made, y.threads[tid].a); }
    forall s | s in y.sessions ensures SessionOk(z, issued, s) && (s.client, s.txn) != (made.client, made.txn) {
      assert SessionOk(y, issued, s);
    }
  }

  lemma StepKeepsInv(cfg: P.Config, x: Settings, w: World, e: Event)
    requires Inv(w.apps, w.core.issued)
    ensures Inv(Step(cfg, x, w, e).apps, Step(cfg, x, w, e).core.issued)
  {
    var y, issued := w.apps, w.core.issued;
    match e
    case AtCore(f) =>
      IssuedPrefix(cfg, w.core, f);
      MoreIssued(y, issued, P.Step(cfg, w.core, f).issued);
    case Start(client, txn, state) =>
      var z := Started(y, x, client, txn, state, w.core.now);
      forall t | t in z.threads ensures ThreadOk(z, issued, t) { assert ThreadOk(y, issued, t); }
      forall s | s in z.sessions ensures SessionOk(z, issued, s) { assert SessionOk(y, issued, s); }
    case Take(tid, client, txn, state) => TakeKeepsInv(y, issued, tid, client, txn, state, w.core.now);
    case Verify(tid, n) =>
      if tid in y.threads && y.threads[tid].Taken? && n < |issued| {
        assert ThreadOk(y, issued, tid);
        ThreadMoveKeepsInv(y, VerifiedBy(y, x, tid, issued[n], w.core.now), issued, tid);
      }
    case Claim(tid) =>
      if tid in y.threads && y.threads[tid].Verified? {
        assert ThreadOk(y, issued, tid);
        ThreadMoveKeepsInv(y, ClaimedBy(y, x, tid, w.core.now), issued, tid);
      }
    case CreateSession(tid, id) =>
      if tid in y.threads && y.threads[tid].Claimed? { CreateKeepsInv(y, issued, tid, id); }
  }

  lemma {:induction false} RunKeepsInv(cfg: P.Config, x: Settings, now: int, events: seq<Event>)
    ensures var w := Run(cfg, x, now, events);
            P.Inv(w.core) && Inv(w.apps, w.core.issued)
  {
    if events != [] {
      var front, e := events[..|events| - 1], events[|events| - 1];
      RunKeepsInv(cfg, x, now, front);
      StepKeepsInv(cfg, x, Run(cfg, x, now, front), e);
      if e.AtCore? { P.StepKeepsInv(cfg, Run(cfg, x, now, front).core, e.e); }
    }
  }

  // ---- main result ----

  /** Injective correspondence: every local session matches exactly one issued assertion, addressed to its application,
      and one pending record that application started; no two sessions share the pending record, the assertion, or the
      Core transaction instance behind it. */
  lemma InjectiveCorrespondence(cfg: P.Config, x: Settings, now: int, events: seq<Event>, i: nat, j: nat,
      a: P.Assertion, b: P.Assertion)
    ensures var w := Run(cfg, x, now, events);
            i < |w.apps.sessions| ==>
              var s := w.apps.sessions[i];
              && (s.client, s.txn) in w.apps.started
              && (exists c :: c in w.core.issued && Matches(s, c))
              && (a in w.core.issued && b in w.core.issued && Matches(s, a) && b.jti == s.jti ==> a == b)
    ensures var w := Run(cfg, x, now, events);
            i < j < |w.apps.sessions| ==>
              var s, t := w.apps.sessions[i], w.apps.sessions[j];
              && (s.client, s.txn) != (t.client, t.txn) && s.jti != t.jti
              && (a in w.core.issued && b in w.core.issued && Matches(s, a) && Matches(t, b) ==>
                   a.instance != b.instance)
  {
    RunKeepsInv(cfg, x, now, events);
    var w := Run(cfg, x, now, events);
    if i < |w.apps.sessions| { assert SessionOk(w.apps, w.core.issued, w.apps.sessions[i]); }
    if i < j < |w.apps.sessions| {
      assert SessionOk(w.apps, w.core.issued, w.apps.sessions[j]);
      DistinctSources(w, w.apps.sessions[i], w.apps.sessions[j]);
    }
  }

  lemma DistinctSources(w: World, s: LocalSession, t: LocalSession)
    requires P.IssuedOk(w.core) && SessionOk(w.apps, w.core.issued, s) && SessionOk(w.apps, w.core.issued, t)
    requires (s.client, s.txn) != (t.client, t.txn)
    ensures s.jti != t.jti
    ensures forall a, b :: a in w.core.issued && b in w.core.issued && Matches(s, a) && Matches(t, b) ==>
        a.instance != b.instance
  {
    var a :| a in w.core.issued && Matches(s, a);
    var b :| b in w.core.issued && Matches(t, b);
    var m :| 0 <= m < |w.core.issued| && w.core.issued[m] == a;
    var n :| 0 <= n < |w.core.issued| && w.core.issued[n] == b;
    assert m != n;
  }
}
