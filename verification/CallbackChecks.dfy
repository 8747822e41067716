/** What a callback has checked by the time a local session exists: the state it presented and the time of its
    assertion. */
module CallbackChecks {
  import opened Wrappers
  import opened Redis
  import opened Callback
  import P = LoginProtocol
  import R = Replay

  /** The checks on time, in milliseconds: the assertion is not from the future, not expired and not too old, each
      within the clock tolerance, and its lifetime is within policy. */
  predicate InTime(x: Settings, a: P.Assertion, at: int) {
    && (a.iat - x.tolerance) * 1000 <= at
    && at < (a.exp + x.tolerance) * 1000
    && at < (a.iat + x.maxLifetime + x.tolerance + 1) * 1000
    && a.exp - a.iat <= x.maxLifetime
  }

  // ---- what each step of the callback decides ----

  /** start stores the state, readable for the pending lifetime; a transaction id is started once. */
  lemma StartStores(y: Apps, x: Settings, client: Client, txn: string, state: string, now: int, later: int)
    requires (client, txn) !in y.started
    ensures var z := Started(y, x, client, txn, state, now); var k := (client, txn);
            && k in z.started && z.started[k] == state
            && Get(z.pending, k, later) == (if later < now + x.pendingTtl * 1000 then Some(state) else None)
            && forall l :: l != k ==> Get(z.pending, l, later) == Get(y.pending, l, later)
  {
  }

  /** A callback goes on exactly if the pending record is live and holds the state it presents. Right or wrong, the
      record is then gone. */
  lemma TakeAnswers(y: Apps, tid: Tid, client: Client, txn: string, state: string, now: int)
    requires tid !in y.used && tid !in y.threads
    ensures var z := TakenBy(y, tid, client, txn, state, now); var k := (client, txn);
            && (tid in z.threads <==> k in y.pending && now < y.pending[k].deadline && y.pending[k].value == state)
            && (tid in z.threads ==> z.threads[tid] == Taken(client, txn, state))
            && !Live(z.pending, k, now)
            && forall l :: l != k ==> Get(z.pending, l, now) == Get(y.pending, l, now)
  {
  }

  /** It goes on exactly with an assertion for this application and this transaction, in time. */
  lemma VerifyAnswers(y: Apps, x: Settings, tid: Tid, a: P.Assertion, now: int)
    requires tid in y.threads && y.threads[tid].Taken?
    ensures var z, t := VerifiedBy(y, x, tid, a, now), y.threads[tid];
            && (tid in z.threads <==> a.aud == Some(t.client) && a.txn == t.txn && InTime(x, a, now))
            && (tid in z.threads ==> z.threads[tid] == Verified(t.client, t.txn, t.state, a, now))
  {
    assert now == now / 1000 * 1000 + now % 1000;
  }

  /** It goes on exactly if the application holds no live claim of the jti; from then on it holds one, to the end of the
      assertion's acceptance window. */
  lemma ClaimAnswers(y: Apps, x: Settings, tid: Tid, now: int, later: int)
    requires tid in y.threads && y.threads[tid].Verified?
    ensures var z, t := ClaimedBy(y, x, tid, now), y.threads[tid]; var k := (t.client, t.a.jti);
            && (tid in z.threads <==> !(k in y.claims && now < y.claims[k].deadline))
            && (tid in z.threads ==> z.threads[tid] == Claimed(t.client, t.txn, t.state, t.a, t.at))
            && Live(z.claims, k, now)
            && (tid in z.threads && later < (t.a.exp + x.tolerance) * 1000 ==> Live(z.claims, k, later))
  {
    R.ClaimCoversWindow(y.threads[tid].a.exp, x.tolerance, now);
    R.AcceptableUntilWindowEnd(y.threads[tid].a.exp, x.tolerance, now);
  }

  /** The session says what the assertion says, and the request has ended. */
  lemma CreateAnswers(y: Apps, tid: Tid, id: string)
    requires tid in y.threads && y.threads[tid].Claimed?
    ensures var z, t := Created(y, tid, id), y.threads[tid];
            && z == y.(threads := y.threads - {tid}, sessions := z.sessions) && |z.sessions| == |y.sessions| + 1
            && y.sessions <= z.sessions
            && var s := z.sessions[|y.sessions|];
               && s.client == t.client && s.id == id && s.sub == t.a.sub && s.sid == t.a.sid && s.jti == t.a.jti
               && s.txn == t.a.txn && s.state == t.state && s.verifiedAt == t.at
  {
  }

  // ---- over whole runs ----

  predicate StateOk(y: Apps, client: Client, txn: string, state: string) {
    (client, txn) in y.started && y.started[(client, txn)] == state
  }

  ghost predicate ThreadChecked(x: Settings, y: Apps, now: int, tid: Tid)
    requires tid in y.threads
  {
    var t := y.threads[tid];
    && StateOk(y, t.client, t.txn, t.state)
    && (!t.Taken? ==> t.a.aud == Some(t.client) && t.a.txn == t.txn && InTime(x, t.a, t.at) && t.at <= now)
  }

  /** Its own assertion, at the moment it was verified. */
  predicate VerifiedWith(x: Settings, s: LocalSession, a: P.Assertion) {
    Matches(s, a) && InTime(x, a, s.verifiedAt)
  }

  ghost predicate SessionChecked(x: Settings, y: Apps, issued: seq<P.Assertion>, now: int, s: LocalSession) {
    && StateOk(y, s.client, s.txn, s.state) && s.verifiedAt <= now
    && exists a :: a in issued && VerifiedWith(x, s, a)
  }

  ghost predicate Checked(x: Settings, y: Apps, issued: seq<P.Assertion>, now: int) {
    && (forall k :: k in y.pending ==> StateOk(y, k.0, k.1, y.pending[k].value))
    && (forall tid :: tid in y.threads ==> ThreadChecked(x, y, now, tid))
    && (forall s :: s in y.sessions ==> SessionChecked(x, y, issued, now, s))
  }

  lemma CheckedSurvives(x: Settings, y: Apps, z: Apps, before: seq<P.Assertion>, after: seq<P.Assertion>,
                        now: int, later: int)
    requires Checked(x, y, before, now) && now <= later && forall a :: a in before ==> a in after
    requires forall k :: k in y.started ==> k in z.started && z.started[k] == y.started[k]
    requires forall k :: k in z.pending ==>
               (k in y.pending && z.pending[k].value == y.pending[k].value) || StateOk(z, k.0, k.1, z.pending[k].value)
    requires forall t :: t in z.threads ==>
               (t in y.threads && z.threads[t] == y.threads[t]) || ThreadChecked(x, z, later, t)
    requires forall s :: s in z.sessions && s !in y.sessions ==> SessionChecked(x, z, after, later, s)
    ensures Checked(x, z, after, later)
  {
    forall k | k in z.pending ensures StateOk(z, k.0, k.1, z.pending[k].value) {
      if k in y.pending && z.pending[k].value == y.pending[k].value {
        assert StateOk(y, k.0, k.1, y.pending[k].value);
      }
    }
    forall t | t in z.threads ensures ThreadChecked(x, z, later, t) {
      if t in y.threads && z.threads[t] == y.threads[t] { assert ThreadChecked(x, y, now, t); }
    }
    forall s | s in z.sessions ensures SessionChecked(x, z, after, later, s) {
      if s in y.sessions {
        assert SessionChecked(x, y, before, now, s);
        var a :| a in before && VerifiedWith(x, s, a);
      }
    }
  }

  lemma TakeKeepsChecked(x: Settings, y: Apps, issued: seq<P.Assertion>, now: int, e: Event)
    requires Checked(x, y, issued, now) && e.Take?
    ensures Checked(x, TakenBy(y, e.tid, e.client, e.txn, e.state, now), issued, now)
  {
    var k := (e.client, e.txn);
    if k in y.pending { assert StateOk(y, k.0, k.1, y.pending[k].value); }
    CheckedSurvives(x, y, TakenBy(y, e.tid, e.client, e.txn, e.state, now), issued, issued, now, now);
  }

  lemma VerifyKeepsChecked(x: Settings, y: Apps, issued: seq<P.Assertion>, now: int, tid: Tid, a: P.Assertion)
    requires Checked(x, y, issued, now) && tid in y.threads && y.threads[tid].Taken?
    ensures Checked(x, VerifiedBy(y, x, tid, a, now), issued, now)
  {
    assert ThreadChecked(x, y, now, tid);
    VerifyAnswers(y, x, tid, a, now);
    CheckedSurvives(x, y, VerifiedBy(y, x, tid, a, now), issued, issued, now, now);
  }

  lemma ClaimKeepsChecked(x: Settings, y: Apps, issued: seq<P.Assertion>, now: int, tid: Tid)
    requires Checked(x, y, issued, now) && tid in y.threads && y.threads[tid].Verified?
    ensures Checked(x, ClaimedBy(y, x, tid, now), issued, now)
  {
    assert ThreadChecked(x, y, now, tid);
    CheckedSurvives(x, y, ClaimedBy(y, x, tid, now), issued, issued, now, now);
  }

  lemma CreateKeepsChecked(x: Settings, y: Apps, issued: seq<P.Assertion>, now: int, tid: Tid, id: string)
    requires Checked(x, y, issued, now) && Inv(y, issued) && tid in y.threads && y.threads[tid].Claimed?
    ensures Checked(x, Created(y, tid, id), issued, now)
  {
    var z := Created(y, tid, id);
    assert ThreadChecked(x, y, now, tid) && ThreadOk(y, issued, tid);
    assert VerifiedWith(x, SessionOf(y.threads[tid], id), y.threads[tid].a);
    CheckedSurvives(x, y, z, issued, issued, now, now);
  }

  lemma CoreOnlyGrows(cfg: P.Config, c: P.Core, e: P.Event)
    ensures c.now <= P.Step(cfg, c, e).now
  {
  }

  lemma StepKeepsChecked(cfg: P.Config, x: Settings, w: World, e: Event)
    requires Checked(x, w.apps, w.core.issued, w.core.now) && Inv(w.apps, w.core.issued)
    ensures var v := Step(cfg, x, w, e); Checked(x, v.apps, v.core.issued, v.core.now)
  {
    hide Checked, Inv;
    var y, issued, now := w.apps, w.core.issued, w.core.now;
    match e
    case AtCore(f) =>
      IssuedPrefix(cfg, w.core, f);
      CoreOnlyGrows(cfg, w.core, f);
      CheckedSurvives(x, y, y, issued, P.Step(cfg, w.core, f).issued, now, P.Step(cfg, w.core, f).now);
    case Start(client, txn, state) =>
      CheckedSurvives(x, y, Started(y, x, client, txn, state, now), issued, issued, now, now);
    case Take(_, _, _, _) => TakeKeepsChecked(x, y, issued, now, e);
    case Verify(tid, n) =>
      if tid in y.threads && y.threads[tid].Taken? && n < |issued| {
        VerifyKeepsChecked(x, y, issued, now, tid, issued[n]);
      }
    case Claim(tid) =>
      if tid in y.threads && y.threads[tid].Verified? { ClaimKeepsChecked(x, y, issued, now, tid); }
    case CreateSession(tid, id) =>
      if tid in y.threads && y.threads[tid].Claimed? { CreateKeepsChecked(x, y, issued, now, tid, id); }
  }

  lemma {:induction false} RunKeepsChecked(cfg: P.Config, x: Settings, now: int, events: seq<Event>)
    ensures var w := Run(cfg, x, now, events); Checked(x, w.apps, w.core.issued, w.core.now)
  {
    if events != [] {
      var front := events[..|events| - 1];
      RunKeepsChecked(cfg, x, now, front);
      Callback.RunKeepsInv(cfg, x, now, front);
      StepKeepsChecked(cfg, x, Run(cfg, x, now, front), events[|events| - 1]);
    }
  }

  /** Every local session comes from a callback that presented the very state its application had stored for the
      transaction, with an assertion that was in time when it was verified. */
  lemma SessionsAreChecked(cfg: P.Config, x: Settings, now: int, events: seq<Event>, s: LocalSession)
    requires s in Run(cfg, x, now, events).apps.sessions
    ensures var w := Run(cfg, x, now, events);
            && (s.client, s.txn) in w.apps.started && w.apps.started[(s.client, s.txn)] == s.state
            && s.verifiedAt <= w.core.now
            && exists a :: a in w.core.issued && Matches(s, a) && InTime(x, a, s.verifiedAt)
  {
    RunKeepsChecked(cfg, x, now, events);
    var w := Run(cfg, x, now, events);
    assert SessionChecked(x, w.apps, w.core.issued, w.core.now, s);
    var a :| a in w.core.issued && VerifiedWith(x, s, a);
  }
}
