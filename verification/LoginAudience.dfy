/** For whom an assertion is issued: the client of the record that complete found, which need not be the client the
    login began for. */
module LoginAudience {
  import opened Wrappers
  import opened Redis
  import opened Transactions
  import opened LoginProtocol

  // ---- what each request was answered ----

  /** A client that names an id it can know is served exactly when create answers it with a record, by that record. */
  lemma CreateServes(cfg: Config, c: Core, x: Input, csrf: string)
    requires x.display != Portal && x.clientId.Some? && csrf !in c.instances
    requires x.id in c.mentioned ==> x.id in c.known
    ensures var d := Step(cfg, c, CreateClientTxn(x, csrf)); var r := Answer(c, cfg, x, csrf);
            && d.txns == Create(c.txns, x, csrf, c.now, cfg.transactionTtl).0
            && d.served == (if r.Ok? then c.served + {(x.clientId, r.value.csrf)} else c.served)
  {
    CreateAnswers(c.txns, x, csrf, c.now, cfg.transactionTtl);
  }

  /** A login begins exactly if its record is live, PENDING and of its client, it presents that record's csrf token, and
      the page is of the right kind. */
  lemma LoginBegins(c: Core, tid: Tid, id: string, clientId: Option<string>, csrf: string, t: Txn)
    ensures var d := LoginBegun(c, tid, id, clientId, csrf);
            tid !in c.used && tid !in c.threads ==>
              (tid in d.threads && d.threads[tid] == LoginReady(t, clientId) <==>
                && id in c.known && IdOk(id) && id in c.txns && c.now < c.txns[id].deadline && c.txns[id].value == t
                && t.status == PENDING && t.clientId == clientId && t.csrf == csrf
                && (clientId.None? <==> t.display == Portal))
  {
    PendingAnswers(c.txns, id, clientId, c.now, t);
  }

  /** An assertion is issued exactly if the login is done, not for the portal, and the jti is new. Its claims are those
      of the completed record and of the session, its time the second of the clock. */
  lemma Issues(cfg: Config, c: Core, tid: Tid, jti: string)
    ensures var d := Step(cfg, c, IssueAssertion(tid, jti));
            d.issued != c.issued <==>
              && tid in c.threads && c.threads[tid].LoginDone? && !c.threads[tid].portal
              && c.threads[tid].sid in c.sessions && forall a :: a in c.issued ==> a.jti != jti
    ensures var d := Step(cfg, c, IssueAssertion(tid, jti));
            d.issued != c.issued ==>
              && |d.issued| == |c.issued| + 1 && c.issued <= d.issued
              && var a, t := d.issued[|c.issued|], c.threads[tid].t;
                 && a.jti == jti && a.aud == t.clientId && a.txn == t.id && a.state == t.state
                 && a.sid == c.threads[tid].sid && a.sub == c.sessions[a.sid].its
                 && a.iat * 1000 <= c.now < a.iat * 1000 + 1000 && a.exp - a.iat == cfg.assertionTtl
                 && (t.display == Page ==> a.delivery == FormPost(t.callbackUri))
                 && (t.display != Page ==> a.delivery == PostMessage(t.embedOrigin))
  {
  }

  /** selectScope goes on exactly with a live portal record. */
  lemma ScopeBegins(c: Core, tid: Tid, id: string)
    requires tid !in c.used && tid !in c.threads
    ensures var d := ScopeBegun(c, tid, id);
            && (tid in d.threads <==> id in c.txns && c.now < c.txns[id].deadline && c.txns[id].value.display == Portal)
            && (tid in d.threads ==> d.threads[tid] == ScopeReady(id))
  {
  }

  /** The bind after a portal sign-in takes effect exactly if the session has a second left and the record is live, and
      it freezes the instance that was completed exactly if that is the portal record that got bound. */
  lemma PortalBinds(c: Core, tid: Tid)
    requires tid in c.threads && c.threads[tid].LoginDone? && c.threads[tid].sid in c.sessions
    ensures var d := PortalBound(c, tid); var t, sid := c.threads[tid].t, c.threads[tid].sid;
            var bound := c.now + 1000 <= c.sessions[sid].absolute && t.id in c.txns && c.now < c.txns[t.id].deadline;
            && tid !in d.threads
            && (bound ==> t.id in d.txns && d.txns[t.id].value == c.txns[t.id].value.(sid := Some(sid)))
            && (!bound ==> d.txns == c.txns)
            && d.frozen == (if bound && c.txns[t.id].value.csrf == t.csrf && t.display == Portal
                            then c.frozen[t.csrf := sid] else c.frozen)
  {
    var t, sid := c.threads[tid].t, c.threads[tid].sid;
    BindAnswers(c.txns, t.id, sid, c.sessions[sid].absolute, true, c.now);
  }

  // ---- the invariant ----

  /** The record csrf under this id is still stored, or it had lapsed when another took its place. */
  predicate Kept(c: Core, id: string, csrf: string) {
    csrf in c.replaced || (id in c.txns && c.txns[id].value.csrf == csrf)
  }

  /** The login began with a record of its own client and of this id. */
  predicate Own(c: Core, id: string, client: Option<string>, begun: string) {
    begun in c.instances && c.instances[begun].clientId == client && c.instances[begun].id == id
  }

  ghost predicate ThreadAsked(c: Core, tid: Tid)
    requires tid in c.threads
  {
    match c.threads[tid]
    case LoginReady(t, client) => Own(c, t.id, client, t.csrf) && Kept(c, t.id, t.csrf)
    case LoginDone(t, _, _, client, begun) => Own(c, t.id, client, begun) && (begun == t.csrf || begun in c.replaced)
    case _ => true
  }

  predicate IssuedAsked(c: Core, a: Assertion) {
    Own(c, a.txn, a.asked, a.begun) && (a.begun == a.instance || a.begun in c.replaced)
  }

  predicate Served(c: Core, client: Option<string>, csrf: string) {
    csrf in c.instances && c.instances[csrf].clientId == client
  }

  ghost predicate AskedOk(c: Core) {
    && (forall tid :: tid in c.threads ==> ThreadAsked(c, tid))
    && (forall a :: a in c.issued ==> IssuedAsked(c, a))
    && (forall p :: p in c.served ==> Served(c, p.0, p.1))
  }

  /** No record vanishes unless it had lapsed and another was stored in its place. */
  ghost predicate KeepsRecords(c: Core, d: Core) {
    && c.replaced <= d.replaced
    && (forall x :: x in c.instances ==> x in d.instances && d.instances[x] == c.instances[x])
    && (forall id :: id in c.txns ==> Kept(d, id, c.txns[id].value.csrf))
  }

  lemma AskedSurvives(c: Core, d: Core, tid: Tid)
    requires AskedOk(c) && KeepsRecords(c, d)
    requires forall t :: t in d.threads && t != tid ==> t in c.threads && d.threads[t] == c.threads[t]
    requires tid in d.threads ==> ThreadAsked(d, tid) || (tid in c.threads && d.threads[tid] == c.threads[tid])
    requires forall a :: a in d.issued && a !in c.issued ==> IssuedAsked(d, a)
    requires forall p :: p in d.served && p !in c.served ==> Served(d, p.0, p.1)
    ensures AskedOk(d)
  {
    forall t | t in d.threads ensures ThreadAsked(d, t) {
      if t in c.threads && d.threads[t] == c.threads[t] { assert ThreadAsked(c, t); }
    }
    forall a | a in d.issued ensures IssuedAsked(d, a) {
      if a in c.issued { assert IssuedAsked(c, a); }
    }
  }

  // ---- each event keeps it ----

  lemma BindKeepsCsrf(m: Txns, id: string, sid: string, absolute: int, overwrite: bool, now: int)
    ensures var n := Bind(m, id, sid, absolute, overwrite, now).0;
            n.Keys == m.Keys && forall k :: k in m ==> n[k].value.csrf == m[k].value.csrf
  {
  }

  lemma StoreKeepsRecords(c: Core, cfg: Config, x: Input, csrf: string)
    requires Inv(c) && csrf !in c.instances && InputOk(x)
    ensures var d := Stored(c, cfg, x, csrf);
            && KeepsRecords(c, d)
            && d == c.(txns := d.txns, instances := d.instances, replaced := d.replaced, served := d.served)
    ensures forall p :: p in Stored(c, cfg, x, csrf).served && p !in c.served ==>
              Served(Stored(c, cfg, x, csrf), p.0, p.1)
  {
    StoreIsNew(c, cfg, x, csrf);
    CreateAnswers(c.txns, x, csrf, c.now, cfg.transactionTtl);
    if Live(c.txns, x.id, c.now) { assert RecordOk(c, x.id); }
  }

  lemma CreateStepKeepsAsked(cfg: Config, c: Core, e: Event)
    requires Inv(c) && AskedOk(c) && (e.CreateClientTxn? || e.OpenPage?)
    ensures AskedOk(Step(cfg, c, e))
  {
    hide AskedOk, Inv, Stored;
    var d := Step(cfg, c, e);
    if d != c {
      var x := if e.CreateClientTxn? then e.x else Input(e.id, None, None, Portal, None, None);
      assert Answer(c, cfg, x, e.csrf) != Err(InvalidRequest) || e.OpenPage?;
      CreateAnswers(c.txns, x, e.csrf, c.now, cfg.transactionTtl);
      StoreKeepsRecords(c, cfg, x, e.csrf);
      AskedSurvives(c, d, if e.OpenPage? then e.tid else 0);
    }
  }

  lemma LoginBegunKeepsAsked(cfg: Config, c: Core, e: Event)
    requires Inv(c) && AskedOk(c) && e.BeginLogin?
    ensures AskedOk(Step(cfg, c, e))
  {
    hide AskedOk;
    var d := Step(cfg, c, e);
    if d != c {
      assert RecordOk(c, e.id);
      PendingAnswers(c.txns, e.id, e.clientId, c.now, c.txns[e.id].value);
      AskedSurvives(c, d, e.tid);
    }
  }

  /** What complete leaves of the records, and of the login. */
  lemma CompletedRecords(c: Core, tid: Tid, sid: string)
    requires Inv(c) && tid in c.threads && c.threads[tid].LoginReady? && ThreadAsked(c, tid)
    ensures var d := LoginCompleted(c, tid, sid); KeepsRecords(c, d) && (tid in d.threads ==> ThreadAsked(d, tid))
  {
    hide InstancesOk, CompletersOk, ThreadsOk, IssuedOk, Complete;
    var id := c.threads[tid].t.id;
    assert id in c.txns ==> RecordOk(c, id);
    CompleteAnswers(c.txns, id, c.now);
  }

  lemma LoginCompletedKeepsAsked(cfg: Config, c: Core, e: Event)
    requires Inv(c) && AskedOk(c) && e.CompleteLogin?
    ensures AskedOk(Step(cfg, c, e))
  {
    hide Inv, ThreadAsked, KeepsRecords;
    if e.tid in c.threads && c.threads[e.tid].LoginReady? && e.sid in c.sessions {
      CompletedRecords(c, e.tid, e.sid);
      AskedSurvives(c, LoginCompleted(c, e.tid, e.sid), e.tid);
    }
  }

  lemma BindStepKeepsAsked(cfg: Config, c: Core, e: Event)
    requires AskedOk(c) && (e.BindPage? || e.BindScope? || e.BindPortal?)
    ensures AskedOk(Step(cfg, c, e))
  {
    hide AskedOk, Bind;
    var d := Step(cfg, c, e);
    if d != c {
      var (id, sid, overwrite) := match e
        case BindPage(tid, sid) => (c.threads[tid].id, sid, true)
        case BindScope(tid, sid) => (c.threads[tid].id, sid, false)
        case BindPortal(tid) => (c.threads[tid].t.id, c.threads[tid].sid, true);
      BindKeepsCsrf(c.txns, id, sid, c.sessions[sid].absolute, overwrite, c.now);
      AskedSurvives(c, d, e.tid);
    }
  }

  lemma IssuedKeepsAsked(cfg: Config, c: Core, e: Event)
    requires AskedOk(c) && e.IssueAssertion?
    ensures AskedOk(Step(cfg, c, e))
  {
    var d := Step(cfg, c, e);
    if d != c {
      assert ThreadAsked(c, e.tid);
      AskedSurvives(c, d, e.tid);
    }
  }

  /** Events that touch no record and neither begin nor end a login. */
  lemma OthersAsked(c: Core, d: Core, tid: Tid)
    requires AskedOk(c) && d.txns == c.txns && d.instances == c.instances && d.replaced == c.replaced
    requires d.issued == c.issued && d.served == c.served
    requires forall t :: t in d.threads && t != tid ==> t in c.threads && d.threads[t] == c.threads[t]
    requires tid in d.threads ==> d.threads[tid].ScopeReady? || (tid in c.threads && d.threads[tid] == c.threads[tid])
    ensures AskedOk(d)
  {
    hide AskedOk;
    AskedSurvives(c, d, tid);
  }

  lemma OutsideKeepsAsked(cfg: Config, c: Core, e: Event)
    requires AskedOk(c) && (e.Advance? || e.OpenSession?)
    ensures AskedOk(Step(cfg, c, e))
  {
    hide AskedOk;
    OthersAsked(c, Step(cfg, c, e), 0);
  }

  lemma ShowPageKeepsAsked(cfg: Config, c: Core, tid: Tid)
    requires AskedOk(c)
    ensures AskedOk(Step(cfg, c, ShowPage(tid)))
  {
    hide AskedOk;
    if tid in c.threads && c.threads[tid].PageOpen? {
      OthersAsked(c, End(c, tid).(known := c.known + {c.threads[tid].id}), tid);
    }
  }

  lemma BeginScopeKeepsAsked(cfg: Config, c: Core, tid: Tid, id: string)
    requires AskedOk(c)
    ensures AskedOk(Step(cfg, c, BeginScope(tid, id)))
  {
    hide AskedOk, Live;
    if ScopeBegun(c, tid, id) != c { OthersAsked(c, Begin(c, tid, ScopeReady(id)), tid); }
  }

  lemma StepKeepsAsked(cfg: Config, c: Core, e: Event)
    requires Inv(c) && AskedOk(c)
    ensures AskedOk(Step(cfg, c, e))
  {
    hide AskedOk, Inv, Step;
    match e
    case CreateClientTxn(_, _) => CreateStepKeepsAsked(cfg, c, e);
    case OpenPage(_, _, _) => CreateStepKeepsAsked(cfg, c, e);
    case BeginLogin(_, _, _, _) => LoginBegunKeepsAsked(cfg, c, e);
    case CompleteLogin(_, _) => LoginCompletedKeepsAsked(cfg, c, e);
    case IssueAssertion(_, _) => IssuedKeepsAsked(cfg, c, e);
    case BindPage(_, _) => BindStepKeepsAsked(cfg, c, e);
    case BindScope(_, _) => BindStepKeepsAsked(cfg, c, e);
    case BindPortal(_) => BindStepKeepsAsked(cfg, c, e);
    case ShowPage(tid) => ShowPageKeepsAsked(cfg, c, tid);
    case BeginScope(tid, id) => BeginScopeKeepsAsked(cfg, c, tid, id);
    case _ => OutsideKeepsAsked(cfg, c, e);
  }

  lemma {:induction false} RunKeepsAsked(cfg: Config, now: int, events: seq<Event>)
    ensures AskedOk(Run(cfg, now, events))
  {
    if events != [] {
      RunKeepsAsked(cfg, now, events[..|events| - 1]);
      LoginProtocol.RunKeepsInv(cfg, now, events[..|events| - 1]);
      StepKeepsAsked(cfg, Run(cfg, now, events[..|events| - 1]), events[|events| - 1]);
    }
  }

  // ---- main results ----

  /** Whoever create answered got a record of its own: no page is served another client's csrf token. */
  lemma CreateServesOwn(cfg: Config, now: int, events: seq<Event>, client: Option<string>, csrf: string)
    ensures var c := Run(cfg, now, events);
            (client, csrf) in c.served ==> csrf in c.instances && c.instances[csrf].clientId == client
  {
    RunKeepsAsked(cfg, now, events);
    var c := Run(cfg, now, events);
    if (client, csrf) in c.served { assert Served(c, client, csrf); }
  }

  /** The login that led to an assertion was asked for by the client of the record it began with, and the assertion is
      addressed to that client exactly if the record that complete found was that client's. It was, unless the record
      the login began with lapsed under way and a record of another client was stored under its id. */
  lemma AudienceIsAskedExactlyWhen(cfg: Config, now: int, events: seq<Event>, a: Assertion)
    requires a in Run(cfg, now, events).issued
    ensures var c := Run(cfg, now, events);
            && a.begun in c.instances && c.instances[a.begun].clientId == a.asked && c.instances[a.begun].id == a.txn
            && a.instance in c.instances && c.instances[a.instance].id == a.txn
            && (a.aud == a.asked <==> c.instances[a.instance].clientId == c.instances[a.begun].clientId)
            && (a.aud != a.asked ==> a.instance != a.begun && a.begun in c.replaced)
  {
    RunKeepsAsked(cfg, now, events);
    LoginProtocol.RunKeepsInv(cfg, now, events);
    var c := Run(cfg, now, events);
    assert IssuedAsked(c, a) && AssertionOk(c, a);
  }

  /** Seen from the call: complete leaves a login of one client with a record of another exactly if the record that is
      stored at that moment is live, PENDING and of another client. */
  lemma CompletesForAnother(c: Core, tid: Tid, sid: string)
    requires tid in c.threads && c.threads[tid].LoginReady?
    ensures var d := LoginCompleted(c, tid, sid); var id, asked := c.threads[tid].t.id, c.threads[tid].client;
            (tid in d.threads && d.threads[tid].LoginDone? && d.threads[tid].t.clientId != asked) <==>
              && id in c.txns && c.now < c.txns[id].deadline
              && c.txns[id].value.status == PENDING && c.txns[id].value.clientId != asked
  {
    CompleteAnswers(c.txns, c.threads[tid].t.id, c.now);
  }

  // ---- it can differ ----

  /** From s the events lead to d. */
  ghost predicate Reached(cfg: Config, events: seq<Event>, d: Core) {
    d == Run(cfg, 0, events)
  }

  lemma ReachedMore(cfg: Config, events: seq<Event>, c: Core, e: Event)
    requires Reached(cfg, events, c)
    ensures Reached(cfg, events + [e], Step(cfg, c, e))
  {
    assert (events + [e])[..|events|] == events;
  }

  const ID := "txn_123"
  const STATE := "state_of_login"

  function Asking(client: string): Input {
    Input(ID, Some(client), Some(STATE), Embed, Some("https://app"), None)
  }

  function Recorded(client: string, csrf: string): Txn {
    NewTxn(Asking(client), csrf)
  }

  lemma AskingIsOk(client: string)
    ensures InputOk(Asking(client))
  {
    assert |ID| == 7 && |STATE| == 14;
  }

  /** A client creates a record under the id, whose key is absent. */
  lemma Creates(cfg: Config, c: Core, client: string, csrf: string)
    requires 0 < cfg.transactionTtl && !Live(c.txns, ID, c.now) && csrf !in c.instances
    requires ID in c.mentioned ==> ID in c.known
    ensures var d := Step(cfg, c, CreateClientTxn(Asking(client), csrf));
            && d.now == c.now && ID in d.known && d.threads == c.threads && d.used == c.used && d.sessions == c.sessions
            && d.instances == c.instances[csrf := Recorded(client, csrf)] && d.issued == c.issued
            && ID in d.txns && d.txns[ID] == Entry(Recorded(client, csrf), c.now + cfg.transactionTtl * 1000)
  {
    AskingIsOk(client);
    CreateAnswers(c.txns, Asking(client), csrf, c.now, cfg.transactionTtl);
  }

  /** rms begins a login with a record of its own, which lapses; ams creates another record under the id; the login
      completes that one, and its assertion is for ams. */
  function Crossing(cfg: Config): seq<Event>
    requires 0 < cfg.transactionTtl
  {
    [OpenSession("sid_1", "10000001", 0)] + [CreateClientTxn(Asking("rms"), "csrf_1")]
    + [BeginLogin(1, ID, Some("rms"), "csrf_1")] + [Advance(cfg.transactionTtl * 1000)]
    + [CreateClientTxn(Asking("ams"), "csrf_2")] + [CompleteLogin(1, "sid_1")] + [IssueAssertion(1, "jti_1")]
  }

  lemma CrossingBegins(cfg: Config) returns (c: Core)
    requires 0 < cfg.transactionTtl
    ensures Reached(cfg, [OpenSession("sid_1", "10000001", 0)] + [CreateClientTxn(Asking("rms"), "csrf_1")]
                         + [BeginLogin(1, ID, Some("rms"), "csrf_1")], c)
    ensures c.now == 0 && ID in c.known && c.instances.Keys == {"csrf_1"} && c.issued == [] && "sid_1" in c.sessions
    ensures c.threads == map[1 := LoginReady(Recorded("rms", "csrf_1"), Some("rms"))]
    ensures ID in c.txns && c.txns[ID].deadline == cfg.transactionTtl * 1000
  {
    var a := [OpenSession("sid_1", "10000001", 0)];
    var c0 := LoginProtocol.Start(0);
    var c1 := Step(cfg, c0, a[0]);
    assert Reached(cfg, [], c0);
    ReachedMore(cfg, [], c0, a[0]);
    assert [] + [a[0]] == a;
    var c2 := Step(cfg, c1, CreateClientTxn(Asking("rms"), "csrf_1"));
    Creates(cfg, c1, "rms", "csrf_1");
    ReachedMore(cfg, a, c1, CreateClientTxn(Asking("rms"), "csrf_1"));
    c := Step(cfg, c2, BeginLogin(1, ID, Some("rms"), "csrf_1"));
    AskingIsOk("rms");
    LoginBegins(c2, 1, ID, Some("rms"), "csrf_1", Recorded("rms", "csrf_1"));
    ReachedMore(cfg, a + [CreateClientTxn(Asking("rms"), "csrf_1")], c2, BeginLogin(1, ID, Some("rms"), "csrf_1"));
  }

  lemma CrossingCompletes(cfg: Config, c: Core) returns (d: Core)
    requires 0 < cfg.transactionTtl && c.now == 0 && ID in c.known && c.instances.Keys == {"csrf_1"} && c.issued == []
    requires c.threads == map[1 := LoginReady(Recorded("rms", "csrf_1"), Some("rms"))] && "sid_1" in c.sessions
    requires ID in c.txns && c.txns[ID].deadline == cfg.transactionTtl * 1000
    ensures var x := Step(cfg, c, Advance(cfg.transactionTtl * 1000));
            var y := Step(cfg, x, CreateClientTxn(Asking("ams"), "csrf_2"));
            d == Step(cfg, y, CompleteLogin(1, "sid_1"))
    ensures 1 in d.threads && "sid_1" in d.sessions && d.issued == []
    ensures d.threads[1]
        == LoginDone(Recorded("ams", "csrf_2").(status := COMPLETED), "sid_1", false, Some("rms"), "csrf_1")
  {
    var x := Step(cfg, c, Advance(cfg.transactionTtl * 1000));
    var y := Step(cfg, x, CreateClientTxn(Asking("ams"), "csrf_2"));
    Creates(cfg, x, "ams", "csrf_2");
    CompleteAnswers(y.txns, ID, y.now);
    d := Step(cfg, y, CompleteLogin(1, "sid_1"));
  }

  /** For every configuration there is a run in which a login that one client began yields an assertion for another. */
  lemma AudienceCanDiffer(cfg: Config)
    requires 0 < cfg.transactionTtl
    ensures var c := Run(cfg, 0, Crossing(cfg));
            exists a :: a in c.issued && a.asked == Some("rms") && a.aud == Some("ams")
  {
    var start := [OpenSession("sid_1", "10000001", 0)] + [CreateClientTxn(Asking("rms"), "csrf_1")]
                 + [BeginLogin(1, ID, Some("rms"), "csrf_1")];
    var c := CrossingBegins(cfg);
    var wait, other := Advance(cfg.transactionTtl * 1000), CreateClientTxn(Asking("ams"), "csrf_2");
    var x := Step(cfg, c, wait);
    var y := Step(cfg, x, other);
    var d := CrossingCompletes(cfg, c);
    ReachedMore(cfg, start, c, wait);
    ReachedMore(cfg, start + [wait], x, other);
    ReachedMore(cfg, start + [wait] + [other], y, CompleteLogin(1, "sid_1"));
    ReachedMore(cfg, start + [wait] + [other] + [CompleteLogin(1, "sid_1")], d, IssueAssertion(1, "jti_1"));
    Issues(cfg, d, 1, "jti_1");
    var z := Step(cfg, d, IssueAssertion(1, "jti_1"));
    assert z.issued[0].asked == Some("rms") && z.issued[0].aud == Some("ams");
  }
}
