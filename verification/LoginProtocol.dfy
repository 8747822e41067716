/** The login protocol at the Core, interleaved Redis command by command: pages and clients create transactions,
    password and SSO requests complete them and issue assertions, portal sign-ins and workspace selections bind them to
    sessions. A bind reads the clock and runs its script at one reading. */
module LoginProtocol {
  import opened Wrappers
  import opened Redis
  import opened Transactions

  type Tid = nat

  /** Only what the protocol needs of a federation session. */
  datatype Session = Session(its: string, absolute: int)

  datatype Delivery = FormPost(callbackUri: Option<string>) | PostMessage(origin: Option<string>)

  /** An issued login assertion. Not in the token: instance is the csrf of the stored record that was completed for it,
      asked the client the login began for, begun the csrf of the record that requirePending handed to it. */
  datatype Assertion = Assertion(jti: string, aud: Option<string>, sub: string, sid: string, txn: string,
                                 iat: int, exp: int, state: Option<string>, delivery: Delivery,
                                 instance: string, asked: Option<string>, begun: string)

  datatype Thread =
    | PageOpen(id: string)                               // portal page: transaction created, page not sent yet
    // requirePending gave t to a request of this client, and every check before complete passed
    | LoginReady(t: Txn, client: Option<string>)
    // complete returned t to a request of this client that began with record begun; issue or bind to come
    | LoginDone(t: Txn, sid: string, portal: bool, client: Option<string>, begun: string)
    | ScopeReady(id: string)                             // selectScope read a portal transaction

  datatype Config = Config(transactionTtl: int, assertionTtl: int)

  /** mentioned: ids anyone has used. known: ids a caller can have learned. used: thread ids.
      instances: each record as it was created, by csrf. completer: the thread whose complete succeeded on an instance.
      frozen: the sid the completing sign-in bound to a portal instance. served: the clients that create handed a record
      to, with its csrf. replaced: the instances whose record had lapsed when another was stored under its id. */
  datatype Core = Core(now: int, txns: Txns, threads: map<Tid, Thread>, used: set<Tid>,
                       mentioned: set<string>, known: set<string>, sessions: map<string, Session>,
                       instances: map<string, Txn>, completer: map<string, Tid>, frozen: map<string, string>,
                       issued: seq<Assertion>, served: set<(Option<string>, string)>, replaced: set<string>)

  datatype Event =
    | Advance(ms: nat)
    | OpenSession(sid: string, its: string, absolute: int)
    | CreateClientTxn(x: Input, csrf: string)
    | OpenPage(tid: Tid, id: string, csrf: string)
    | BindPage(tid: Tid, sid: string)
    | ShowPage(tid: Tid)
    | BeginLogin(tid: Tid, id: string, clientId: Option<string>, csrf: string)
    | CompleteLogin(tid: Tid, sid: string)
    | IssueAssertion(tid: Tid, jti: string)
    | BindPortal(tid: Tid)
    | BeginScope(tid: Tid, id: string)
    | BindScope(tid: Tid, sid: string)

  function Start(now: int): Core {
    Core(now, map[], map[], {}, {}, {}, map[], map[], map[], map[], [], {}, {})
  }

  function DeliveryOf(t: Txn): Delivery {
    if t.display == Page then FormPost(t.callbackUri) else PostMessage(t.embedOrigin)
  }

  function Begin(c: Core, tid: Tid, t: Thread): Core {
    c.(threads := c.threads[tid := t], used := c.used + {tid})
  }

  function End(c: Core, tid: Tid): Core {
    c.(threads := c.threads - {tid})
  }

  /** What create answers. */
  function Answer(c: Core, cfg: Config, x: Input, csrf: string): Result<Txn, Error> {
    Create(c.txns, x, csrf, c.now, cfg.transactionTtl).1
  }

  /** create: the store, and the history of what it holds and of whom it answered. */
  function Stored(c: Core, cfg: Config, x: Input, csrf: string): Core {
    var (m, r) := Create(c.txns, x, csrf, c.now, cfg.transactionTtl);
    var created := r.Ok? && r.value.csrf == csrf;
    c.(txns := m,
       instances := if created then c.instances[csrf := r.value] else c.instances,
       replaced := if created && x.id in c.txns then c.replaced + {c.txns[x.id].value.csrf} else c.replaced,
       served := if r.Ok? then c.served + {(x.clientId, r.value.csrf)} else c.served)
  }

  /** A client names the transaction id itself; it cannot name a portal id that has not been sent to anyone. */
  function CreatedByClient(c: Core, cfg: Config, x: Input, csrf: string): Core {
    if x.display == Portal || x.clientId.None? || csrf in c.instances || (x.id in c.mentioned && x.id !in c.known)
      then c
    else if Answer(c, cfg, x, csrf) == Err(InvalidRequest) then c
    else Stored(c, cfg, x, csrf).(mentioned := c.mentioned + {x.id}, known := c.known + {x.id})
  }

  /** The portal generates a fresh id. */
  function PageOpened(c: Core, cfg: Config, tid: Tid, id: string, csrf: string): Core {
    if tid in c.used || id in c.mentioned || !IdOk(id) || csrf in c.instances then c
    else
      var stored := Stored(c, cfg, Input(id, None, None, Portal, None, None), csrf);
      Begin(stored.(mentioned := c.mentioned + {id}), tid, PageOpen(id))
  }

  function Rebound(c: Core, id: string, sid: string, overwrite: bool): Core
    requires sid in c.sessions
  {
    c.(txns := Bind(c.txns, id, sid, c.sessions[sid].absolute, overwrite, c.now).0)
  }

  /** requirePending, the csrf token of its record, and the display of the page. */
  function LoginBegun(c: Core, tid: Tid, id: string, clientId: Option<string>, csrf: string): Core {
    var t := Pending(c.txns, id, clientId, c.now);
    if tid in c.used || id !in c.known || t.Err? || t.value.csrf != csrf then c
    else if clientId.None? != (t.value.display == Portal) then c
    else Begin(c, tid, LoginReady(t.value, clientId))
  }

  function LoginCompleted(c: Core, tid: Tid, sid: string): Core
    requires tid in c.threads && c.threads[tid].LoginReady?
  {
    var t := c.threads[tid].t;
    var (m, r) := Complete(c.txns, t.id, c.now);
    if r.Err? then End(c, tid)
    else c.(txns := m,
            threads := c.threads[tid := LoginDone(r.value, sid, t.display == Portal, c.threads[tid].client, t.csrf)],
            completer := c.completer[r.value.csrf := tid])
  }

  function Issued(c: Core, cfg: Config, tid: Tid, jti: string): Core
    requires tid in c.threads && c.threads[tid].LoginDone? && c.threads[tid].sid in c.sessions
  {
    var t, sid := c.threads[tid].t, c.threads[tid].sid;
    var iat := c.now / 1000;
    var a := Assertion(jti, t.clientId, c.sessions[sid].its, sid, t.id, iat, iat + cfg.assertionTtl,
                       t.state, DeliveryOf(t), t.csrf, c.threads[tid].client, c.threads[tid].begun);
    End(c, tid).(issued := c.issued + [a])
  }

  /** The bind after a portal sign-in. It freezes the instance it completed if that instance is still the stored one. */
  function PortalBound(c: Core, tid: Tid): Core
    requires tid in c.threads && c.threads[tid].LoginDone? && c.threads[tid].sid in c.sessions
  {
    var t, sid := c.threads[tid].t, c.threads[tid].sid;
    var (m, ok) := Bind(c.txns, t.id, sid, c.sessions[sid].absolute, true, c.now);
    End(c, tid).(txns := m,
                 frozen := if ok && m[t.id].value.csrf == t.csrf && t.display == Portal then c.frozen[t.csrf := sid]
                   else c.frozen)
  }

  function ScopeBegun(c: Core, tid: Tid, id: string): Core {
    if tid in c.used || !Live(c.txns, id, c.now) || c.txns[id].value.display != Portal then c
    else Begin(c, tid, ScopeReady(id))
  }

  function Step(cfg: Config, c: Core, e: Event): Core {
    match e
    case Advance(ms) => c.(now := c.now + ms)
    case OpenSession(sid, its, absolute) =>
      if sid in c.sessions then c else c.(sessions := c.sessions[sid := Session(its, absolute)])
    case CreateClientTxn(x, csrf) => CreatedByClient(c, cfg, x, csrf)
    case OpenPage(tid, id, csrf) => PageOpened(c, cfg, tid, id, csrf)
    case BindPage(tid, sid) =>
      if tid in c.threads && c.threads[tid].PageOpen? && sid in c.sessions then Rebound(c, c.threads[tid].id, sid, true)
      else c
    case ShowPage(tid) =>
      if tid in c.threads && c.threads[tid].PageOpen? then End(c, tid).(known := c.known + {c.threads[tid].id}) else c
    case BeginLogin(tid, id, clientId, csrf) => LoginBegun(c, tid, id, clientId, csrf)
    case CompleteLogin(tid, sid) =>
      if tid in c.threads && c.threads[tid].LoginReady? && sid in c.sessions then LoginCompleted(c, tid, sid) else c
    case IssueAssertion(tid, jti) =>
      if tid in c.threads && c.threads[tid].LoginDone? && !c.threads[tid].portal && c.threads[tid].sid in c.sessions &&
         (forall a :: a in c.issued ==> a.jti != jti)
      then Issued(c, cfg, tid, jti) else c
    case BindPortal(tid) =>
      if tid in c.threads && c.threads[tid].LoginDone? && c.threads[tid].portal && c.threads[tid].sid in c.sessions
      then PortalBound(c, tid) else c
    case BeginScope(tid, id) => ScopeBegun(c, tid, id)
    case BindScope(tid, sid) =>
      if tid in c.threads && c.threads[tid].ScopeReady? && sid in c.sessions
      then End(Rebound(c, c.threads[tid].id, sid, false), tid) else c
  }

  function Run(cfg: Config, now: int, events: seq<Event>): Core {
    if events == [] then Start(now) else Step(cfg, Run(cfg, now, events[..|events| - 1]), events[|events| - 1])
  }

  // ---- the invariant ----

  /** b is instance a, apart from status and bound session. */
  predicate SameBirth(a: Txn, b: Txn) {
    b == a.(status := b.status, sid := b.sid)
  }

  predicate IsInstance(c: Core, t: Txn) {
    t.csrf in c.instances && SameBirth(c.instances[t.csrf], t)
  }

  /** No other record was ever created under this instance's id. */
  ghost predicate OnlyInstance(c: Core, csrf: string)
    requires csrf in c.instances
  {
    forall x :: x in c.instances && c.instances[x].id == c.instances[csrf].id ==> x == csrf
  }

  ghost predicate RecordOk(c: Core, id: string)
    requires id in c.txns
  {
    var t := c.txns[id].value;
    && t.id == id && IsInstance(c, t)
    && (t.csrf in c.completer <==> t.status == COMPLETED)
    && (t.display == Portal ==> OnlyInstance(c, t.csrf))
    && (t.csrf in c.frozen ==> t.sid == Some(c.frozen[t.csrf]) && c.frozen[t.csrf] in c.sessions &&
                               c.txns[id].deadline <= c.sessions[c.frozen[t.csrf]].absolute)
  }

  ghost predicate InstanceOk(c: Core, x: string)
    requires x in c.instances
  {
    && c.instances[x].csrf == x && c.instances[x].id in c.mentioned
    && (c.instances[x].display == Portal <==> c.instances[x].clientId.None?)
    && (c.instances[x].display == Portal && c.instances[x].id !in c.known ==> x !in c.completer)
  }

  ghost predicate CompleterOk(c: Core, x: string)
    requires x in c.completer
  {
    && x in c.instances && c.completer[x] in c.used
    && (x in c.frozen ==> c.completer[x] !in c.threads && c.instances[x].display == Portal)
  }

  ghost predicate ThreadOk(c: Core, tid: Tid)
    requires tid in c.threads
  {
    match c.threads[tid]
    case PageOpen(id) => id in c.mentioned && id !in c.known
    case LoginReady(t, client) => IsInstance(c, t) && t.id in c.known
    case LoginDone(t, sid, portal, client, begun) =>
      IsInstance(c, t) && t.csrf in c.completer && c.completer[t.csrf] == tid && (!portal ==> t.display != Portal)
    case ScopeReady(_) => true
  }

  ghost predicate AssertionOk(c: Core, a: Assertion) {
    && a.instance in c.completer && a.instance in c.instances && c.completer[a.instance] !in c.threads
    && (var t := c.instances[a.instance];
        a.aud == t.clientId && a.aud.Some? && a.txn == t.id && a.state == t.state && a.delivery == DeliveryOf(t))
    && a.sid in c.sessions && a.sub == c.sessions[a.sid].its
  }

  ghost predicate RecordsOk(c: Core) { forall id :: id in c.txns ==> RecordOk(c, id) }
  ghost predicate InstancesOk(c: Core) {
    && (forall x :: x in c.instances ==> InstanceOk(c, x)) && c.known <= c.mentioned
    && (forall x :: x in c.frozen ==> x in c.completer)
  }
  ghost predicate CompletersOk(c: Core) { forall x :: x in c.completer ==> CompleterOk(c, x) }
  ghost predicate ThreadsOk(c: Core) {
    && c.threads.Keys <= c.used && (forall tid :: tid in c.threads ==> ThreadOk(c, tid))
    && (forall a, b ::
         a in c.threads && b in c.threads && a != b && c.threads[a].PageOpen? && c.threads[b].PageOpen? ==>
          c.threads[a].id != c.threads[b].id)
  }
  ghost predicate IssuedOk(c: Core) {
    && (forall a :: a in c.issued ==> AssertionOk(c, a))
    && (forall i, j :: 0 <= i < j < |c.issued| ==>
         c.issued[i].instance != c.issued[j].instance && c.issued[i].jti != c.issued[j].jti)
  }

  ghost predicate Inv(c: Core) {
    RecordsOk(c) && InstancesOk(c) && CompletersOk(c) && ThreadsOk(c) && IssuedOk(c)
  }

  // ---- each event keeps it ----

  /** History only grows, and no finished thread comes back. */
  ghost predicate Extends(c: Core, d: Core) {
    && (forall x :: x in c.instances ==> x in d.instances && d.instances[x] == c.instances[x])
    && (forall x :: x in c.completer ==> x in d.completer && d.completer[x] == c.completer[x])
    && (forall x :: x in c.sessions ==> x in d.sessions && d.sessions[x] == c.sessions[x])
    && c.mentioned <= d.mentioned && c.known <= d.known && c.used <= d.used
    && (forall tid :: tid in d.threads ==> tid in c.threads || tid !in c.used)
  }

  lemma IssuedSurvives(c: Core, d: Core)
    requires IssuedOk(c) && CompletersOk(c) && Extends(c, d) && d.issued == c.issued
    ensures IssuedOk(d)
  {
    forall a | a in d.issued ensures AssertionOk(d, a) {
      assert AssertionOk(c, a) && CompleterOk(c, a.instance);
    }
  }

  lemma CompletersSurvive(c: Core, d: Core)
    requires CompletersOk(c) && Extends(c, d) && d.completer == c.completer && d.frozen == c.frozen
    ensures CompletersOk(d)
  {
    forall x | x in d.completer ensures CompleterOk(d, x) { assert CompleterOk(c, x); }
  }

  /** Threads outside changed are as before, and no open page's id became known unless that page's thread changed. */
  ghost predicate OnlyThreads(c: Core, d: Core, changed: set<Tid>) {
    && (forall t :: t in d.threads && t !in changed ==> t in c.threads && d.threads[t] == c.threads[t])
    && (forall t :: t in d.threads && t !in changed && c.threads[t].PageOpen? ==> c.threads[t].id !in d.known)
    && (forall t :: t in d.threads && t in changed ==>
         t in d.used && ThreadOk(d, t) && (d.threads[t].PageOpen? ==> d.threads[t].id !in c.mentioned))
  }

  lemma ThreadsSurvive(c: Core, d: Core, changed: set<Tid>)
    requires ThreadsOk(c) && Extends(c, d) && OnlyThreads(c, d, changed) && |changed| <= 1
    ensures ThreadsOk(d)
  {
    forall t | t in d.threads ensures ThreadOk(d, t) {
      if t !in changed { assert ThreadOk(c, t); }
    }
    forall t | t in c.threads && c.threads[t].PageOpen? ensures c.threads[t].id in c.mentioned {
      assert ThreadOk(c, t);
    }
    forall x, y | x in changed && y in changed ensures x == y {
      if x != y { assert {x, y} <= changed; SubsetSize({x, y}, changed); }
    }
  }

  lemma SubsetSize(a: set<Tid>, b: set<Tid>)
    requires a <= b
    ensures |a| <= |b|
  {
    assert b == a + (b - a);
  }

  /** Instances and records when none is created. */
  lemma InstancesSurvive(c: Core, d: Core)
    requires InstancesOk(c) && Extends(c, d) && d.instances == c.instances && d.completer == c.completer
    requires d.frozen == c.frozen && d.known <= d.mentioned
    ensures InstancesOk(d)
  {
    forall x | x in d.instances ensures InstanceOk(d, x) { assert InstanceOk(c, x); }
  }

  lemma RecordsSurvive(c: Core, d: Core)
    requires RecordsOk(c) && Extends(c, d) && d.txns == c.txns && d.instances == c.instances
    requires d.completer == c.completer && d.frozen == c.frozen
    ensures RecordsOk(d)
  {
    forall id | id in d.txns ensures RecordOk(d, id) { assert RecordOk(c, id); }
  }

  /** Events that touch neither records, instances nor completions. */
  lemma QuietKeepsInv(c: Core, d: Core, changed: set<Tid>)
    requires Inv(c) && Extends(c, d) && OnlyThreads(c, d, changed) && |changed| <= 1 && d.known <= d.mentioned
    requires d.txns == c.txns && d.instances == c.instances && d.completer == c.completer && d.frozen == c.frozen
    requires d.issued == c.issued
    ensures Inv(d)
  {
    RecordsSurvive(c, d);
    InstancesSurvive(c, d);
    CompletersSurvive(c, d);
    ThreadsSurvive(c, d, changed);
    IssuedSurvives(c, d);
  }

  /** create stores a record exactly over an absent key, and otherwise resumes one that was stored before. */
  lemma StoreIsNew(c: Core, cfg: Config, x: Input, csrf: string)
    requires RecordsOk(c) && csrf !in c.instances && InputOk(x)
    ensures var d := Stored(c, cfg, x, csrf);
            d == c.(txns := d.txns, instances := d.instances, replaced := d.replaced, served := d.served)
    ensures var d := Stored(c, cfg, x, csrf);
            if Live(c.txns, x.id, c.now)
            then d.txns == c.txns && d.instances == c.instances && d.replaced == c.replaced
            else d.txns == SetNx(c.txns, x, csrf, c.now, cfg.transactionTtl)
                 && d.instances == c.instances[csrf := NewTxn(x, csrf)]
  {
    if Live(c.txns, x.id, c.now) { assert RecordOk(c, x.id); }
  }

  /** A new record replaces an expired one; a portal id was never used before. */
  lemma StoreRecords(c: Core, cfg: Config, x: Input, csrf: string)
    requires Inv(c) && csrf !in c.instances && InputOk(x) && (x.display == Portal ==> x.id !in c.mentioned)
    ensures RecordsOk(Stored(c, cfg, x, csrf))
  {
    hide Stored;
    StoreIsNew(c, cfg, x, csrf);
    var d := Stored(c, cfg, x, csrf);
    forall y | y in c.instances ensures c.instances[y].id in c.mentioned { assert InstanceOk(c, y); }
    assert csrf in c.completer ==> CompleterOk(c, csrf);
    forall id | id in d.txns ensures RecordOk(d, id) {
      if id in c.txns { assert RecordOk(c, id); }
    }
  }

  lemma StoreInstances(c: Core, cfg: Config, x: Input, csrf: string, d: Core)
    requires Inv(c) && csrf !in c.instances && InputOk(x) && (x.display == Portal <==> x.clientId.None?)
    requires d.instances == Stored(c, cfg, x, csrf).instances && d.completer == c.completer && d.frozen == c.frozen
    requires x.id in d.mentioned && c.mentioned <= d.mentioned && c.known <= d.known <= d.mentioned
    ensures InstancesOk(d)
  {
    hide RecordsOk, ThreadsOk, IssuedOk, Stored;
    StoreIsNew(c, cfg, x, csrf);
    assert csrf in c.completer ==> CompleterOk(c, csrf);
    forall y | y in d.instances ensures InstanceOk(d, y) {
      if y in c.instances { assert InstanceOk(c, y); }
    }
  }

  lemma StoredKeepsInv(c: Core, cfg: Config, x: Input, csrf: string, d: Core, changed: set<Tid>)
    requires Inv(c) && csrf !in c.instances && InputOk(x) && (x.display == Portal <==> x.clientId.None?)
    requires x.display == Portal ==> x.id !in c.mentioned
    requires d.txns == Stored(c, cfg, x, csrf).txns && d.instances == Stored(c, cfg, x, csrf).instances
    requires d.completer == c.completer && d.frozen == c.frozen && d.issued == c.issued && d.sessions == c.sessions
    requires x.id in d.mentioned && c.mentioned <= d.mentioned && c.known <= d.known <= d.mentioned && c.used <= d.used
    requires forall tid :: tid in d.threads ==> tid in c.threads || tid !in c.used
    requires OnlyThreads(c, d, changed) && |changed| <= 1
    ensures Inv(d)
  {
    hide RecordsOk, InstancesOk, CompletersOk, ThreadsOk, IssuedOk, OnlyThreads;
    StoreRecords(c, cfg, x, csrf);
    StoreInstances(c, cfg, x, csrf, d);
    StoredRecords(Stored(c, cfg, x, csrf), d);
    CompletersSurvive(c, d);
    ThreadsSurvive(c, d, changed);
    IssuedSurvives(c, d);
  }

  lemma StoredRecords(c: Core, d: Core)
    requires RecordsOk(c) && d.txns == c.txns && d.instances == c.instances && d.completer == c.completer
    requires d.frozen == c.frozen && d.sessions == c.sessions
    ensures RecordsOk(d)
  {
    forall id | id in d.txns ensures RecordOk(d, id) { assert RecordOk(c, id); }
  }

  lemma CreatedByClientKeepsInv(c: Core, cfg: Config, x: Input, csrf: string)
    requires Inv(c)
    ensures Inv(CreatedByClient(c, cfg, x, csrf))
  {
    hide RecordsOk, InstanceOk, CompletersOk, IssuedOk;
    if CreatedByClient(c, cfg, x, csrf) != c {
      assert forall t :: t in c.threads ==> ThreadOk(c, t);
      StoredKeepsInv(c, cfg, x, csrf, CreatedByClient(c, cfg, x, csrf), {});
    }
  }

  lemma PageOpenedThreads(c: Core, cfg: Config, tid: Tid, id: string, csrf: string)
    requires Inv(c) && PageOpened(c, cfg, tid, id, csrf) != c
    ensures OnlyThreads(c, PageOpened(c, cfg, tid, id, csrf), {tid})
  {
    hide RecordsOk, InstanceOk, CompletersOk, IssuedOk, SetNx;
    assert forall t :: t in c.threads ==> ThreadOk(c, t);
  }

  lemma PageOpenedKeepsInv(c: Core, cfg: Config, tid: Tid, id: string, csrf: string)
    requires Inv(c)
    ensures Inv(PageOpened(c, cfg, tid, id, csrf))
  {
    hide RecordsOk, InstanceOk, CompletersOk, IssuedOk, ThreadOk, OnlyThreads, SetNx;
    if PageOpened(c, cfg, tid, id, csrf) != c {
      PageOpenedThreads(c, cfg, tid, id, csrf);
      StoredKeepsInv(c, cfg, Input(id, None, None, Portal, None, None), csrf, PageOpened(c, cfg, tid, id, csrf), {tid});
    }
  }

  /** A bind before a sign-in's own, or a non-overwriting one: a frozen instance keeps its sid. */
  lemma ReboundRecords(c: Core, id: string, sid: string, overwrite: bool)
    requires Inv(c) && sid in c.sessions
    requires overwrite ==> id in c.txns ==> c.txns[id].value.csrf !in c.frozen
    ensures RecordsOk(Rebound(c, id, sid, overwrite))
  {
    var d := Rebound(c, id, sid, overwrite);
    BindDeadline(c.txns, id, sid, c.sessions[sid].absolute, overwrite, c.now);
    forall y | y in d.txns ensures RecordOk(d, y) { assert RecordOk(c, y); }
  }

  lemma BindPageKeepsInv(c: Core, tid: Tid, sid: string)
    requires Inv(c) && tid in c.threads && c.threads[tid].PageOpen? && sid in c.sessions
    ensures Inv(Rebound(c, c.threads[tid].id, sid, true))
  {
    var id := c.threads[tid].id;
    assert ThreadOk(c, tid);
    if id in c.txns {
      var x := c.txns[id].value.csrf;
      assert RecordOk(c, id) && InstanceOk(c, x) && (x in c.completer ==> CompleterOk(c, x));
    }
    ReboundRecords(c, id, sid, true);
    var d := Rebound(c, id, sid, true);
    InstancesSurvive(c, d);
    CompletersSurvive(c, d);
    assert forall t :: t in c.threads ==> ThreadOk(c, t);
    ThreadsSurvive(c, d, {});
    IssuedSurvives(c, d);
  }

  lemma BindScopeKeepsInv(c: Core, tid: Tid, sid: string)
    requires Inv(c) && tid in c.threads && c.threads[tid].ScopeReady? && sid in c.sessions
    ensures Inv(End(Rebound(c, c.threads[tid].id, sid, false), tid))
  {
    var id := c.threads[tid].id;
    ReboundRecords(c, id, sid, false);
    var d := Rebound(c, id, sid, false);
    InstancesSurvive(c, d);
    CompletersSurvive(c, d);
    assert forall t :: t in c.threads ==> ThreadOk(c, t);
    ThreadsSurvive(c, d, {});
    IssuedSurvives(c, d);
    EndKeepsInv(d, tid);
  }

  lemma EndKeepsInv(c: Core, tid: Tid)
    requires Inv(c)
    ensures Inv(End(c, tid))
  {
    assert forall t :: t in c.threads ==> ThreadOk(c, t);
    QuietKeepsInv(c, End(c, tid), {});
  }

  /** What complete found: an instance nobody completed yet, a portal instance only if the login was for one. */
  lemma CompletableInstance(c: Core, tid: Tid)
    requires Inv(c) && tid in c.threads && c.threads[tid].LoginReady?
    requires var t := c.threads[tid].t; Live(c.txns, t.id, c.now) && c.txns[t.id].value.status == PENDING
    ensures var t := c.threads[tid].t; var found := c.txns[t.id].value;
            && found.id == t.id && IsInstance(c, found) && found.csrf !in c.completer && found.csrf !in c.frozen
            && found.id in c.known && (t.display != Portal ==> found.display != Portal)
  {
    var t := c.threads[tid].t;
    assert ThreadOk(c, tid) && RecordOk(c, t.id);
    assert InstanceOk(c, c.txns[t.id].value.csrf) && InstanceOk(c, t.csrf);
  }

  lemma LoginCompletedRecords(c: Core, tid: Tid, sid: string)
    requires Inv(c) && tid in c.threads && c.threads[tid].LoginReady?
    ensures RecordsOk(LoginCompleted(c, tid, sid))
  {
    hide InstancesOk, CompletersOk, ThreadsOk, IssuedOk;
    var d := LoginCompleted(c, tid, sid);
    var t := c.threads[tid].t;
    if Complete(c.txns, t.id, c.now).1.Err? {
      RecordsSurvive(c, d);
    } else {
      CompletableInstance(c, tid);
      forall id | id in d.txns ensures RecordOk(d, id) { assert RecordOk(c, id); }
    }
  }

  /** complete: the instance is marked, its record leaves PENDING, and only this thread holds it. */
  lemma LoginCompletedKeepsInv(c: Core, tid: Tid, sid: string)
    requires Inv(c) && tid in c.threads && c.threads[tid].LoginReady?
    ensures Inv(LoginCompleted(c, tid, sid))
  {
    var d := LoginCompleted(c, tid, sid);
    var t := c.threads[tid].t;
    if Complete(c.txns, t.id, c.now).1.Err? {
      EndKeepsInv(c, tid);
    } else {
      CompletableInstance(c, tid);
      LoginCompletedRecords(c, tid, sid);
      LoginCompletedRest(c, d, tid, c.txns[t.id].value.csrf);
    }
  }

  lemma LoginCompletedRest(c: Core, d: Core, tid: Tid, csrf: string)
    requires Inv(c) && tid in c.threads && !c.threads[tid].PageOpen? && csrf !in c.completer && csrf in c.instances
    requires c.instances[csrf].id in c.known
    requires tid in d.threads && d.threads[tid].LoginDone? && ThreadOk(d, tid)
    requires RecordsOk(d)
    requires d == c.(txns := d.txns, threads := c.threads[tid := d.threads[tid]], completer := c.completer[csrf := tid])
    ensures Inv(d)
  {
    assert tid in c.used;
    forall x | x in d.instances ensures InstanceOk(d, x) { assert InstanceOk(c, x); }
    forall x | x in d.completer ensures CompleterOk(d, x) { if x in c.completer { assert CompleterOk(c, x); } }
    assert forall x :: x in c.threads ==> ThreadOk(c, x);
    ThreadsSurvive(c, d, {tid});
    IssuedSurvives(c, d);
  }

  /** issue: the only thread that completed the instance uses it once. */
  lemma IssuedKeepsInv(c: Core, cfg: Config, tid: Tid, jti: string)
    requires Inv(c) && tid in c.threads && c.threads[tid].LoginDone? && !c.threads[tid].portal
    requires c.threads[tid].sid in c.sessions
    requires forall a :: a in c.issued ==> a.jti != jti
    ensures Inv(Issued(c, cfg, tid, jti))
  {
    var e := End(c, tid);
    var d := Issued(c, cfg, tid, jti);
    EndKeepsInv(c, tid);
    var t := c.threads[tid].t;
    assert ThreadOk(c, tid) && InstanceOk(c, t.csrf);
    forall id | id in d.txns ensures RecordOk(d, id) { assert RecordOk(e, id); }
    forall x | x in d.instances ensures InstanceOk(d, x) { assert InstanceOk(e, x); }
    forall x | x in d.completer ensures CompleterOk(d, x) { assert CompleterOk(e, x); }
    forall x | x in d.threads ensures ThreadOk(d, x) { assert ThreadOk(e, x); }
    forall a | a in c.issued ensures a.instance != t.csrf && AssertionOk(d, a) {
      assert AssertionOk(c, a) && AssertionOk(e, a);
    }
    forall a | a in d.issued ensures AssertionOk(d, a) {
      if a !in c.issued { assert a == d.issued[|c.issued|]; }
    }
  }

  /** The sign-in's own bind is the only overwriting bind a known portal instance ever sees. */
  lemma PortalBoundRecords(c: Core, tid: Tid)
    requires Inv(c) && tid in c.threads && c.threads[tid].LoginDone? && c.threads[tid].sid in c.sessions
    ensures RecordsOk(PortalBound(c, tid))
  {
    var d := PortalBound(c, tid);
    var t, sid := c.threads[tid].t, c.threads[tid].sid;
    assert ThreadOk(c, tid) && CompleterOk(c, t.csrf);
    BindDeadline(c.txns, t.id, sid, c.sessions[sid].absolute, true, c.now);
    forall id | id in d.txns ensures RecordOk(d, id) {
      assert RecordOk(c, id);
      var x := c.txns[id].value.csrf;
      if x in c.frozen { assert CompleterOk(c, x) && c.instances[x].display == Portal; }
    }
  }

  lemma PortalBoundKeepsInv(c: Core, tid: Tid)
    requires Inv(c) && tid in c.threads && c.threads[tid].LoginDone? && c.threads[tid].sid in c.sessions
    ensures Inv(PortalBound(c, tid))
  {
    var e := End(c, tid);
    var d := PortalBound(c, tid);
    EndKeepsInv(c, tid);
    var t, sid := c.threads[tid].t, c.threads[tid].sid;
    assert ThreadOk(c, tid) && CompleterOk(c, t.csrf);
    PortalBoundRecords(c, tid);
    forall x | x in d.instances ensures InstanceOk(d, x) { assert InstanceOk(e, x); }
    forall x | x in d.completer ensures CompleterOk(d, x) { assert CompleterOk(e, x); }
    forall x | x in d.threads ensures ThreadOk(d, x) { assert ThreadOk(e, x); }
    forall a | a in d.issued ensures AssertionOk(d, a) { assert AssertionOk(e, a); }
  }

  lemma LoginBegunThreads(c: Core, tid: Tid, id: string, clientId: Option<string>, csrf: string)
    requires Inv(c) && LoginBegun(c, tid, id, clientId, csrf) != c
    ensures OnlyThreads(c, LoginBegun(c, tid, id, clientId, csrf), {tid})
  {
    hide InstancesOk, CompletersOk, IssuedOk;
    assert forall x :: x in c.threads ==> ThreadOk(c, x);
    assert RecordOk(c, id);
  }

  lemma LoginBegunKeepsInv(c: Core, tid: Tid, id: string, clientId: Option<string>, csrf: string)
    requires Inv(c)
    ensures Inv(LoginBegun(c, tid, id, clientId, csrf))
  {
    hide RecordsOk, InstanceOk, CompletersOk, IssuedOk, ThreadOk, OnlyThreads, Pending;
    var d := LoginBegun(c, tid, id, clientId, csrf);
    if d != c {
      LoginBegunThreads(c, tid, id, clientId, csrf);
      QuietKeepsInv(c, d, {tid});
    }
  }

  lemma ScopeBegunKeepsInv(c: Core, tid: Tid, id: string)
    requires Inv(c)
    ensures Inv(ScopeBegun(c, tid, id))
  {
    hide RecordsOk, InstanceOk, CompletersOk, IssuedOk;
    var d := ScopeBegun(c, tid, id);
    assert forall x :: x in c.threads ==> ThreadOk(c, x);
    if d != c { QuietKeepsInv(c, d, {tid}); }
  }

  lemma ShowPageKeepsInv(c: Core, tid: Tid)
    requires Inv(c) && tid in c.threads && c.threads[tid].PageOpen?
    ensures Inv(End(c, tid).(known := c.known + {c.threads[tid].id}))
  {
    assert forall x :: x in c.threads ==> ThreadOk(c, x);
    QuietKeepsInv(c, End(c, tid).(known := c.known + {c.threads[tid].id}), {});
  }

  lemma StepKeepsInv(cfg: Config, c: Core, e: Event)
    requires Inv(c)
    ensures Inv(Step(cfg, c, e))
  {
    if e.IssueAssertion? || e.BindPortal? || e.CompleteLogin? || e.BeginLogin? {
      LoginStepKeepsInv(cfg, c, e);
    } else if e.BindPage? || e.ShowPage? || e.BeginScope? || e.BindScope? {
      BindStepKeepsInv(cfg, c, e);
    } else {
      CreateStepKeepsInv(cfg, c, e);
    }
  }

  lemma CreateStepKeepsInv(cfg: Config, c: Core, e: Event)
    requires Inv(c) && (e.Advance? || e.OpenSession? || e.CreateClientTxn? || e.OpenPage?)
    ensures Inv(Step(cfg, c, e))
  {
    hide Inv;
    match e
    case CreateClientTxn(x, csrf) => CreatedByClientKeepsInv(c, cfg, x, csrf);
    case OpenPage(tid, id, csrf) => PageOpenedKeepsInv(c, cfg, tid, id, csrf);
    case Advance(ms) => OutsideKeepsInv(c, c.(now := c.now + ms));
    case OpenSession(sid, its, absolute) =>
      if sid !in c.sessions { OutsideKeepsInv(c, c.(sessions := c.sessions[sid := Session(its, absolute)])); }
  }

  lemma OutsideKeepsInv(c: Core, d: Core)
    requires Inv(c) && d == c.(now := d.now, sessions := d.sessions)
    requires forall x :: x in c.sessions ==> x in d.sessions && d.sessions[x] == c.sessions[x]
    ensures Inv(d)
  {
    assert forall x :: x in c.threads ==> ThreadOk(c, x);
    QuietKeepsInv(c, d, {});
  }

  lemma LoginStepKeepsInv(cfg: Config, c: Core, e: Event)
    requires Inv(c) && (e.IssueAssertion? || e.BindPortal? || e.CompleteLogin? || e.BeginLogin?)
    ensures Inv(Step(cfg, c, e))
  {
    hide Inv;
    if Step(cfg, c, e) != c {
      match e
      case BeginLogin(tid, id, clientId, csrf) => LoginBegunKeepsInv(c, tid, id, clientId, csrf);
      case CompleteLogin(tid, sid) => LoginCompletedKeepsInv(c, tid, sid);
      case IssueAssertion(tid, jti) => IssuedKeepsInv(c, cfg, tid, jti);
      case BindPortal(tid) => PortalBoundKeepsInv(c, tid);
    }
  }

  lemma BindStepKeepsInv(cfg: Config, c: Core, e: Event)
    requires Inv(c) && (e.BindPage? || e.ShowPage? || e.BeginScope? || e.BindScope?)
    ensures Inv(Step(cfg, c, e))
  {
    hide Inv;
    if Step(cfg, c, e) != c {
      match e
      case BindPage(tid, sid) => BindPageKeepsInv(c, tid, sid);
      case ShowPage(tid) => ShowPageKeepsInv(c, tid);
      case BeginScope(tid, id) => ScopeBegunKeepsInv(c, tid, id);
      case BindScope(tid, sid) => BindScopeKeepsInv(c, tid, sid);
    }
  }

  lemma {:induction false} RunKeepsInv(cfg: Config, now: int, events: seq<Event>)
    ensures Inv(Run(cfg, now, events))
  {
    if events != [] {
      RunKeepsInv(cfg, now, events[..|events| - 1]);
      StepKeepsInv(cfg, Run(cfg, now, events[..|events| - 1]), events[|events| - 1]);
    }
  }

  /** What has been completed, frozen or opened stays so. */
  ghost predicate Grows(c: Core, d: Core) {
    && (forall x :: x in c.completer ==> x in d.completer && d.completer[x] == c.completer[x])
    && (forall x :: x in c.frozen ==> x in d.frozen && d.frozen[x] == c.frozen[x])
    && (forall x :: x in c.sessions ==> x in d.sessions && d.sessions[x] == c.sessions[x])
    && (forall x :: x in c.instances ==> x in d.instances && d.instances[x] == c.instances[x])
  }

  lemma CompletionGrows(c: Core, tid: Tid, sid: string)
    requires Inv(c) && tid in c.threads && c.threads[tid].LoginReady?
    ensures Grows(c, LoginCompleted(c, tid, sid))
  {
    if Complete(c.txns, c.threads[tid].t.id, c.now).1.Ok? { CompletableInstance(c, tid); }
  }

  lemma PortalBoundGrows(c: Core, tid: Tid)
    requires Inv(c) && tid in c.threads && c.threads[tid].LoginDone? && c.threads[tid].sid in c.sessions
    ensures Grows(c, PortalBound(c, tid))
  {
    assert ThreadOk(c, tid) && CompleterOk(c, c.threads[tid].t.csrf);
  }

  lemma CreationGrows(c: Core, cfg: Config, x: Input, csrf: string)
    ensures Grows(c, CreatedByClient(c, cfg, x, csrf))
  {
  }

  lemma OpeningGrows(c: Core, cfg: Config, tid: Tid, id: string, csrf: string)
    ensures Grows(c, PageOpened(c, cfg, tid, id, csrf))
  {
  }

  lemma LoginStepGrows(cfg: Config, c: Core, e: Event)
    requires Inv(c) && (e.CompleteLogin? || e.BindPortal? || e.IssueAssertion?)
    ensures Grows(c, Step(cfg, c, e))
  {
    if Step(cfg, c, e) != c {
      match e
      case CompleteLogin(tid, sid) => CompletionGrows(c, tid, sid);
      case BindPortal(tid) => PortalBoundGrows(c, tid);
      case IssueAssertion(tid, jti) =>
    }
  }

  lemma StepGrows(cfg: Config, c: Core, e: Event)
    requires Inv(c)
    ensures Grows(c, Step(cfg, c, e))
  {
    hide Grows;
    if e.CompleteLogin? || e.BindPortal? || e.IssueAssertion? {
      LoginStepGrows(cfg, c, e);
    } else if e.CreateClientTxn? {
      CreationGrows(c, cfg, e.x, e.csrf);
    } else if e.OpenPage? {
      OpeningGrows(c, cfg, e.tid, e.id, e.csrf);
    } else {
      QuietStepGrows(cfg, c, e);
    }
  }

  lemma BindingGrows(cfg: Config, c: Core, e: Event)
    requires e.BindPage? || e.BindScope?
    ensures Grows(c, Step(cfg, c, e))
  {
    hide Bind;
  }

  lemma BeginningGrows(cfg: Config, c: Core, e: Event)
    requires e.BeginLogin? || e.BeginScope?
    ensures Grows(c, Step(cfg, c, e))
  {
    hide Pending, Live;
  }

  lemma OutsideGrows(cfg: Config, c: Core, e: Event)
    requires e.Advance? || e.OpenSession? || e.ShowPage?
    ensures Grows(c, Step(cfg, c, e))
  {
  }

  lemma QuietStepGrows(cfg: Config, c: Core, e: Event)
    requires e.Advance? || e.OpenSession? || e.BindPage? || e.ShowPage? || e.BeginLogin? || e.BeginScope?
        || e.BindScope?
    ensures Grows(c, Step(cfg, c, e))
  {
    hide Grows, Step;
    if e.BindPage? || e.BindScope? {
      BindingGrows(cfg, c, e);
    } else if e.BeginLogin? || e.BeginScope? {
      BeginningGrows(cfg, c, e);
    } else {
      OutsideGrows(cfg, c, e);
    }
  }

  lemma GrowsTransitive(a: Core, b: Core, c: Core)
    requires Grows(a, b) && Grows(b, c)
    ensures Grows(a, c)
  {
  }

  lemma {:induction false} RunGrows(cfg: Config, now: int, events: seq<Event>, more: seq<Event>)
    ensures Grows(Run(cfg, now, events), Run(cfg, now, events + more))
  {
    if more == [] {
      assert events + more == events;
    } else {
      var front, e := more[..|more| - 1], more[|more| - 1];
      var mid := Run(cfg, now, events + front);
      RunGrows(cfg, now, events, front);
      RunKeepsInv(cfg, now, events + front);
      StepGrows(cfg, mid, e);
      GrowsTransitive(Run(cfg, now, events), mid, Step(cfg, mid, e));
      assert (events + more)[..|events + more| - 1] == events + front;
      assert Run(cfg, now, events + more) == Step(cfg, mid, e);
    }
  }

  // ---- main results ----

  /** Each stored transaction instance yields at most one assertion, and that assertion's audience, transaction, state
      and delivery target are the ones the instance was created with, its subject the owner of its session. */
  lemma OneAssertionPerInstance(cfg: Config, now: int, events: seq<Event>, i: nat, j: nat)
    ensures var c := Run(cfg, now, events);
            i < j < |c.issued| ==> c.issued[i].instance != c.issued[j].instance && c.issued[i].jti != c.issued[j].jti
    ensures var c := Run(cfg, now, events);
            i < |c.issued| ==>
              var a := c.issued[i];
              && a.instance in c.instances
              && (var t := c.instances[a.instance];
                  a.aud == t.clientId && a.aud.Some? && a.txn == t.id && a.state == t.state
                    && a.delivery == DeliveryOf(t))
              && a.sid in c.sessions && a.sub == c.sessions[a.sid].its
  {
    RunKeepsInv(cfg, now, events);
    var c := Run(cfg, now, events);
    if i < |c.issued| { assert AssertionOk(c, c.issued[i]); }
  }

  /** A completed record is never PENDING again: whatever runs afterwards, the id either holds it COMPLETED or holds a
      record of another instance, created after it had expired. An instance is completed exactly when complete answered
      some request with it. */
  lemma NeverPendingAgain(cfg: Config, now: int, events: seq<Event>, more: seq<Event>, id: string)
    ensures var c := Run(cfg, now, events); var d := Run(cfg, now, events + more);
            id in c.txns && c.txns[id].value.status == COMPLETED && id in d.txns
              && d.txns[id].value.csrf == c.txns[id].value.csrf ==>
              d.txns[id].value.status == COMPLETED
    ensures var c := Run(cfg, now, events);
            id in c.txns ==> (c.txns[id].value.status == COMPLETED <==> c.txns[id].value.csrf in c.completer)
  {
    RunGrows(cfg, now, events, more);
    RunKeepsInv(cfg, now, events);
    RunKeepsInv(cfg, now, events + more);
    var c, d := Run(cfg, now, events), Run(cfg, now, events + more);
    if id in c.txns { assert RecordOk(c, id); }
    if id in d.txns { assert RecordOk(d, id); }
  }

  /** Portal binding freezes: once the sign-in that completed a portal instance has bound it, whatever runs afterwards
      leaves the stored record bound to that sid, with a deadline no later than that session's absolute expiry. */
  lemma PortalBindingFreezes(cfg: Config, now: int, events: seq<Event>, more: seq<Event>, id: string)
    ensures var c := Run(cfg, now, events); var d := Run(cfg, now, events + more);
            id in d.txns && d.txns[id].value.csrf in c.frozen ==>
              var sid := c.frozen[d.txns[id].value.csrf];
              d.txns[id].value.sid == Some(sid) && sid in d.sessions && d.txns[id].deadline <= d.sessions[sid].absolute
  {
    RunGrows(cfg, now, events, more);
    RunKeepsInv(cfg, now, events + more);
    var d := Run(cfg, now, events + more);
    if id in d.txns { assert RecordOk(d, id); }
  }
}
