/** Single logout: whole runs of the Core session service together with every application's local sessions. Requests
    hold session objects across calls, and a logout token is handled in two commands, interleaved with everything
    else. */
module SingleLogout {
  import opened Wrappers
  import opened Redis
  import opened FederationSessions
  import S = SessionRuns
  import C = ClientCache
  import V = Revocation
  import L = LocalSessions
  import B = LocalInterleaving

  /** The result of one revoke: the listed clients, the participants on record at that moment, whether no client of the
      sid had been hidden by then, the step of the revoke, and the clients whose notification SUCCEEDED. */
  datatype FanOut = FanOut(sid: Sid, clients: set<ClientId>, participants: set<ClientId>, whole: bool, began: nat,
                           succeeded: set<ClientId>)

  /** ready: addClient has returned for the client, so its assertion can be delivered. given: it has been.
      read: the step at which a client listed its local sessions for the token of a fan-out. */
  datatype World = World(core: S.Sys, books: map<ClientId, B.Book>, steps: nat,
                         ready: set<(Sid, ClientId)>, given: set<(Sid, ClientId)>,
                         fanOuts: seq<FanOut>, read: map<(nat, ClientId), nat>)

  datatype Event =
    // clock, create, get, touch, addClient, and revoke without fan-out (endBrowserSession)
    | Core(op: S.Op)
    | Deliver(sid: Sid, client: ClientId)
    | Callback(client: ClientId, id: L.LocalId, itsId: ItsId, sid: Sid, authTime: int)
    | LocalLogout(client: ClientId, id: L.LocalId)
    | LogoutSession(sid: Sid)
    | LogoutUser(itsId: ItsId, order: seq<Sid>)
    // SMEMBERS of the handler of fan-out n's token, whose jti is claimed once, and its DEL
    | HandleRead(n: nat, client: ClientId)
    | HandleDelete(n: nat, client: ClientId)
    // notifyClient saw the 2xx the handler sent at its end
    | Succeed(n: nat, client: ClientId)

  function BookOf(w: World, c: ClientId): B.Book {
    if c in w.books then w.books[c] else B.BLANK
  }

  function WithBook(w: World, c: ClientId, b: B.Book): World {
    w.(books := w.books[c := b])
  }

  function FanOutOf(core: S.Sys, r: Revoked, step: nat): FanOut {
    FanOut(r.sid, r.clients, Participants(core.fed, r.sid), r.sid !in core.hidden, step, {})
  }

  /** One fan-out per result. */
  function FanOutsOf(core: S.Sys, rs: seq<Revoked>, step: nat): seq<FanOut> {
    seq(|rs|, i requires 0 <= i < |rs| => FanOutOf(core, rs[i], step))
  }

  ghost function CoreStep(cfg: Config, w: World, op: S.Op): World {
    if op.RevokeAllOp? then w
    else w.(core := S.Step(cfg, w.core, op),
            ready := if op.AddClientOp? && op.s in w.core.held then w.ready + {(op.s.sid, op.client)} else w.ready)
  }

  /** logoutSession and logoutUser: the revocations, then a fan-out for each new result. */
  ghost function LoggedOff(cfg: Config, w: World, op: S.Op): World {
    var core := S.Step(cfg, w.core, op);
    if |w.core.log| <= |core.log|
    then w.(core := core, fanOuts := w.fanOuts + FanOutsOf(w.core, core.log[|w.core.log|..], w.steps))
    else w
  }

  function Reading(w: World, n: nat, client: ClientId): World {
    if n < |w.fanOuts| && client in w.fanOuts[n].clients && (n, client) !in w.read && n !in BookOf(w, client).readers
    then
      var b := B.Listed(BookOf(w, client), n, w.fanOuts[n].sid, w.core.now, w.steps);
      WithBook(w, client, b).(read := w.read[(n, client) := w.steps])
    else w
  }

  function Succeeded(w: World, n: nat, client: ClientId): World {
    if n < |w.fanOuts| && (n, client) in w.read && n !in BookOf(w, client).readers
    then w.(fanOuts := w.fanOuts[n := w.fanOuts[n].(succeeded := w.fanOuts[n].succeeded + {client})])
    else w
  }

  function Opening(w: World, ttl: int, client: ClientId, id: L.LocalId, s: L.LocalSession): World {
    if (s.sid, client) !in w.given || id in BookOf(w, client).born then w
    else WithBook(w, client, B.Opened(BookOf(w, client), ttl, id, s, w.core.now, w.steps))
  }

  ghost function Step(cfg: Config, ttl: ClientId -> int, x: World, e: Event): World {
    var w := x.(steps := x.steps + 1);
    match e
    case Core(op) => CoreStep(cfg, w, op)
    case Deliver(sid, client) => if (sid, client) in w.ready then w.(given := w.given + {(sid, client)}) else w
    case Callback(client, id, itsId, sid, authTime) =>
      Opening(w, ttl(client), client, id, L.LocalSession(itsId, sid, authTime, w.core.now))
    case LocalLogout(client, id) =>
      if id in BookOf(w, client).born then WithBook(w, client, B.Closed(BookOf(w, client), id, w.core.now)) else w
    case LogoutSession(sid) => LoggedOff(cfg, w, S.RevokeOp(sid))
    case LogoutUser(itsId, order) => LoggedOff(cfg, w, S.RevokeAllOp(itsId, order))
    case HandleRead(n, client) => Reading(w, n, client)
    case HandleDelete(n, client) =>
      if n in BookOf(w, client).readers then WithBook(w, client, B.Deleted(BookOf(w, client), n, w.steps)) else w
    case Succeed(n, client) => Succeeded(w, n, client)
  }

  function Start(now: int): World {
    World(S.Start(now), map[], 0, {}, {}, [], map[])
  }

  ghost function Run(cfg: Config, ttl: ClientId -> int, now: int, events: seq<Event>): World {
    if events == [] then Start(now)
    else Step(cfg, ttl, Run(cfg, ttl, now, events[..|events| - 1]), events[|events| - 1])
  }

  // ---- the invariant ----

  ghost predicate Positive(ttl: ClientId -> int) { forall c :: 0 < ttl(c) }

  /** Whoever has been added is a participant on record. */
  ghost predicate Recorded(w: World) {
    && (forall sid: Sid, c: ClientId :: (sid, c) in w.ready ==> c in Participants(w.core.fed, sid))
    && w.given <= w.ready
  }

  /** Unless clients of the sid had been hidden by then, a fan-out lists every participant. */
  ghost predicate FanOutOk(w: World, n: nat)
    requires n < |w.fanOuts|
  {
    && w.fanOuts[n].began <= w.steps
    && (w.fanOuts[n].whole ==> w.fanOuts[n].clients == w.fanOuts[n].participants)
    && (forall c :: c in w.fanOuts[n].succeeded ==> Handled(w, n, c))
  }

  ghost predicate FanOutsOk(w: World) {
    forall n: nat :: n < |w.fanOuts| ==> FanOutOk(w, n)
  }

  /** The client's handler for the token of fan-out n has finished. */
  ghost predicate Handled(w: World, n: nat, c: ClientId)
    requires n < |w.fanOuts|
  {
    (n, c) in w.read && exists h :: h in BookOf(w, c).completed && h.sid == w.fanOuts[n].sid && h.read == w.read[(n, c)]
  }

  /** A token is read after its fan-out began, and its handler is between its commands or has finished. */
  ghost predicate ReadOk(w: World, n: nat, c: ClientId)
    requires (n, c) in w.read
  {
    && n < |w.fanOuts| && c in w.fanOuts[n].clients && w.fanOuts[n].began < w.read[(n, c)] <= w.steps
    && (n in BookOf(w, c).readers ==>
         BookOf(w, c).readers[n].sid == w.fanOuts[n].sid && BookOf(w, c).readers[n].at == w.read[(n, c)])
    && (n !in BookOf(w, c).readers ==> Handled(w, n, c))
  }

  ghost predicate ReadsOk(w: World) {
    && (forall n: nat, c: ClientId :: (n, c) in w.read ==> ReadOk(w, n, c))
    && (forall c, n: nat :: n in BookOf(w, c).readers ==> (n, c) in w.read)
  }

  ghost predicate BooksOk(ttl: ClientId -> int, w: World) {
    forall c :: B.Inv(BookOf(w, c), ttl(c), w.core.now, w.steps)
  }

  ghost predicate Inv(cfg: Config, ttl: ClientId -> int, w: World) {
    S.Inv(cfg, w.core) && Recorded(w) && FanOutsOk(w) && ReadsOk(w) && BooksOk(ttl, w)
  }

  // ---- Core side ----

  /** Only the Core changed: its clock and its stores. */
  ghost predicate CoreMoved(x: World, w: World) {
    && w.books == x.books && w.read == x.read && x.steps < w.steps && x.core.now <= w.core.now
    && x.core.hidden <= w.core.hidden
    && x.given == w.given && x.ready <= w.ready && x.fanOuts <= w.fanOuts
  }

  lemma BooksLater(ttl: ClientId -> int, x: World, w: World)
    requires BooksOk(ttl, x) && CoreMoved(x, w)
    ensures BooksOk(ttl, w)
  {
    forall c ensures B.Inv(BookOf(w, c), ttl(c), w.core.now, w.steps) {
      B.LaterKeepsInv(BookOf(x, c), ttl(c), x.core.now, w.core.now, x.steps, w.steps);
    }
  }

  lemma ReadsLater(x: World, w: World)
    requires ReadsOk(x) && CoreMoved(x, w)
    ensures ReadsOk(w)
  {
    forall n: nat, c: ClientId | (n, c) in w.read ensures ReadOk(w, n, c) {
      assert ReadOk(x, n, c);
      assert w.fanOuts[n] == x.fanOuts[n];
      if n !in BookOf(w, c).readers {
        var h :| h in BookOf(x, c).completed && h.sid == x.fanOuts[n].sid && h.read == x.read[(n, c)];
        assert h in BookOf(w, c).completed;
      }
    }
  }

  lemma FanOutsLater(x: World, w: World, n: nat)
    requires FanOutsOk(x) && ReadsOk(x) && CoreMoved(x, w) && n < |x.fanOuts|
    ensures FanOutOk(w, n)
  {
    assert FanOutOk(x, n) && w.fanOuts[n] == x.fanOuts[n];
    forall c | c in w.fanOuts[n].succeeded ensures Handled(w, n, c) {
      assert Handled(x, n, c);
      var h :| h in BookOf(x, c).completed && h.sid == x.fanOuts[n].sid && h.read == x.read[(n, c)];
      assert h in BookOf(w, c).completed;
    }
  }

  lemma CoreFacts(cfg: Config, x: S.Sys, op: S.Op)
    requires S.Inv(cfg, x)
    ensures var y := S.Step(cfg, x, op);
            && x.now <= y.now && x.hidden <= y.hidden
            && (forall sid :: Participants(x.fed, sid) <= Participants(y.fed, sid))
            && (op.AddClientOp? && op.s in x.held ==> op.client in Participants(y.fed, op.s.sid))
  {
    match op
    case RevokeOp(sid) => S.RevokeOutcome(cfg, x, sid);
    case RevokeAllOp(itsId, order) =>
      if Enumerates(order, UserSids(x.fed, itsId, x.now)) { S.RevokeEachKeepsInv(cfg, x, order); }
    case _ =>
  }

  lemma CoreKeepsInv(cfg: Config, ttl: ClientId -> int, x: World, op: S.Op)
    requires cfg.Valid() && Inv(cfg, ttl, x)
    ensures Inv(cfg, ttl, Step(cfg, ttl, x, Core(op)))
  {
    hide B.Inv, S.Inv;
    var w := Step(cfg, ttl, x, Core(op));
    S.StepKeepsInv(cfg, x.core, op);
    CoreFacts(cfg, x.core, op);
    BooksLater(ttl, x, w);
    ReadsLater(x, w);
    forall n: nat | n < |w.fanOuts| ensures FanOutOk(w, n) { FanOutsLater(x, w, n); }
  }

  /** A result that is due lists the client set, which is the table unless clients were hidden. */
  lemma DueListsEveryone(cfg: Config, x: S.Sys, r: Revoked)
    requires S.Inv(cfg, x) && S.Due(x.fed, x.now, r) && r.sid !in x.hidden
    ensures r.clients == Participants(x.fed, r.sid)
  {
  }

  lemma NewFanOut(cfg: Config, x: S.Sys, r: Revoked, step: nat)
    requires S.Inv(cfg, x) && S.Due(x.fed, x.now, r)
    ensures var o := FanOutOf(x, r, step); o.whole ==> o.clients == o.participants
  {
    if r.sid !in x.hidden { DueListsEveryone(cfg, x, r); }
  }

  lemma NewResultsAreDue(cfg: Config, x: S.Sys, op: S.Op)
    requires S.Inv(cfg, x) && (op.RevokeOp? || op.RevokeAllOp?)
    ensures var y := S.Step(cfg, x, op);
            x.log <= y.log && y.hidden == x.hidden && forall r :: r in y.log[|x.log|..] ==> S.Due(x.fed, x.now, r)
  {
    match op
    case RevokeOp(sid) => S.RevokeOutcome(cfg, x, sid);
    case RevokeAllOp(itsId, order) =>
      if Enumerates(order, UserSids(x.fed, itsId, x.now)) {
        S.RevokeEachFacts(cfg, x, order);
        var rs := RevokeEach(x.fed, order, x.now).1;
        assert (x.log + rs)[|x.log|..] == rs;
      }
  }

  /** The fan-outs of results that are due, after those there were. */
  lemma NewFanOutsOk(cfg: Config, x: World, w: World, rs: seq<Revoked>)
    requires S.Inv(cfg, x.core) && FanOutsOk(x) && ReadsOk(x) && CoreMoved(x, w)
    requires w.fanOuts == x.fanOuts + FanOutsOf(x.core, rs, w.steps)
    requires forall r :: r in rs ==> S.Due(x.core.fed, x.core.now, r)
    ensures FanOutsOk(w)
  {
    forall n: nat | n < |w.fanOuts| ensures FanOutOk(w, n) {
      if n < |x.fanOuts| {
        FanOutsLater(x, w, n);
      } else {
        var r := rs[n - |x.fanOuts|];
        assert r in rs && w.fanOuts[n] == FanOutOf(x.core, r, w.steps);
        NewFanOut(cfg, x.core, r, w.steps);
      }
    }
  }

  /** What a logout fans out to is every participant on record, unless clients of the sid had been hidden by then. */
  lemma LogoutKeepsInv(cfg: Config, ttl: ClientId -> int, x: World, op: S.Op)
    requires cfg.Valid() && Inv(cfg, ttl, x) && (op.RevokeOp? || op.RevokeAllOp?)
    ensures Inv(cfg, ttl, LoggedOff(cfg, x.(steps := x.steps + 1), op))
  {
    var w := LoggedOff(cfg, x.(steps := x.steps + 1), op);
    S.StepKeepsInv(cfg, x.core, op);
    CoreFacts(cfg, x.core, op);
    NewResultsAreDue(cfg, x.core, op);
    assert CoreMoved(x, w);
    BooksLater(ttl, x, w);
    ReadsLater(x, w);
    NewFanOutsOk(cfg, x, w, w.core.log[|x.core.log|..]);
  }

  // ---- application side ----

  /** One client's book changed, and only grew in completed handlings. */
  ghost predicate BookMoved(x: World, w: World, client: ClientId) {
    && w == x.(steps := x.steps + 1, books := w.books, read := w.read, fanOuts := x.fanOuts)
    && (forall c :: c != client ==> BookOf(w, c) == BookOf(x, c))
    && BookOf(x, client).completed <= BookOf(w, client).completed
  }

  lemma HandledStays(x: World, w: World, client: ClientId, n: nat, c: ClientId)
    requires BookMoved(x, w, client) && n < |x.fanOuts| && Handled(x, n, c) && (n, c) in w.read
    requires w.read[(n, c)] == x.read[(n, c)]
    ensures Handled(w, n, c)
  {
    var h :| h in BookOf(x, c).completed && h.sid == x.fanOuts[n].sid && h.read == x.read[(n, c)];
    assert h in BookOf(w, c).completed;
  }

  lemma OtherBooks(ttl: ClientId -> int, x: World, w: World, client: ClientId)
    requires BooksOk(ttl, x) && BookMoved(x, w, client) && B.Inv(BookOf(w, client), ttl(client), w.core.now, w.steps)
    ensures BooksOk(ttl, w)
  {
    forall c ensures B.Inv(BookOf(w, c), ttl(c), w.core.now, w.steps) {
      if c != client { B.LaterKeepsInv(BookOf(x, c), ttl(c), x.core.now, w.core.now, x.steps, w.steps); }
    }
  }

  lemma FanOutsStay(x: World, w: World, client: ClientId)
    requires FanOutsOk(x) && BookMoved(x, w, client) && forall k :: k in x.read ==>
        k in w.read && w.read[k] == x.read[k]
    ensures FanOutsOk(w)
  {
    forall n: nat | n < |w.fanOuts| ensures FanOutOk(w, n) {
      assert FanOutOk(x, n);
      forall c | c in w.fanOuts[n].succeeded ensures Handled(w, n, c) { HandledStays(x, w, client, n, c); }
    }
  }

  /** A change of one book that keeps its readers: a callback or a local logout. */
  lemma QuietBookKeepsInv(cfg: Config, ttl: ClientId -> int, x: World, w: World, client: ClientId)
    requires Inv(cfg, ttl, x) && BookMoved(x, w, client) && w.read == x.read
    requires BookOf(w, client).readers == BookOf(x, client).readers
    requires B.Inv(BookOf(w, client), ttl(client), w.core.now, w.steps)
    ensures Inv(cfg, ttl, w)
  {
    OtherBooks(ttl, x, w, client);
    FanOutsStay(x, w, client);
    forall n: nat, c: ClientId | (n, c) in w.read ensures ReadOk(w, n, c) {
      assert ReadOk(x, n, c);
      if n !in BookOf(w, c).readers { HandledStays(x, w, client, n, c); }
    }
  }

  lemma NothingKeepsInv(cfg: Config, ttl: ClientId -> int, x: World, w: World)
    requires Inv(cfg, ttl, x) && w == x.(steps := x.steps + 1, given := w.given) && w.given <= w.ready
    ensures Inv(cfg, ttl, w)
  {
    hide B.Inv, S.Inv;
    var y := x.(steps := x.steps + 1);
    B.LaterKeepsInv(BookOf(x, ""), ttl(""), x.core.now, x.core.now, x.steps, x.steps + 1);
    QuietBookKeepsInv(cfg, ttl, x, y, "");
    forall n: nat | n < |w.fanOuts| ensures FanOutOk(w, n) {
      assert FanOutOk(y, n);
      assert forall c :: Handled(w, n, c) == Handled(y, n, c);
    }
    forall n: nat, c: ClientId | (n, c) in w.read ensures ReadOk(w, n, c) {
      assert ReadOk(y, n, c);
      assert Handled(w, n, c) == Handled(y, n, c);
    }
    forall c ensures B.Inv(BookOf(w, c), ttl(c), w.core.now, w.steps) { assert BookOf(w, c) == BookOf(y, c); }
  }

  lemma CallbackKeepsInv(cfg: Config, ttl: ClientId -> int, x: World, client: ClientId, id: L.LocalId,
      s: L.LocalSession)
    requires Positive(ttl) && Inv(cfg, ttl, x)
    ensures Inv(cfg, ttl, Opening(x.(steps := x.steps + 1), ttl(client), client, id, s))
  {
    var y := x.(steps := x.steps + 1);
    var w := Opening(y, ttl(client), client, id, s);
    if w == y {
      NothingKeepsInv(cfg, ttl, x, w);
    } else {
      var b := B.Opened(BookOf(x, client), ttl(client), id, s, x.core.now, x.steps + 1);
      B.OpenedKeepsInv(BookOf(x, client), ttl(client), id, s, x.core.now, x.steps + 1);
      assert BookOf(w, client) == b;
      QuietBookKeepsInv(cfg, ttl, x, w, client);
    }
  }

  lemma LocalLogoutKeepsInv(cfg: Config, ttl: ClientId -> int, x: World, client: ClientId, id: L.LocalId)
    requires Inv(cfg, ttl, x)
    ensures Inv(cfg, ttl, Step(cfg, ttl, x, LocalLogout(client, id)))
  {
    hide B.Inv, S.Inv;
    var w := Step(cfg, ttl, x, LocalLogout(client, id));
    if id in BookOf(x, client).born {
      B.ClosedKeepsInv(BookOf(x, client), ttl(client), id, x.core.now, x.steps + 1);
    } else {
      B.LaterKeepsInv(BookOf(x, client), ttl(client), x.core.now, x.core.now, x.steps, x.steps + 1);
    }
    QuietBookKeepsInv(cfg, ttl, x, w, client);
  }

  lemma HandleReadKeepsReads(x: World, w: World, n: nat, client: ClientId)
    requires ReadsOk(x) && BookMoved(x, w, client)
    requires w.read == x.read[(n, client) := x.steps + 1] && (n, client) !in x.read && ReadOk(w, n, client)
    requires forall m :: m != n ==> (m in BookOf(w, client).readers <==> m in BookOf(x, client).readers)
                                    && (m in BookOf(x, client).readers ==>
                                         BookOf(w, client).readers[m] == BookOf(x, client).readers[m])
    ensures ReadsOk(w)
  {
    forall m: nat, c: ClientId | (m, c) in w.read ensures ReadOk(w, m, c) {
      if (m, c) != (n, client) {
        assert ReadOk(x, m, c);
        if m !in BookOf(w, c).readers { HandledStays(x, w, client, m, c); }
      }
    }
  }

  lemma ListedBooks(ttl: ClientId -> int, x: World, w: World, n: nat, client: ClientId, sid: Sid)
    requires BooksOk(ttl, x) && n !in BookOf(x, client).readers && BookMoved(x, w, client)
    requires BookOf(w, client) == B.Listed(BookOf(x, client), n, sid, x.core.now, x.steps + 1)
    ensures BooksOk(ttl, w)
  {
    B.ListedKeepsInv(BookOf(x, client), ttl(client), n, sid, x.core.now, w.steps);
    OtherBooks(ttl, x, w, client);
  }

  /** SMEMBERS of a logout token's handler. */
  lemma HandleReadKeepsInv(cfg: Config, ttl: ClientId -> int, x: World, n: nat, client: ClientId)
    requires Inv(cfg, ttl, x)
    ensures Inv(cfg, ttl, Reading(x.(steps := x.steps + 1), n, client))
  {
    hide B.Inv, S.Inv;
    var y := x.(steps := x.steps + 1);
    var w := Reading(y, n, client);
    if w == y {
      NothingKeepsInv(cfg, ttl, x, w);
    } else {
      assert FanOutOk(x, n);
      assert BookMoved(x, w, client);
      NewReadOk(x, w, n, client);
      ListedBooks(ttl, x, w, n, client, x.fanOuts[n].sid);
      FanOutsStay(x, w, client);
      HandleReadKeepsReads(x, w, n, client);
    }
  }

  lemma NewReadOk(x: World, w: World, n: nat, client: ClientId)
    requires n < |x.fanOuts| && client in x.fanOuts[n].clients && x.fanOuts[n].began <= x.steps
    requires n !in BookOf(x, client).readers
    requires w
        == WithBook(x.(steps := x.steps + 1), client,
        B.Listed(BookOf(x, client), n, x.fanOuts[n].sid, x.core.now, x.steps + 1))
                    .(read := x.read[(n, client) := x.steps + 1])
    ensures ReadOk(w, n, client)
  {
    var b := BookOf(w, client);
    if n !in b.readers { assert B.Handling(x.fanOuts[n].sid, w.steps, w.steps) in b.completed; }
  }

  /** Its DEL. */
  lemma HandleDeleteKeepsInv(cfg: Config, ttl: ClientId -> int, x: World, n: nat, client: ClientId)
    requires Inv(cfg, ttl, x)
    ensures Inv(cfg, ttl, Step(cfg, ttl, x, HandleDelete(n, client)))
  {
    hide B.Inv, S.Inv;
    var w := Step(cfg, ttl, x, HandleDelete(n, client));
    if n !in BookOf(x, client).readers {
      NothingKeepsInv(cfg, ttl, x, w);
    } else {
      var r := BookOf(x, client).readers[n];
      B.DeletedKeepsInv(BookOf(x, client), ttl(client), n, x.core.now, w.steps);
      OtherBooks(ttl, x, w, client);
      FanOutsStay(x, w, client);
      forall m: nat, c: ClientId | (m, c) in w.read ensures ReadOk(w, m, c) {
        assert ReadOk(x, m, c);
        if (m, c) == (n, client) {
          assert B.Handling(r.sid, r.at, w.steps) in BookOf(w, client).completed;
        } else if m !in BookOf(w, c).readers {
          HandledStays(x, w, client, m, c);
        }
      }
    }
  }

  /** Marking a client succeeded changes nothing that a handler or a book depends on. */
  ghost predicate Marked(y: World, w: World) {
    && w == y.(fanOuts := w.fanOuts) && |w.fanOuts| == |y.fanOuts|
    && forall m: nat :: m < |y.fanOuts| ==> w.fanOuts[m] == y.fanOuts[m].(succeeded := w.fanOuts[m].succeeded)
  }

  lemma MarkedHandled(y: World, w: World, m: nat, c: ClientId)
    requires Marked(y, w) && m < |y.fanOuts|
    ensures Handled(w, m, c) == Handled(y, m, c)
  {
  }

  lemma MarkedReads(y: World, w: World)
    requires Marked(y, w) && ReadsOk(y)
    ensures ReadsOk(w)
  {
    forall m: nat, c: ClientId | (m, c) in w.read ensures ReadOk(w, m, c) {
      assert ReadOk(y, m, c);
      MarkedHandled(y, w, m, c);
    }
  }

  lemma MarkedFanOut(y: World, w: World, n: nat, client: ClientId, m: nat)
    requires Marked(y, w) && m < |y.fanOuts| && FanOutOk(y, m)
    requires forall c :: c in w.fanOuts[m].succeeded ==>
        c in y.fanOuts[m].succeeded || ((m, c) == (n, client) && Handled(y, m, c))
    ensures FanOutOk(w, m)
  {
    forall c | c in w.fanOuts[m].succeeded ensures Handled(w, m, c) { MarkedHandled(y, w, m, c); }
  }

  lemma SucceedKeepsInv(cfg: Config, ttl: ClientId -> int, x: World, n: nat, client: ClientId)
    requires Inv(cfg, ttl, x)
    ensures Inv(cfg, ttl, Succeeded(x.(steps := x.steps + 1), n, client))
  {
    var y := x.(steps := x.steps + 1);
    var w := Succeeded(y, n, client);
    NothingKeepsInv(cfg, ttl, x, y);
    if w != y {
      assert ReadOk(y, n, client);
      MarkedReads(y, w);
      forall m: nat | m < |w.fanOuts| ensures FanOutOk(w, m) {
        assert FanOutOk(y, m);
        MarkedFanOut(y, w, n, client, m);
      }
      forall c ensures B.Inv(BookOf(w, c), ttl(c), w.core.now, w.steps) { assert BookOf(w, c) == BookOf(y, c); }
    }
  }

  lemma HandlerStepKeepsInv(cfg: Config, ttl: ClientId -> int, x: World, e: Event)
    requires Inv(cfg, ttl, x) && (e.HandleRead? || e.HandleDelete? || e.Succeed?)
    ensures Inv(cfg, ttl, Step(cfg, ttl, x, e))
  {
    match e
    case HandleRead(n, client) =>
      HandleReadKeepsInv(cfg, ttl, x, n, client);
      assert Step(cfg, ttl, x, e) == Reading(x.(steps := x.steps + 1), n, client);
    case HandleDelete(n, client) => HandleDeleteKeepsInv(cfg, ttl, x, n, client);
    case Succeed(n, client) =>
      SucceedKeepsInv(cfg, ttl, x, n, client);
      assert Step(cfg, ttl, x, e) == Succeeded(x.(steps := x.steps + 1), n, client);
  }

  lemma LogoutStepKeepsInv(cfg: Config, ttl: ClientId -> int, x: World, e: Event)
    requires cfg.Valid() && Inv(cfg, ttl, x) && (e.LogoutSession? || e.LogoutUser?)
    ensures Inv(cfg, ttl, Step(cfg, ttl, x, e))
  {
    var op := if e.LogoutSession? then S.RevokeOp(e.sid) else S.RevokeAllOp(e.itsId, e.order);
    LogoutKeepsInv(cfg, ttl, x, op);
    assert Step(cfg, ttl, x, e) == LoggedOff(cfg, x.(steps := x.steps + 1), op);
  }

  lemma CallbackStepKeepsInv(cfg: Config, ttl: ClientId -> int, x: World, client: ClientId, id: L.LocalId, itsId: ItsId,
      sid: Sid, authTime: int)
    requires Positive(ttl) && Inv(cfg, ttl, x)
    ensures Inv(cfg, ttl, Step(cfg, ttl, x, Callback(client, id, itsId, sid, authTime)))
  {
    hide Inv, Opening;
    var s := L.LocalSession(itsId, sid, authTime, x.core.now);
    CallbackKeepsInv(cfg, ttl, x, client, id, s);
    assert Step(cfg, ttl, x, Callback(client, id, itsId, sid, authTime))
        == Opening(x.(steps := x.steps + 1), ttl(client), client, id, s);
  }

  lemma DeliverKeepsInv(cfg: Config, ttl: ClientId -> int, x: World, sid: Sid, client: ClientId)
    requires Inv(cfg, ttl, x)
    ensures Inv(cfg, ttl, Step(cfg, ttl, x, Deliver(sid, client)))
  {
    NothingKeepsInv(cfg, ttl, x, Step(cfg, ttl, x, Deliver(sid, client)));
  }

  lemma StepKeepsInv(cfg: Config, ttl: ClientId -> int, x: World, e: Event)
    requires cfg.Valid() && Positive(ttl) && Inv(cfg, ttl, x)
    ensures Inv(cfg, ttl, Step(cfg, ttl, x, e))
  {
    if e.HandleRead? || e.HandleDelete? || e.Succeed? {
      HandlerStepKeepsInv(cfg, ttl, x, e);
    } else if e.LogoutSession? || e.LogoutUser? {
      LogoutStepKeepsInv(cfg, ttl, x, e);
    } else {
      match e
      case Core(op) => CoreKeepsInv(cfg, ttl, x, op);
      case Deliver(sid, client) => DeliverKeepsInv(cfg, ttl, x, sid, client);
      case Callback(client, id, itsId, sid, authTime) =>
        CallbackStepKeepsInv(cfg, ttl, x, client, id, itsId, sid, authTime);
      case LocalLogout(client, id) => LocalLogoutKeepsInv(cfg, ttl, x, client, id);
    }
  }

  lemma {:induction false} RunKeepsInv(cfg: Config, ttl: ClientId -> int, now: int, events: seq<Event>)
    requires cfg.Valid() && Positive(ttl)
    ensures Inv(cfg, ttl, Run(cfg, ttl, now, events))
  {
    if events != [] {
      RunKeepsInv(cfg, ttl, now, events[..|events| - 1]);
      StepKeepsInv(cfg, ttl, Run(cfg, ttl, now, events[..|events| - 1]), events[|events| - 1]);
    }
  }

  // ---- main result ----

  /** The client handled the token of fan-out n after the fan-out began, and local session id, if it is for the sid and
      can be read, was created after the client listed its sessions for that token or was orphaned by an earlier token
      for the same sid. */
  ghost predicate LoggedOut(w: World, n: nat, client: ClientId, id: L.LocalId)
    requires n < |w.fanOuts|
  {
    && (n, client) in w.read && w.fanOuts[n].began < w.read[(n, client)]
    && (var b := BookOf(w, client); var s := L.Lookup(b.local, id, w.core.now);
        s.Some? && s.value.sid == w.fanOuts[n].sid ==>
          id in b.born && (w.read[(n, client)] < b.born[id].at || B.OrphanedBefore(b, id, w.read[(n, client)])))
  }

  /** A finished handler leaves only what was created after its SMEMBERS or orphaned before it. */
  lemma HandledIsLoggedOut(cfg: Config, ttl: ClientId -> int, w: World, n: nat, client: ClientId, id: L.LocalId)
    requires Inv(cfg, ttl, w) && n < |w.fanOuts| && Handled(w, n, client)
    ensures LoggedOut(w, n, client, id)
  {
    assert ReadOk(w, n, client);
    var b := BookOf(w, client);
    var h :| h in b.completed && h.sid == w.fanOuts[n].sid && h.read == w.read[(n, client)];
    assert B.Inv(b, ttl(client), w.core.now, w.steps);
    assert B.SweptBy(b, w.core.now, h);
  }

  lemma StepKeepsFanOuts(cfg: Config, ttl: ClientId -> int, x: World, e: Event, n: nat)
    requires n < |x.fanOuts|
    ensures var y := Step(cfg, ttl, x, e);
            && n < |y.fanOuts|
            && y.fanOuts[n] == x.fanOuts[n].(succeeded := y.fanOuts[n].succeeded)
  {
    match e
    case Succeed(m, client) =>
    case LogoutSession(sid) =>
    case LogoutUser(itsId, order) =>
    case _ =>
  }

  /** Fan-outs stay in the list, with what they listed. */
  lemma {:induction false} FanOutsStayListed(cfg: Config, ttl: ClientId -> int, now: int, events: seq<Event>,
      more: seq<Event>, n: nat)
    requires n < |Run(cfg, ttl, now, events).fanOuts|
    ensures var w, y := Run(cfg, ttl, now, events), Run(cfg, ttl, now, events + more);
            && n < |y.fanOuts|
            && y.fanOuts[n] == w.fanOuts[n].(succeeded := y.fanOuts[n].succeeded)
  {
    if more == [] {
      assert events + more == events;
    } else {
      var front, e := more[..|more| - 1], more[|more| - 1];
      FanOutsStayListed(cfg, ttl, now, events, front, n);
      assert events + more == events + front + [e];
      RunMore(cfg, ttl, now, events + front, e);
      StepKeepsFanOuts(cfg, ttl, Run(cfg, ttl, now, events + front), e, n);
    }
  }

  lemma RunMore(cfg: Config, ttl: ClientId -> int, now: int, events: seq<Event>, e: Event)
    ensures Run(cfg, ttl, now, events + [e]) == Step(cfg, ttl, Run(cfg, ttl, now, events), e)
  {
    assert (events + [e])[..|events|] == events;
  }

  /** What logoutSession adds: one fan-out of the result. */
  lemma LogoutFansOut(cfg: Config, ttl: ClientId -> int, w: World, sid: Sid)
    requires S.Inv(cfg, w.core) && Revoke(w.core.fed, sid, w.core.now).1.Some?
    ensures var r := Revoke(w.core.fed, sid, w.core.now).1.value;
            Step(cfg, ttl, w, LogoutSession(sid)).fanOuts == w.fanOuts + [FanOutOf(w.core, r, w.steps + 1)]
              && r.sid == sid
  {
    hide S.Inv, Revoke, Participants;
    S.RevokeOutcome(cfg, w.core, sid);
    var r := Revoke(w.core.fed, sid, w.core.now).1.value;
    var core := S.Step(cfg, w.core, S.RevokeOp(sid));
    assert core.log == w.core.log + [r];
    assert (w.core.log + [r])[|w.core.log|..] == [r];
    assert FanOutsOf(w.core, [r], w.steps + 1) == [FanOutOf(w.core, r, w.steps + 1)];
  }

  /** What logoutUser adds: one fan-out for each sid it visits, in that order. */
  lemma LogoutUserFansOut(cfg: Config, ttl: ClientId -> int, w: World, itsId: ItsId, order: seq<Sid>, i: nat)
    requires S.Inv(cfg, w.core) && Enumerates(order, UserSids(w.core.fed, itsId, w.core.now)) && i < |order|
    ensures var y := Step(cfg, ttl, w, LogoutUser(itsId, order)); var n := |w.fanOuts| + i;
            && order[i] in w.core.fed.rows && |y.fanOuts| == |w.fanOuts| + |order|
            && y.fanOuts[n] == FanOutOf(w.core, S.DueResult(w.core.fed, w.core.now, order[i]), w.steps + 1)
  {
    hide S.Inv, UserSids, Enumerates, Participants, S.DueResult;
    V.UserSidsAllDue(cfg, w.core, itsId, order);
    var rs := S.DueResults(w.core.fed, w.core.now, order);
    var core := S.Step(cfg, w.core, S.RevokeAllOp(itsId, order));
    assert core.log == w.core.log + rs;
    assert (w.core.log + rs)[|w.core.log|..] == rs;
  }

  /** A fan-out that was whole when it began and whose clients have all SUCCEEDED by the end of the run: every client
      that was a participant when it began is logged out of it, whatever ran in between. */
  lemma FanOutReachesParticipants(cfg: Config, ttl: ClientId -> int, now: int, events: seq<Event>, more: seq<Event>,
                                  n: nat, client: ClientId, id: L.LocalId)
    requires cfg.Valid() && Positive(ttl)
    requires var w := Run(cfg, ttl, now, events);
             n < |w.fanOuts| && w.fanOuts[n].whole && client in w.fanOuts[n].participants
    requires var y := Run(cfg, ttl, now, events + more);
             n < |y.fanOuts| && y.fanOuts[n].clients <= y.fanOuts[n].succeeded
    ensures var w, y := Run(cfg, ttl, now, events), Run(cfg, ttl, now, events + more);
            y.fanOuts[n].sid == w.fanOuts[n].sid && LoggedOut(y, n, client, id)
  {
    FanOutsStayListed(cfg, ttl, now, events, more, n);
    RunKeepsInv(cfg, ttl, now, events + more);
    var y := Run(cfg, ttl, now, events + more);
    assert FanOutOk(y, n);
    HandledIsLoggedOut(cfg, ttl, y, n, client, id);
  }

  /** Single logout: a logout of sid returned a result, no client of sid had been hidden by then, and by the end of the
      run every client it listed ended SUCCEEDED. Then every client whose addClient for sid preceded the logout is
      logged out of it, whatever ran before, in between and afterwards. */
  lemma SingleLogoutReachesEveryClient(cfg: Config, ttl: ClientId -> int, now: int,
                                       events: seq<Event>, more: seq<Event>, sid: Sid, client: ClientId, id: L.LocalId)
    requires cfg.Valid() && Positive(ttl)
    requires var w := Run(cfg, ttl, now, events);
             Revoke(w.core.fed, sid, w.core.now).1.Some? && sid !in w.core.hidden && (sid, client) in w.ready
    requires var n := |Run(cfg, ttl, now, events).fanOuts|;
             var y := Run(cfg, ttl, now, events + [LogoutSession(sid)] + more);
             n < |y.fanOuts| && y.fanOuts[n].clients <= y.fanOuts[n].succeeded
    ensures var n := |Run(cfg, ttl, now, events).fanOuts|;
            var y := Run(cfg, ttl, now, events + [LogoutSession(sid)] + more);
            y.fanOuts[n].sid == sid && LoggedOut(y, n, client, id)
  {
    var w := Run(cfg, ttl, now, events);
    RunKeepsInv(cfg, ttl, now, events);
    LogoutFansOut(cfg, ttl, w, sid);
    RunMore(cfg, ttl, now, events, LogoutSession(sid));
    FanOutReachesParticipants(cfg, ttl, now, events + [LogoutSession(sid)], more, |w.fanOuts|, client, id);
  }

  /** The same for each session that logoutUser ends. */
  lemma UserLogoutReachesEveryClient(cfg: Config, ttl: ClientId -> int, now: int, events: seq<Event>, more: seq<Event>,
                                     itsId: ItsId, order: seq<Sid>, i: nat, client: ClientId, id: L.LocalId)
    requires cfg.Valid() && Positive(ttl)
    requires var w := Run(cfg, ttl, now, events);
             && Enumerates(order, UserSids(w.core.fed, itsId, w.core.now)) && i < |order|
             && order[i] !in w.core.hidden && (order[i], client) in w.ready
    requires var n := |Run(cfg, ttl, now, events).fanOuts| + i;
             var y := Run(cfg, ttl, now, events + [LogoutUser(itsId, order)] + more);
             n < |y.fanOuts| && y.fanOuts[n].clients <= y.fanOuts[n].succeeded
    ensures var n := |Run(cfg, ttl, now, events).fanOuts| + i;
            var y := Run(cfg, ttl, now, events + [LogoutUser(itsId, order)] + more);
            y.fanOuts[n].sid == order[i] && LoggedOut(y, n, client, id)
  {
    var w := Run(cfg, ttl, now, events);
    RunKeepsInv(cfg, ttl, now, events);
    LogoutUserFansOut(cfg, ttl, w, itsId, order, i);
    RunMore(cfg, ttl, now, events, LogoutUser(itsId, order));
    FanOutReachesParticipants(cfg, ttl, now, events + [LogoutUser(itsId, order)], more, |w.fanOuts| + i, client, id);
  }

  // ---- a delivery that is not lost succeeds ----

  /** Whatever state a run is in, a listed client that has not handled its token yet does so in two commands, and then
      its notification can succeed: the hypothesis of the theorems above can always be met. */
  lemma DeliverySucceeds(cfg: Config, ttl: ClientId -> int, w: World, n: nat, client: ClientId)
    requires n < |w.fanOuts| && client in w.fanOuts[n].clients && (n, client) !in w.read
    requires n !in BookOf(w, client).readers
    ensures var y := Step(cfg, ttl, Step(cfg, ttl, w, HandleRead(n, client)), HandleDelete(n, client));
            var z := Step(cfg, ttl, y, Succeed(n, client));
            && n < |z.fanOuts| && z.fanOuts[n].sid == w.fanOuts[n].sid && z.fanOuts[n].clients == w.fanOuts[n].clients
            && z.fanOuts[n].succeeded == w.fanOuts[n].succeeded + {client}
            && BookOf(z, client).local == L.DestroyBySid(BookOf(w, client).local, w.fanOuts[n].sid, w.core.now)
  {
    var b := BookOf(w, client);
    var x := Step(cfg, ttl, w, HandleRead(n, client));
    assert BookOf(x, client) == B.Listed(b, n, w.fanOuts[n].sid, w.core.now, x.steps) && x.core.now == w.core.now;
    var y := Step(cfg, ttl, x, HandleDelete(n, client));
    assert n !in BookOf(y, client).readers;
  }

  // ---- when no client is hidden ----

  lemma CoreSteps(cfg: Config, ttl: ClientId -> int, x: World, e: Event)
    ensures var y := Step(cfg, ttl, x, e); y.core == x.core || exists op :: y.core == S.Step(cfg, x.core, op)
  {
    var y := Step(cfg, ttl, x, e);
    match e
    case LogoutSession(sid) => assert y.core == x.core || y.core == S.Step(cfg, x.core, S.RevokeOp(sid));
    case LogoutUser(itsId, order) =>
      assert y.core == x.core || y.core == S.Step(cfg, x.core, S.RevokeAllOp(itsId, order));
    case _ =>
  }

  lemma {:induction false} RunKeepsKept(cfg: Config, ttl: ClientId -> int, now: int, events: seq<Event>)
    requires cfg.Valid() && Positive(ttl)
    ensures C.AllKept(cfg, Run(cfg, ttl, now, events).core)
  {
    if events != [] {
      var front, e := events[..|events| - 1], events[|events| - 1];
      RunKeepsKept(cfg, ttl, now, front);
      RunKeepsInv(cfg, ttl, now, front);
      var x := Run(cfg, ttl, now, front);
      CoreSteps(cfg, ttl, x, e);
      if Step(cfg, ttl, x, e).core != x.core {
        var op :| Step(cfg, ttl, x, e).core == S.Step(cfg, x.core, op);
        C.StepKeepsKept(cfg, x.core, op);
      }
    }
  }

  /** No client of a sid is hidden at least 1000 ms before its absolute expiry, if the sid was only touched or given a
      client while get would have answered. */
  lemma NotHiddenInTime(cfg: Config, ttl: ClientId -> int, now: int, events: seq<Event>, sid: Sid)
    requires cfg.Valid() && Positive(ttl)
    requires var x := Run(cfg, ttl, now, events).core;
             sid in x.fed.rows && sid !in x.stale
               && (x.now <= x.fed.rows[sid].absoluteExpiresAt - 1000 || cfg.idleTtl == 1)
    ensures sid !in Run(cfg, ttl, now, events).core.hidden
  {
    RunKeepsKept(cfg, ttl, now, events);
    assert C.Kept(cfg, Run(cfg, ttl, now, events).core, sid);
  }
}
