/** Whole runs of the session service: every service call is one step at one clock reading, and the clock moves freely
    between calls. touch and addClient take any session object that some request obtained earlier and still holds. */
module SessionRuns {
  import opened Wrappers
  import opened Redis
  import opened FederationSessions

  datatype Op =
    | Tick(ms: nat)
    | CreateOp(itsId: ItsId, sid: Sid, handle: string)
    | GetOp(sid: Sid)
    | TouchOp(s: Session)
    | AddClientOp(s: Session, client: ClientId)
    | RevokeOp(sid: Sid)
    | RevokeAllOp(itsId: ItsId, order: seq<Sid>)

  /** held: the session objects requests have obtained. log: the non-null results of revoke, in order.
      stale: sids that were touched or given a client when get would have answered null.
      hidden: sids that were given a client when the client set had lapsed although other participants were on record.
      revived: sids that were touched after they had been revoked.
      hashOf: the handle hash each sid was created with.
      detached: sids that were touched before absolute expiry when their handle key had lapsed or was deleted. */
  datatype Sys = Sys(now: int, fed: Fed, held: set<Session>, log: seq<Revoked>, stale: set<Sid>, hidden: set<Sid>,
                     revived: set<Sid>, hashOf: map<Sid, Hash>, detached: set<Sid>)

  predicate IsRevoked(f: Fed, sid: Sid) {
    sid in f.rows && f.rows[sid].revokedAt.Some?
  }

  predicate Answers(f: Fed, sid: Sid, now: int) {
    Lookup(f, sid, now).Some?
  }

  /** addClient finds the client set live, or no other participant on record. */
  predicate SafeToAdd(f: Fed, sid: Sid, client: ClientId, now: int) {
    Live(f.sessionClients, sid, now) || Participants(f, sid) <= {client}
  }

  /** touch finds the handle key live, or comes too late for get to answer again. */
  predicate KeepsHandle(f: Fed, s: Session, now: int) {
    Live(f.handles, s.handleHash, now) || s.absoluteExpiresAt <= now
  }

  function Mark(sids: set<Sid>, sid: Sid, good: bool): set<Sid> {
    if good then sids else sids + {sid}
  }

  function Touched(cfg: Config, s: Session, now: int): Session {
    s.(expiresAt := TouchExpiry(cfg, s, now))
  }

  ghost function Step(cfg: Config, x: Sys, op: Op): Sys {
    match op
    case Tick(ms) => x.(now := x.now + ms)
    case CreateOp(itsId, sid, handle) =>
      // random ids and handles are fresh
      if sid in x.fed.rows || Sha256(handle) in x.hashOf.Values then x else
      var s := NewSession(cfg, itsId, sid, handle, x.now);
      x.(fed := Create(x.fed, cfg, s, x.now), held := x.held + {s}, hashOf := x.hashOf[sid := s.handleHash])
    case GetOp(sid) =>
      var got := Lookup(x.fed, sid, x.now);
      if got.None? then x else x.(held := x.held + {got.value})
    case TouchOp(s) =>
      if s !in x.held then x
      else x.(fed := Touch(x.fed, cfg, s, x.now), held := x.held + {Touched(cfg, s, x.now)},
              stale := Mark(x.stale, s.sid, Answers(x.fed, s.sid, x.now)),
              revived := Mark(x.revived, s.sid, !IsRevoked(x.fed, s.sid)),
              detached := Mark(x.detached, s.sid, KeepsHandle(x.fed, s, x.now)))
    case AddClientOp(s, client) =>
      if s !in x.held then x
      else x.(fed := AddClient(x.fed, s, client, x.now),
              stale := Mark(x.stale, s.sid, Answers(x.fed, s.sid, x.now)),
              hidden := Mark(x.hidden, s.sid, SafeToAdd(x.fed, s.sid, client, x.now)))
    case RevokeOp(sid) =>
      var (g, r) := Revoke(x.fed, sid, x.now);
      x.(fed := g, log := x.log + if r.Some? then [r.value] else [])
    case RevokeAllOp(itsId, order) =>
      if !Enumerates(order, UserSids(x.fed, itsId, x.now)) then x else
      var (g, rs) := RevokeEach(x.fed, order, x.now);
      x.(fed := g, log := x.log + rs)
  }

  function Start(now: int): Sys {
    Sys(now, EMPTY, {}, [], {}, {}, {}, map[], {})
  }

  ghost function Run(cfg: Config, start: int, ops: seq<Op>): Sys {
    if ops == [] then Start(start) else Step(cfg, Run(cfg, start, ops[..|ops| - 1]), ops[|ops| - 1])
  }

  lemma RunMore(cfg: Config, start: int, ops: seq<Op>, op: Op)
    ensures Run(cfg, start, ops + [op]) == Step(cfg, Run(cfg, start, ops), op)
  {
    assert (ops + [op])[..|ops|] == ops;
  }

  // ---- the invariant of every run ----

  /** A session object agrees with the row of its sid. */
  predicate Genuine(f: Fed, s: Session) {
    s.isActive && s.sid in f.rows && f.rows[s.sid].itsId == s.itsId
      && f.rows[s.sid].absoluteExpiresAt == s.absoluteExpiresAt
  }

  ghost predicate SessionsOk(cfg: Config, x: Sys) {
    && (forall s :: s in x.held ==> Genuine(x.fed, s))
    && (forall sid :: sid in x.fed.sessions ==>
          Genuine(x.fed, x.fed.sessions[sid].value) && x.fed.sessions[sid].value.sid == sid
            && x.fed.sessions[sid].deadline <= x.now + cfg.idleTtl * 1000)
    && (forall sid :: sid in x.fed.sessionClients || sid in x.fed.participants ==> sid in x.fed.rows)
  }

  /** A row that is neither revoked nor expired is in its user's set, which lives at least as long. */
  ghost predicate Indexed(cfg: Config, f: Fed, now: int, sid: Sid)
    requires sid in f.rows
  {
    var row := f.rows[sid];
    && row.absoluteExpiresAt <= now + cfg.absoluteTtl * 1000
    && (row.revokedAt.None? && now < row.absoluteExpiresAt ==>
          row.itsId in f.userSessions && sid in f.userSessions[row.itsId].value
            && row.absoluteExpiresAt <= f.userSessions[row.itsId].deadline)
  }

  ghost predicate AllIndexed(cfg: Config, f: Fed, now: int) {
    forall sid :: sid in f.rows ==> Indexed(cfg, f, now, sid)
  }

  /** A user's set lists rows of that user, and only unrevoked ones. */
  ghost predicate AllOwned(f: Fed) {
    forall u, sid :: u in f.userSessions && sid in f.userSessions[u].value ==> sid in f.rows && f.rows[sid].itsId == u
  }

  ghost predicate NoneRevoked(f: Fed, now: int) {
    forall u, sid :: Live(f.userSessions, u, now) && sid in f.userSessions[u].value && sid in f.rows ==>
        f.rows[sid].revokedAt.None?
  }

  /** Unless clients were hidden, a live client set is the participant rows. */
  ghost predicate SetsAgree(x: Sys) {
    forall sid :: Live(x.fed.sessionClients, sid, x.now) && sid !in x.hidden ==>
        x.fed.sessionClients[sid].value == Participants(x.fed, sid)
  }

  ghost predicate SetsNonEmpty(f: Fed) {
    forall sid :: sid in f.sessionClients ==> f.sessionClients[sid].value != {}
  }

  ghost predicate Inv(cfg: Config, x: Sys) {
    && SessionsOk(cfg, x) && AllIndexed(cfg, x.fed, x.now) && AllOwned(x.fed) && NoneRevoked(x.fed, x.now)
    && SetsAgree(x) && SetsNonEmpty(x.fed)
  }

  /** The invariant's index side: rows and per-user sets. */
  ghost predicate IndexOk(cfg: Config, x: Sys) {
    AllIndexed(cfg, x.fed, x.now) && AllOwned(x.fed) && NoneRevoked(x.fed, x.now)
  }

  lemma CreateKeepsIndex(cfg: Config, x: Sys, itsId: ItsId, sid: Sid, handle: string)
    requires cfg.Valid() && Inv(cfg, x)
    ensures IndexOk(cfg, Step(cfg, x, CreateOp(itsId, sid, handle)))
  {
    var y := Step(cfg, x, CreateOp(itsId, sid, handle));
    forall r | r in y.fed.rows ensures Indexed(cfg, y.fed, y.now, r) {
      assert r == sid || Indexed(cfg, x.fed, x.now, r);
    }
  }

  lemma CreateKeepsSessions(cfg: Config, x: Sys, itsId: ItsId, sid: Sid, handle: string)
    requires cfg.Valid() && Inv(cfg, x)
    ensures var y := Step(cfg, x, CreateOp(itsId, sid, handle));
            SessionsOk(cfg, y) && SetsAgree(y)
            && SetsNonEmpty(y.fed)
  {
  }

  lemma CreateKeepsInv(cfg: Config, x: Sys, itsId: ItsId, sid: Sid, handle: string)
    requires cfg.Valid() && Inv(cfg, x)
    ensures Inv(cfg, Step(cfg, x, CreateOp(itsId, sid, handle)))
  {
    CreateKeepsIndex(cfg, x, itsId, sid, handle);
    CreateKeepsSessions(cfg, x, itsId, sid, handle);
  }

  /** touch and addClient leave rows' owners, expiry and revocation, and the per-user sets, as they are. */
  lemma SameIndexes(cfg: Config, x: Sys, y: Sys)
    requires Inv(cfg, x) && y.now == x.now && y.fed.userSessions == x.fed.userSessions
    requires y.fed.rows.Keys == x.fed.rows.Keys
    requires forall r :: r in x.fed.rows ==> y.fed.rows[r] == x.fed.rows[r].(expiresAt := y.fed.rows[r].expiresAt)
    ensures IndexOk(cfg, y)
  {
    forall r | r in y.fed.rows ensures Indexed(cfg, y.fed, y.now, r) { assert Indexed(cfg, x.fed, x.now, r); }
  }

  lemma TouchKeepsSessions(cfg: Config, x: Sys, s: Session)
    requires cfg.Valid() && Inv(cfg, x) && s in x.held
    ensures SessionsOk(cfg, Step(cfg, x, TouchOp(s)))
  {
    assert TouchTtl(cfg, s, x.now) <= cfg.idleTtl;
  }

  lemma TouchKeepsIndex(cfg: Config, x: Sys, s: Session)
    requires cfg.Valid() && Inv(cfg, x) && s in x.held
    ensures IndexOk(cfg, Step(cfg, x, TouchOp(s)))
  {
    hide IndexOk, AllIndexed, AllOwned, NoneRevoked, SetsAgree, SetsNonEmpty;
    SameIndexes(cfg, x, Step(cfg, x, TouchOp(s)));
  }

  lemma TouchKeepsSets(cfg: Config, x: Sys, s: Session)
    requires SetsAgree(x) && SetsNonEmpty(x.fed) && s in x.held
    ensures var y := Step(cfg, x, TouchOp(s)); SetsAgree(y) && SetsNonEmpty(y.fed)
  {
  }

  lemma TouchKeepsInv(cfg: Config, x: Sys, s: Session)
    requires cfg.Valid() && Inv(cfg, x)
    ensures Inv(cfg, Step(cfg, x, TouchOp(s)))
  {
    hide SessionsOk, AllIndexed, AllOwned, NoneRevoked, SetsAgree, SetsNonEmpty;
    if s in x.held {
      TouchKeepsSessions(cfg, x, s);
      TouchKeepsIndex(cfg, x, s);
      TouchKeepsSets(cfg, x, s);
    }
  }

  lemma AddClientKeepsSets(f: Fed, s: Session, client: ClientId, now: int, hidden: set<Sid>, sid: Sid)
    requires Live(f.sessionClients, sid, now) && sid !in hidden ==> f.sessionClients[sid].value == Participants(f, sid)
    ensures var g := AddClient(f, s, client, now);
            Live(g.sessionClients, sid, now) && sid !in Mark(hidden, s.sid, SafeToAdd(f, s.sid, client, now)) ==>
              g.sessionClients[sid].value == Participants(g, sid)
  {
  }

  lemma AddClientKeepsInv(cfg: Config, x: Sys, s: Session, client: ClientId)
    requires cfg.Valid() && Inv(cfg, x)
    ensures Inv(cfg, Step(cfg, x, AddClientOp(s, client)))
  {
    var y := Step(cfg, x, AddClientOp(s, client));
    if s in x.held {
      SameIndexes(cfg, x, y);
      assert SessionsOk(cfg, y);
      forall sid | Live(y.fed.sessionClients, sid, y.now) && sid !in y.hidden
        ensures y.fed.sessionClients[sid].value == Participants(y.fed, sid)
      {
        AddClientKeepsSets(x.fed, s, client, x.now, x.hidden, sid);
      }
    }
  }

  lemma TickKeepsInv(cfg: Config, x: Sys, ms: nat)
    requires Inv(cfg, x)
    ensures Inv(cfg, Step(cfg, x, Tick(ms)))
  {
    var y := Step(cfg, x, Tick(ms));
    forall r | r in y.fed.rows ensures Indexed(cfg, y.fed, y.now, r) { assert Indexed(cfg, x.fed, x.now, r); }
  }

  // ---- revocation ----

  lemma RevokeLeavesUserSets(f: Fed, sid: Sid, now: int, x: Sid)
    requires x != sid
    ensures var g := Revoke(f, sid, now).0;
            && (forall u :: u in f.userSessions && x in f.userSessions[u].value ==>
                  u in g.userSessions && x in g.userSessions[u].value
                    && g.userSessions[u].deadline == f.userSessions[u].deadline)
            && (forall u :: u in g.userSessions && x in g.userSessions[u].value ==>
                  u in f.userSessions && x in f.userSessions[u].value
                    && g.userSessions[u].deadline == f.userSessions[u].deadline)
  {
    var g := Revoke(f, sid, now).0;
    forall u | u in f.userSessions && x in f.userSessions[u].value
      ensures u in g.userSessions && x in g.userSessions[u].value
      ensures g.userSessions[u].deadline == f.userSessions[u].deadline
    {
      assert x in f.userSessions[u].value - {sid};
    }
  }

  /** Revoking one sid leaves every other sid as it was. */
  lemma RevokeLeavesOthers(f: Fed, sid: Sid, now: int, x: Sid)
    requires x != sid
    ensures var g := Revoke(f, sid, now).0;
            && (x in g.sessions <==> x in f.sessions) && (x in g.sessions ==> g.sessions[x] == f.sessions[x])
            && (x in g.rows <==> x in f.rows) && (x in g.rows ==> g.rows[x] == f.rows[x])
            && (x in g.sessionClients <==> x in f.sessionClients)
            && (x in g.sessionClients ==> g.sessionClients[x] == f.sessionClients[x])
            && Participants(g, x) == Participants(f, x)
            && Clients(g, x, now) == Clients(f, x, now)
            && (forall u :: u in f.userSessions && x in f.userSessions[u].value ==>
                  u in g.userSessions && x in g.userSessions[u].value
                    && g.userSessions[u].deadline == f.userSessions[u].deadline)
            && (forall u :: u in g.userSessions && x in g.userSessions[u].value ==>
                 u in f.userSessions && x in f.userSessions[u].value)
  {
    RevokeLeavesUserSets(f, sid, now, x);
  }

  /** What revoking a sid returns, if it returns anything: it does for a live session key, revoked or not, and for an
      unrevoked row. */
  ghost predicate Due(f: Fed, now: int, r: Revoked) {
    && r.sid in f.rows && (Live(f.sessions, r.sid, now) || f.rows[r.sid].revokedAt.None?)
    && r == Revoked(r.sid, f.rows[r.sid].itsId, Clients(f, r.sid, now))
  }

  /** revoke returns the due result or null; with a result the session key is gone and the row is revoked, with null
      nothing has changed. */
  lemma RevokeOutcome(cfg: Config, x: Sys, sid: Sid)
    requires Inv(cfg, x)
    ensures var (g, r) := Revoke(x.fed, sid, x.now);
            && (r.Some? <==> sid in x.fed.rows && (Live(x.fed.sessions, sid, x.now) || x.fed.rows[sid].revokedAt.None?))
            && (r.None? ==> g == x.fed)
            && (r.Some? ==> r.value.sid == sid && Due(x.fed, x.now, r.value))
            && (r.Some? ==> sid !in g.sessions && sid !in g.sessionClients && g.rows[sid].revokedAt.Some?)
            && g.rows.Keys == x.fed.rows.Keys && g.participants == x.fed.participants
            && (sid in g.rows ==>
                 g.rows[sid].itsId == x.fed.rows[sid].itsId
                 && g.rows[sid].absoluteExpiresAt == x.fed.rows[sid].absoluteExpiresAt
                                  && (x.fed.rows[sid].revokedAt.Some? ==> g.rows[sid] == x.fed.rows[sid]))
  {
  }

  lemma RevokeKeepsIndexes(cfg: Config, x: Sys, sid: Sid)
    requires Inv(cfg, x)
    ensures var g := Revoke(x.fed, sid, x.now).0;
            AllIndexed(cfg, g, x.now) && AllOwned(g)
  {
    var g := Revoke(x.fed, sid, x.now).0;
    RevokeOutcome(cfg, x, sid);
    forall r | r in g.rows ensures Indexed(cfg, g, x.now, r) {
      if r != sid { RevokeLeavesUserSets(x.fed, sid, x.now, r); RevokeLeavesOthers(x.fed, sid, x.now, r); }
      assert Indexed(cfg, x.fed, x.now, r);
    }
    forall u, r | u in g.userSessions && r in g.userSessions[u].value ensures r in g.rows && g.rows[r].itsId == u {
      if r != sid { RevokeLeavesUserSets(x.fed, sid, x.now, r); RevokeLeavesOthers(x.fed, sid, x.now, r); }
    }
  }

  /** The revoked sid leaves its owner's set while that lives, and is in no other. */
  lemma RevokeKeepsNoneRevoked(cfg: Config, x: Sys, sid: Sid)
    requires Inv(cfg, x)
    ensures NoneRevoked(Revoke(x.fed, sid, x.now).0, x.now)
  {
    var g := Revoke(x.fed, sid, x.now).0;
    RevokeOutcome(cfg, x, sid);
    forall u, r | Live(g.userSessions, u, x.now) && r in g.userSessions[u].value && r in g.rows
      ensures g.rows[r].revokedAt.None?
    {
      if r != sid {
        RevokeLeavesUserSets(x.fed, sid, x.now, r);
        RevokeLeavesOthers(x.fed, sid, x.now, r);
        assert Live(x.fed.userSessions, u, x.now);
      }
    }
  }

  lemma RevokeKeepsSets(cfg: Config, x: Sys, sid: Sid)
    requires Inv(cfg, x)
    ensures var y := x.(fed := Revoke(x.fed, sid, x.now).0); SetsAgree(y) && SetsNonEmpty(y.fed)
  {
    RevokeOutcome(cfg, x, sid);
  }

  lemma RevokeKeepsSessions(cfg: Config, x: Sys, sid: Sid)
    requires Inv(cfg, x)
    ensures SessionsOk(cfg, x.(fed := Revoke(x.fed, sid, x.now).0))
  {
    var y := x.(fed := Revoke(x.fed, sid, x.now).0);
    RevokeOutcome(cfg, x, sid);
    forall r | r in x.fed.rows
      ensures y.fed.rows[r].itsId == x.fed.rows[r].itsId
          && y.fed.rows[r].absoluteExpiresAt == x.fed.rows[r].absoluteExpiresAt
    {
      if r != sid { RevokeLeavesOthers(x.fed, sid, x.now, r); }
    }
    forall s: Session | Genuine(x.fed, s) ensures Genuine(y.fed, s) {}
  }

  lemma RevokeKeepsInv(cfg: Config, x: Sys, sid: Sid)
    requires Inv(cfg, x)
    ensures Inv(cfg, x.(fed := Revoke(x.fed, sid, x.now).0))
  {
    RevokeKeepsIndexes(cfg, x, sid);
    RevokeKeepsNoneRevoked(cfg, x, sid);
    RevokeKeepsSets(cfg, x, sid);
    RevokeKeepsSessions(cfg, x, sid);
  }

  ghost predicate Untouched(f: Fed, g: Fed, now: int, x: Sid) {
    && (x in g.sessions <==> x in f.sessions) && (x in g.sessions ==> g.sessions[x] == f.sessions[x])
    && (x in g.rows <==> x in f.rows) && (x in g.rows ==> g.rows[x] == f.rows[x])
    && (x in g.sessionClients <==> x in f.sessionClients)
    && (x in g.sessionClients ==> g.sessionClients[x] == f.sessionClients[x])
    && Participants(g, x) == Participants(f, x)
    && Clients(g, x, now) == Clients(f, x, now)
  }

  lemma {:induction false} RevokeEachKeepsInv(cfg: Config, x: Sys, order: seq<Sid>)
    requires Inv(cfg, x)
    ensures var g := RevokeEach(x.fed, order, x.now).0;
            Inv(cfg, x.(fed := g)) && g.rows.Keys == x.fed.rows.Keys && g.participants == x.fed.participants
  {
    if order != [] {
      var front, last := order[..|order| - 1], order[|order| - 1];
      RevokeEachKeepsInv(cfg, x, front);
      var mid := x.(fed := RevokeEach(x.fed, front, x.now).0);
      RevokeOutcome(cfg, mid, last);
      RevokeKeepsInv(cfg, mid, last);
    }
  }

  ghost predicate Distinct(order: seq<Sid>) {
    forall i, j :: 0 <= i < j < |order| ==> order[i] != order[j]
  }

  /** No sid has two results. */
  ghost predicate OneEach(rs: seq<Revoked>) {
    forall i, j :: 0 <= i < j < |rs| ==> rs[i].sid != rs[j].sid
  }

  /** After the loop over front: the results due at the start, each once, and every other sid as it was. */
  ghost predicate LoopDone(f: Fed, now: int, front: seq<Sid>, g: Fed, rs: seq<Revoked>) {
    && (forall r :: r in rs <==> r.sid in front && Due(f, now, r))
    && OneEach(rs)
    && (forall y :: y in front ==> !Live(g.sessions, y, now) && (y in g.rows ==> g.rows[y].revokedAt.Some?))
    && (forall y :: y !in front ==> Untouched(f, g, now, y))
  }

  /** Visiting distinct sids returns exactly the results due at the start, one for each sid that has one, ends those
      sessions and leaves every other sid alone. */
  lemma {:induction false} RevokeEachFacts(cfg: Config, x: Sys, order: seq<Sid>)
    requires Inv(cfg, x) && Distinct(order)
    ensures var (g, rs) := RevokeEach(x.fed, order, x.now);
            LoopDone(x.fed, x.now, order, g, rs)
  {
    if order != [] {
      var front, last := order[..|order| - 1], order[|order| - 1];
      RevokeEachFacts(cfg, x, front);
      RevokeEachKeepsInv(cfg, x, front);
      var (g, rs) := RevokeEach(x.fed, front, x.now);
      assert order == front + [last] && last !in front;
      RevokeEachStep(cfg, x, g, rs, front, last);
    }
  }

  lemma DueLater(f: Fed, g: Fed, now: int, r: Revoked)
    requires Untouched(f, g, now, r.sid)
    ensures Due(f, now, r) == Due(g, now, r)
  {
  }

  lemma OneMoreResult(cfg: Config, x: Sys, g: Fed, last: Sid)
    requires Inv(cfg, x.(fed := g)) && Untouched(x.fed, g, x.now, last)
    ensures var r := Revoke(g, last, x.now).1;
            forall q :: q in (if r.Some? then [r.value] else []) <==> q.sid == last && Due(x.fed, x.now, q)
  {
    RevokeOutcome(cfg, x.(fed := g), last);
    forall q: Revoked | q.sid == last ensures Due(x.fed, x.now, q) == Due(g, x.now, q) { DueLater(x.fed, g, x.now, q); }
  }

  lemma OneMoreSession(cfg: Config, x: Sys, g: Fed, front: seq<Sid>, last: Sid, y: Sid)
    requires last !in front && Inv(cfg, x.(fed := g)) && (y !in front ==> Untouched(x.fed, g, x.now, y))
    requires y in front ==> !Live(g.sessions, y, x.now) && (y in g.rows ==> g.rows[y].revokedAt.Some?)
    ensures var h := Revoke(g, last, x.now).0;
            && (y in front || y == last ==> !Live(h.sessions, y, x.now) && (y in h.rows ==> h.rows[y].revokedAt.Some?))
            && (y !in front && y != last ==> Untouched(x.fed, h, x.now, y))
  {
    RevokeOutcome(cfg, x.(fed := g), last);
    if y != last { RevokeLeavesOthers(g, last, x.now, y); }
  }

  lemma RevokeEachStep(cfg: Config, x: Sys, g: Fed, rs: seq<Revoked>, front: seq<Sid>, last: Sid)
    requires last !in front && Inv(cfg, x.(fed := g)) && LoopDone(x.fed, x.now, front, g, rs)
    ensures var (h, r) := Revoke(g, last, x.now);
            LoopDone(x.fed, x.now, front + [last], h, rs + if r.Some? then [r.value] else [])
  {
    hide Inv, Untouched, Due, Revoke;
    var (h, r) := Revoke(g, last, x.now);
    OneMoreResult(cfg, x, g, last);
    assert forall i :: 0 <= i < |rs| ==> rs[i] in rs && rs[i].sid in front;
    assert r.Some? ==> r.value in [r.value];
    forall y
      ensures y in front + [last] ==> !Live(h.sessions, y, x.now) && (y in h.rows ==> h.rows[y].revokedAt.Some?)
      ensures y !in front + [last] ==> Untouched(x.fed, h, x.now, y)
    {
      OneMoreSession(cfg, x, g, front, last, y);
    }
  }

  /** What revoking an unrevoked row returns. */
  function DueResult(f: Fed, now: int, sid: Sid): Revoked
    requires sid in f.rows
  {
    Revoked(sid, f.rows[sid].itsId, Clients(f, sid, now))
  }

  lemma LastIsDue(cfg: Config, x: Sys, front: seq<Sid>, last: Sid)
    requires Inv(cfg, x) && Distinct(front) && last !in front && last in x.fed.rows && x.fed.rows[last].revokedAt.None?
    ensures Revoke(RevokeEach(x.fed, front, x.now).0, last, x.now).1 == Some(DueResult(x.fed, x.now, last))
  {
    RevokeEachFacts(cfg, x, front);
    RevokeEachKeepsInv(cfg, x, front);
    var g := RevokeEach(x.fed, front, x.now).0;
    assert Untouched(x.fed, g, x.now, last);
    RevokeOutcome(cfg, x.(fed := g), last);
  }

  function DueResults(f: Fed, now: int, order: seq<Sid>): seq<Revoked>
    requires forall i :: 0 <= i < |order| ==> order[i] in f.rows
  {
    seq(|order|, i requires 0 <= i < |order| => DueResult(f, now, order[i]))
  }

  /** If every listed sid is unrevoked, the results are those of the list, one each and in its order. */
  lemma {:induction false} AllDueInOrder(cfg: Config, x: Sys, order: seq<Sid>)
    requires Inv(cfg, x) && Distinct(order)
    requires forall i :: 0 <= i < |order| ==> order[i] in x.fed.rows && x.fed.rows[order[i]].revokedAt.None?
    ensures RevokeEach(x.fed, order, x.now).1 == DueResults(x.fed, x.now, order)
  {
    if order != [] {
      var front, last := order[..|order| - 1], order[|order| - 1];
      AllDueInOrder(cfg, x, front);
      LastIsDue(cfg, x, front, last);
      assert RevokeEach(x.fed, order, x.now).1 == DueResults(x.fed, x.now, front) + [DueResult(x.fed, x.now, last)];
      assert DueResults(x.fed, x.now, order) == DueResults(x.fed, x.now, front) + [DueResult(x.fed, x.now, last)];
    }
  }

  // ---- whole runs ----

  lemma StepKeepsInv(cfg: Config, x: Sys, op: Op)
    requires cfg.Valid() && Inv(cfg, x)
    ensures Inv(cfg, Step(cfg, x, op))
  {
    match op
    case Tick(ms) => TickKeepsInv(cfg, x, ms);
    case CreateOp(itsId, sid, handle) => CreateKeepsInv(cfg, x, itsId, sid, handle);
    case GetOp(sid) =>
    case TouchOp(s) => TouchKeepsInv(cfg, x, s);
    case AddClientOp(s, client) => AddClientKeepsInv(cfg, x, s, client);
    case RevokeOp(sid) => RevokeKeepsInv(cfg, x, sid);
    case RevokeAllOp(itsId, order) =>
      if Enumerates(order, UserSids(x.fed, itsId, x.now)) { RevokeEachKeepsInv(cfg, x, order); }
  }

  lemma {:induction false} RunKeepsInv(cfg: Config, start: int, ops: seq<Op>)
    requires cfg.Valid()
    ensures Inv(cfg, Run(cfg, start, ops))
  {
    if ops != [] {
      RunKeepsInv(cfg, start, ops[..|ops| - 1]);
      StepKeepsInv(cfg, Run(cfg, start, ops[..|ops| - 1]), ops[|ops| - 1]);
    }
  }

  // ---- rows follow their sessions ----

  /** The stored session and its row name the same idle expiry. */
  ghost predicate Mirrored(f: Fed) {
    forall sid :: sid in f.sessions && sid in f.rows ==> f.rows[sid].expiresAt == f.sessions[sid].value.expiresAt
  }

  /** Revokes delete sessions and stamp rows, nothing else. */
  lemma RevokeMirrored(f: Fed, sid: Sid, now: int)
    requires Mirrored(f)
    ensures Mirrored(Revoke(f, sid, now).0)
  {
  }

  lemma {:induction false} RevokeEachMirrored(f: Fed, order: seq<Sid>, now: int)
    requires Mirrored(f)
    ensures Mirrored(RevokeEach(f, order, now).0)
  {
    hide Revoke;
    if order != [] {
      var front, last := order[..|order| - 1], order[|order| - 1];
      RevokeEachMirrored(f, front, now);
      RevokeMirrored(RevokeEach(f, front, now).0, last, now);
    }
  }

  /** At every moment of a run a stored session and its row agree on when it expires. */
  lemma {:induction false} RowsMirrorSessions(cfg: Config, start: int, ops: seq<Op>)
    requires cfg.Valid()
    ensures Mirrored(Run(cfg, start, ops).fed)
  {
    if ops != [] {
      var front := ops[..|ops| - 1];
      RowsMirrorSessions(cfg, start, front);
      RunKeepsInv(cfg, start, front);
      var x := Run(cfg, start, front);
      match ops[|ops| - 1]
      case RevokeOp(sid) => RevokeMirrored(x.fed, sid, x.now);
      case RevokeAllOp(itsId, order) => RevokeEachMirrored(x.fed, order, x.now);
      case _ =>
    }
  }
}
