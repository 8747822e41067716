/** The central federation session service: Redis keys, SQL rows and the commands that change them. */
module FederationSessions {
  import opened Wrappers
  import opened Redis

  type Sid = string
  type ItsId = string
  type ClientId = string

  /** SHA-256, treated as injective. */
  datatype Hash = Sha256(text: string)

  datatype Config = Config(idleTtl: int, absoluteTtl: int) {
    predicate Valid() { 0 < idleTtl <= absoluteTtl }
  }

  datatype Session = Session(sid: Sid, itsId: ItsId, authTime: int, createdAt: int, expiresAt: int,
                             absoluteExpiresAt: int, isActive: bool, handleHash: Hash)

  /** A row of auth_sessions. */
  datatype Row = Row(itsId: ItsId, expiresAt: int, absoluteExpiresAt: int, revokedAt: Option<int>)

  datatype Revoked = Revoked(sid: Sid, itsId: ItsId, clients: set<ClientId>)

  /** Everything the service stores: four Redis indexes and two SQL tables. */
  datatype Fed = Fed(sessions: Store<Sid, Session>,
                     handles: Store<Hash, Sid>,
                     userSessions: Store<ItsId, set<Sid>>,
                     sessionClients: Store<Sid, set<ClientId>>,
                     rows: map<Sid, Row>,
                     participants: map<Sid, set<ClientId>>)

  const EMPTY := Fed(map[], map[], map[], map[], map[], map[])

  function Max(a: int, b: int): int { if a < b then b else a }
  function Min(a: int, b: int): int { if a < b then a else b }

  /** SESSION_HANDLE_PATTERN: 43 characters of the base64url alphabet. */
  predicate WellFormedHandle(handle: string) {
    |handle| == 43 &&
    forall i :: 0 <= i < |handle| ==>
      var c := handle[i];
      'A' <= c <= 'Z' || 'a' <= c <= 'z' || '0' <= c <= '9' || c == '_' || c == '-'
  }

  // ---- create ----

  function NewSession(cfg: Config, itsId: ItsId, sid: Sid, handle: string, now: int): Session {
    Session(sid, itsId, now / 1000, now, now + cfg.idleTtl * 1000, now + cfg.absoluteTtl * 1000, true, Sha256(handle))
  }

  /** The MULTI of create. */
  function CreateMulti(f: Fed, cfg: Config, s: Session, now: int): Fed {
    f.(sessions := SetEx(f.sessions, s.sid, s, now, cfg.idleTtl),
       handles := SetEx(f.handles, s.handleHash, s.sid, now, cfg.idleTtl),
       userSessions := SAddExpire(f.userSessions, s.itsId, s.sid, now, cfg.absoluteTtl))
  }

  /** The INSERT of create. */
  function CreateInsert(f: Fed, s: Session): Fed {
    f.(rows := f.rows[s.sid := Row(s.itsId, s.expiresAt, s.absoluteExpiresAt, None)])
  }

  function Create(f: Fed, cfg: Config, s: Session, now: int): Fed {
    CreateInsert(CreateMulti(f, cfg, s, now), s)
  }

  // ---- reads ----

  /** What get decides once it has the stored value. */
  function Usable(stored: Option<Session>, now: int): Option<Session> {
    if stored.Some? && stored.value.isActive && now < stored.value.absoluteExpiresAt then stored else None
  }

  function Lookup(f: Fed, sid: Sid, now: int): Option<Session> {
    Usable(Get(f.sessions, sid, now), now)
  }

  function LookupByHandle(f: Fed, handle: string, now: int): Option<Session> {
    if !WellFormedHandle(handle) then None else
    var sid := Get(f.handles, Sha256(handle), now);
    if sid.None? then None else
    var s := Lookup(f, sid.value, now);
    if s.Some? && s.value.handleHash == Sha256(handle) then s else None
  }

  /** A session is obtained exactly if its key is live, it is active, and its absolute expiry lies ahead. */
  lemma LookupAnswers(f: Fed, sid: Sid, now: int, s: Session)
    ensures Lookup(f, sid, now) == Some(s) <==>
              && sid in f.sessions && now < f.sessions[sid].deadline && f.sessions[sid].value == s
              && s.isActive && now < s.absoluteExpiresAt
  {
  }

  /** By handle: if moreover the handle has the right form, its key is live, and the session it leads to carries its
      hash. */
  lemma LookupByHandleAnswers(f: Fed, handle: string, now: int, s: Session)
    ensures LookupByHandle(f, handle, now) == Some(s) <==>
              && WellFormedHandle(handle) && s.handleHash == Sha256(handle)
              && Sha256(handle) in f.handles && now < f.handles[Sha256(handle)].deadline
              && Lookup(f, f.handles[Sha256(handle)].value, now) == Some(s)
  {
  }

  // ---- touch ----

  function TouchExpiry(cfg: Config, s: Session, now: int): int {
    Min(now + cfg.idleTtl * 1000, s.absoluteExpiresAt)
  }

  function TouchTtl(cfg: Config, s: Session, now: int): int {
    Max(1, (TouchExpiry(cfg, s, now) - now) / 1000)
  }

  /** The MULTI of touch: s already carries its new expiresAt. */
  function TouchMulti(f: Fed, s: Session, ttl: int, now: int): Fed {
    f.(sessions := SetEx(f.sessions, s.sid, s, now, ttl),
       handles := Expire(f.handles, s.handleHash, now, ttl),
       sessionClients := Expire(f.sessionClients, s.sid, now, ttl))
  }

  /** The UPDATE of touch. */
  function TouchUpdate(f: Fed, s: Session): Fed {
    if s.sid in f.rows then f.(rows := f.rows[s.sid := f.rows[s.sid].(expiresAt := s.expiresAt)]) else f
  }

  function Touch(f: Fed, cfg: Config, s: Session, now: int): Fed {
    var t := s.(expiresAt := TouchExpiry(cfg, s, now));
    TouchUpdate(TouchMulti(f, t, TouchTtl(cfg, s, now), now), t)
  }

  // ---- clients of a session ----

  function ClientTtl(s: Session, now: int): int {
    Max(1, (s.absoluteExpiresAt - now) / 1000)
  }

  /** The SQL participant rows of a session. */
  function Participants(f: Fed, sid: Sid): set<ClientId> {
    if sid in f.participants then f.participants[sid] else {}
  }

  function AddClient(f: Fed, s: Session, c: ClientId, now: int): Fed {
    f.(sessionClients := SAddExpire(f.sessionClients, s.sid, c, now, ClientTtl(s, now)),
       participants := f.participants[s.sid := Participants(f, s.sid) + {c}])
  }

  /** The Redis set when it has members, otherwise the table. */
  function Clients(f: Fed, sid: Sid, now: int): set<ClientId> {
    var fromRedis := SMembers(f.sessionClients, sid, now);
    if fromRedis != {} then fromRedis else Participants(f, sid)
  }

  // ---- revoke ----

  predicate AlreadyGone(f: Fed, sid: Sid, raw: Option<Session>) {
    raw.None? && (sid !in f.rows || f.rows[sid].revokedAt.Some?)
  }

  /** The MULTI of revoke; raw is the session value read earlier. */
  function RevokeMulti(f: Fed, sid: Sid, itsId: ItsId, raw: Option<Session>, now: int): Fed {
    f.(sessions := Del(f.sessions, sid),
       sessionClients := Del(f.sessionClients, sid),
       userSessions := SRem(f.userSessions, itsId, sid, now),
       handles := if raw.Some? then Del(f.handles, raw.value.handleHash) else f.handles)
  }

  /** The UPDATE of revoke. */
  function RevokeUpdate(f: Fed, sid: Sid, now: int): Fed {
    if sid in f.rows && f.rows[sid].revokedAt.None?
    then f.(rows := f.rows[sid := f.rows[sid].(revokedAt := Some(now))]) else f
  }

  function Revoke(f: Fed, sid: Sid, now: int): (Fed, Option<Revoked>) {
    var raw := Get(f.sessions, sid, now);
    if AlreadyGone(f, sid, raw) then (f, None) else
    var itsId := if raw.Some? then raw.value.itsId else f.rows[sid].itsId;
    (RevokeUpdate(RevokeMulti(f, sid, itsId, raw, now), sid, now), Some(Revoked(sid, itsId, Clients(f, sid, now))))
  }

  /** Revokes the listed sessions in order; collects the non-null results. */
  function RevokeEach(f: Fed, sids: seq<Sid>, now: int): (Fed, seq<Revoked>) {
    if sids == [] then (f, []) else
    var (g, done) := RevokeEach(f, sids[..|sids| - 1], now);
    var (h, last) := Revoke(g, sids[|sids| - 1], now);
    (h, done + if last.Some? then [last.value] else [])
  }

  /** The sids revokeAllForUser visits: the per-user set and the unrevoked, unexpired rows. */
  function UserSids(f: Fed, itsId: ItsId, now: int): set<Sid> {
    SMembers(f.userSessions, itsId, now) +
    set sid | sid in f.rows && f.rows[sid].itsId == itsId && f.rows[sid].revokedAt.None? &&
              now < f.rows[sid].absoluteExpiresAt
  }

  ghost predicate Enumerates<T(!new)>(order: seq<T>, s: set<T>) {
    (forall x :: x in order <==> x in s) &&
    (forall i, j :: 0 <= i < j < |order| ==> order[i] != order[j])
  }

  method Enumerate<T(==, !new)>(s: set<T>) returns (order: seq<T>)
    ensures Enumerates(order, s)
  {
    order := [];
    var rest := s;
    while rest != {}
      invariant Enumerates(order, s - rest) && rest <= s
    {
      var x :| x in rest;
      rest, order := rest - {x}, order + [x];
    }
  }

  // ---- what the calls write ----

  /** A new session is active, signed in at this second, and expires after the idle and the absolute lifetime. Its two
      keys end when it does, its user's set not before its absolute expiry, and its row says the same and is
      unrevoked. */
  lemma CreateWrites(f: Fed, cfg: Config, itsId: ItsId, sid: Sid, handle: string, now: int)
    ensures var s := NewSession(cfg, itsId, sid, handle, now);
            && s.sid == sid && s.itsId == itsId && s.isActive && s.handleHash == Sha256(handle) && s.createdAt == now
            && s.authTime * 1000 <= now < s.authTime * 1000 + 1000
            && s.expiresAt - now == cfg.idleTtl * 1000 && s.absoluteExpiresAt - now == cfg.absoluteTtl * 1000
    ensures var s := NewSession(cfg, itsId, sid, handle, now); var g := Create(f, cfg, s, now);
            && g.sessions == f.sessions[sid := Entry(s, s.expiresAt)]
            && g.handles == f.handles[s.handleHash := Entry(sid, s.expiresAt)]
            && itsId in g.userSessions && sid in g.userSessions[itsId].value
            && SMembers(f.userSessions, itsId, now) <= g.userSessions[itsId].value
            && g.userSessions[itsId].deadline == s.absoluteExpiresAt
            && g.rows == f.rows[sid := Row(itsId, s.expiresAt, s.absoluteExpiresAt, None)]
            && g.participants == f.participants && g.sessionClients == f.sessionClients
  {
    assert now == now / 1000 * 1000 + now % 1000;
  }

  /** touch moves idle expiry to a full idle lifetime from now, but not past absolute expiry. The session key is stored
      anew to the last whole second before that, for at least a second; handle key and client set move with it only
      while they live; the row follows. */
  lemma TouchWrites(f: Fed, cfg: Config, s: Session, now: int)
    ensures var g := Touch(f, cfg, s, now); var e := TouchExpiry(cfg, s, now);
            && e <= now + cfg.idleTtl * 1000 && e <= s.absoluteExpiresAt
            && (e == now + cfg.idleTtl * 1000 || e == s.absoluteExpiresAt)
            && s.sid in g.sessions && g.sessions[s.sid].value == s.(expiresAt := e)
            && (now + 1000 <= e ==> e - 1000 < g.sessions[s.sid].deadline <= e)
            && (e < now + 1000 ==> g.sessions[s.sid].deadline == now + 1000)
            && g.sessions.Keys == f.sessions.Keys + {s.sid}
            && forall k :: k in f.sessions && k != s.sid ==> g.sessions[k] == f.sessions[k]
    ensures var g := Touch(f, cfg, s, now); var d, h := g.sessions[s.sid].deadline, s.handleHash;
            && g.handles
                 == (if Live(f.handles, h, now) then f.handles[h := Entry(f.handles[h].value, d)] else f.handles)
            && g.sessionClients == (if Live(f.sessionClients, s.sid, now)
                                    then f.sessionClients[s.sid := Entry(f.sessionClients[s.sid].value, d)]
                                    else f.sessionClients)
    ensures var g := Touch(f, cfg, s, now); var e := TouchExpiry(cfg, s, now);
            && g.userSessions == f.userSessions && g.participants == f.participants
            && g.rows == (if s.sid in f.rows then f.rows[s.sid := f.rows[s.sid].(expiresAt := e)] else f.rows)
  {
  }

  /** A revoke that finds something deletes the session key, its client set and the handle key of the session it read,
      takes the sid off its user's live set, and stamps an unrevoked row with the time; it answers with the owner and
      the clients of before. */
  lemma RevokeWrites(f: Fed, sid: Sid, now: int)
    ensures var (g, r) := Revoke(f, sid, now); var live := sid in f.sessions && now < f.sessions[sid].deadline;
            && (r == None <==> !live && (sid !in f.rows || f.rows[sid].revokedAt != None))
            && (r == None ==> g == f)
            && (r != None ==>
                 && r.value.sid == sid && r.value.clients == Clients(f, sid, now)
                 && r.value.itsId == (if live then f.sessions[sid].value.itsId else f.rows[sid].itsId))
    ensures var (g, r) := Revoke(f, sid, now); var live := sid in f.sessions && now < f.sessions[sid].deadline;
            r != None ==>
              && g.sessions == f.sessions - {sid} && g.sessionClients == f.sessionClients - {sid}
              && g.handles == (if live then f.handles - {f.sessions[sid].value.handleHash} else f.handles)
              && SMembers(g.userSessions, r.value.itsId, now) == SMembers(f.userSessions, r.value.itsId, now) - {sid}
              && g.participants == f.participants
              && g.rows == (if sid in f.rows && f.rows[sid].revokedAt == None
                            then f.rows[sid := f.rows[sid].(revokedAt := Some(now))] else f.rows)
  {
  }

  /** revokeAllForUser visits the members of the user's live set and the user's unrevoked, unexpired rows. */
  lemma UserSidsAre(f: Fed, itsId: ItsId, now: int, sid: Sid)
    ensures sid in UserSids(f, itsId, now) <==>
              || (itsId in f.userSessions && now < f.userSessions[itsId].deadline && sid in f.userSessions[itsId].value)
              || (sid in f.rows && f.rows[sid].itsId == itsId && f.rows[sid].revokedAt == None
                  && now < f.rows[sid].absoluteExpiresAt)
  {
  }

  /** The service object. Each method performs the commands of the source in order, at one clock reading. */
  class FederationSessionService {
    const cfg: Config
    var sessions: Store<Sid, Session>
    var handles: Store<Hash, Sid>
    var userSessions: Store<ItsId, set<Sid>>
    var sessionClients: Store<Sid, set<ClientId>>
    var rows: map<Sid, Row>
    var participants: map<Sid, set<ClientId>>

    ghost function View(): Fed
      reads this
    {
      Fed(sessions, handles, userSessions, sessionClients, rows, participants)
    }

    constructor (cfg: Config)
      ensures View() == EMPTY && this.cfg == cfg
    {
      this.cfg := cfg;
      sessions, handles, userSessions, sessionClients, rows, participants := map[], map[], map[], map[], map[], map[];
    }

    method CreateSession(itsId: ItsId, sid: Sid, handle: string, now: int) returns (s: Session)
      modifies this
      ensures s == NewSession(cfg, itsId, sid, handle, now)
      ensures View() == Create(old(View()), cfg, s, now)
    {
      s := Session(sid, itsId, now / 1000, now, now + cfg.idleTtl * 1000, now + cfg.absoluteTtl * 1000, true,
        Sha256(handle));
      sessions := SetEx(sessions, sid, s, now, cfg.idleTtl);
      handles := SetEx(handles, s.handleHash, sid, now, cfg.idleTtl);
      userSessions := SAddExpire(userSessions, itsId, sid, now, cfg.absoluteTtl);
      rows := rows[sid := Row(itsId, s.expiresAt, s.absoluteExpiresAt, None)];
    }

    method GetSession(sid: Sid, now: int) returns (r: Option<Session>)
      ensures r == Lookup(View(), sid, now)
      ensures r.Some? <==> Live(sessions, sid, now) && sessions[sid].value.isActive
                           && now < sessions[sid].value.absoluteExpiresAt
      ensures r.Some? ==> r.value == sessions[sid].value
    {
      var raw := Get(sessions, sid, now);
      if raw.None? { return None; }
      if !raw.value.isActive || raw.value.absoluteExpiresAt <= now { return None; }
      return raw;
    }

    method GetByHandle(handle: string, now: int) returns (r: Option<Session>)
      ensures r == LookupByHandle(View(), handle, now)
      ensures r.Some? ==> WellFormedHandle(handle) && r.value.handleHash == Sha256(handle)
      ensures WellFormedHandle(handle) && Live(handles, Sha256(handle), now) ==>
                var s := Lookup(View(), handles[Sha256(handle)].value, now);
                r == if s.Some? && s.value.handleHash == Sha256(handle) then s else None
    {
      if !WellFormedHandle(handle) { return None; }
      var sid := Get(handles, Sha256(handle), now);
      if sid.None? { return None; }
      r := GetSession(sid.value, now);
      if r.None? || r.value.handleHash != Sha256(handle) { return None; }
    }

    /** Sliding idle expiry capped by the absolute lifetime; returns the session with its new expiry. */
    method TouchSession(session: Session, now: int) returns (ttl: int, touched: Session)
      modifies this
      ensures touched == session.(expiresAt := TouchExpiry(cfg, session, now)) && ttl == TouchTtl(cfg, session, now)
      ensures View() == Touch(old(View()), cfg, session, now)
      ensures session.sid in sessions && sessions[session.sid].value == touched
      ensures old(Live(handles, session.handleHash, now)) ==>
                session.handleHash in handles && handles[session.handleHash].deadline == sessions[session.sid].deadline
    {
      var expires := Min(now + cfg.idleTtl * 1000, session.absoluteExpiresAt);
      ttl := Max(1, (expires - now) / 1000);
      touched := session.(expiresAt := expires);
      sessions := SetEx(sessions, touched.sid, touched, now, ttl);
      handles := Expire(handles, touched.handleHash, now, ttl);
      sessionClients := Expire(sessionClients, touched.sid, now, ttl);
      if touched.sid in rows {
        rows := rows[touched.sid := rows[touched.sid].(expiresAt := expires)];
      }
    }

    method AddClientToSession(session: Session, client: ClientId, now: int)
      modifies this
      ensures View() == AddClient(old(View()), session, client, now)
    {
      var ttl := Max(1, (session.absoluteExpiresAt - now) / 1000);
      sessionClients := SAddExpire(sessionClients, session.sid, client, now, ttl);
      var listed := if session.sid in participants then participants[session.sid] else {};
      participants := participants[session.sid := listed + {client}];
    }

    method ClientsOf(sid: Sid, now: int) returns (r: set<ClientId>)
      ensures r == Clients(View(), sid, now)
    {
      r := SMembers(sessionClients, sid, now);
      if r == {} && sid in participants { r := participants[sid]; }
    }

    method RevokeSession(sid: Sid, now: int) returns (r: Option<Revoked>)
      modifies this
      ensures (View(), r) == Revoke(old(View()), sid, now)
    {
      var raw := Get(sessions, sid, now);
      if raw.None? && (sid !in rows || rows[sid].revokedAt.Some?) { return None; }
      var itsId := if raw.Some? then raw.value.itsId else rows[sid].itsId;
      var clients := ClientsOf(sid, now);
      sessions := Del(sessions, sid);
      sessionClients := Del(sessionClients, sid);
      userSessions := SRem(userSessions, itsId, sid, now);
      if raw.Some? { handles := Del(handles, raw.value.handleHash); }
      if sid in rows && rows[sid].revokedAt.None? {
        rows := rows[sid := rows[sid].(revokedAt := Some(now))];
      }
      return Some(Revoked(sid, itsId, clients));
    }

    /** Visits every listed sid once, in some order. */
    method RevokeAllForUser(itsId: ItsId, now: int) returns (revoked: seq<Revoked>)
      modifies this
      ensures exists order :: Enumerates(order, UserSids(old(View()), itsId, now)) &&
                              (View(), revoked) == RevokeEach(old(View()), order, now)
    {
      var fromRedis := SMembers(userSessions, itsId, now);
      var fromDb := set sid | sid in rows && rows[sid].itsId == itsId && rows[sid].revokedAt.None? &&
                              now < rows[sid].absoluteExpiresAt;
      var sids := Enumerate(fromRedis + fromDb);
      revoked := [];
      for i := 0 to |sids|
        invariant (View(), revoked) == RevokeEach(old(View()), sids[..i], now)
      {
        var result := RevokeSession(sids[i], now);
        if result.Some? { revoked := revoked + [result.value]; }
        assert sids[..i + 1][..i] == sids[..i] && revoked + [] == revoked;
      }
      assert sids[..|sids|] == sids;
    }
  }
}
